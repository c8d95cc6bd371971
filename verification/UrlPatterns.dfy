/** The three regular expressions the backend and the upload trigger apply to
    storage URLs and object names, written as explicit searches with
    ECMAScript's leftmost-match semantics:

      /o\/(.+?)\?/                              Firebase download URLs
      /storage\.googleapis\.com\/[^/]+\/(.+)/   Google Cloud Storage URLs
      /users\/([^/]+)\/nutrition\/images/       the uploader's id in an object name

    `.` matches anything but a line terminator; `[^/]` matches line terminators. */
module UrlPatterns {
  import opened Base

  const GcsPrefix := "storage.googleapis.com/"
  const UsersPrefix := "users/"
  const ImagesSuffix := "/nutrition/images"

  /** `s.match(re)` for an unanchored pattern whose attempt at one start
      position is `at`: the first start at or after `from` where it succeeds. */
  function FirstMatch<X>(s: string, from: nat, at: (string, nat) -> Option<X>): (r: Option<(nat, X)>)
    requires from <= |s|
    ensures r.Some? ==> from <= r.value.0 <= |s| && at(s, r.value.0) == Some(r.value.1)
    ensures r.Some? ==> forall k :: from <= k < r.value.0 ==> at(s, k).None?
    ensures r.None? ==> forall k :: from <= k <= |s| ==> at(s, k).None?
    decreases |s| - from
  {
    match at(s, from)
    case Some(x) => Some((from, x))
    case None => if from == |s| then None else FirstMatch(s, from + 1, at)
  }

  /** The first position at or after `k` holding a character `stop` accepts, or `|s|`. */
  function Scan(s: string, k: nat, stop: char -> bool): (r: nat)
    requires k <= |s|
    ensures k <= r <= |s|
    ensures r < |s| ==> stop(s[r])
    ensures forall t :: k <= t < r ==> !stop(s[t])
    decreases |s| - k
  {
    if k == |s| || stop(s[k]) then k else Scan(s, k + 1, stop)
  }

  predicate IsSlash(c: char) {
    c == '/'
  }

  /** `.+?\?` starting at `p`: the position of the `?` that ends the shortest
      run of at least one non-terminator character. `k` is where the search
      for that `?` continues; everything in `s[p..k]` is a non-terminator. */
  function LazyQuestion(s: string, p: nat, k: nat): (r: Option<nat>)
    requires p < k <= |s|
    requires forall t :: p <= t < k ==> !IsLineTerminator(s[t])
    ensures r.Some? ==> k <= r.value < |s| && s[r.value] == '?'
    ensures r.Some? ==> forall t :: p <= t < r.value ==> !IsLineTerminator(s[t])
    ensures r.Some? ==> forall t :: k <= t < r.value ==> s[t] != '?'
    ensures r.None? ==> forall j :: k <= j < |s| && s[j] == '?' ==>
      exists t :: k <= t < j && IsLineTerminator(s[t])
    decreases |s| - k
  {
    if k == |s| then None
    else if s[k] == '?' then Some(k)
    else if IsLineTerminator(s[k]) then None
    else LazyQuestion(s, p, k + 1)
  }

  /** `/o\/(.+?)\?/` tried at position `i`: the captured group. */
  function FirebaseAt(s: string, i: nat): (r: Option<string>)
  {
    if i + 2 < |s| && s[i] == 'o' && s[i + 1] == '/' && !IsLineTerminator(s[i + 2]) then
      match LazyQuestion(s, i + 2, i + 3)
      case Some(j) => Some(s[i + 2..j])
      case None => None
    else None
  }

  /** What a Firebase match at `i` capturing `c` looks like: "o/", then `c`
      (at least one character, no line terminator, no '?' after its first
      character), then '?'. */
  predicate FirebaseShape(s: string, i: nat, c: string) {
    && OccursAt(s, "o/" + c + "?", i)
    && |c| >= 1
    && NoLineTerminator(c)
    && forall t :: 1 <= t < |c| ==> c[t] != '?'
  }

  /** The Firebase regex succeeds at `i` with capture `c` exactly when `s` has
      the shape the pattern describes there. */
  lemma FirebaseAtShape(s: string, i: nat, c: string)
    ensures FirebaseAt(s, i) == Some(c) <==> FirebaseShape(s, i, c)
  {
    if FirebaseAt(s, i) == Some(c) {
      FirebaseAtHasShape(s, i);
    }
    if FirebaseShape(s, i, c) {
      FirebaseShapeMatches(s, i, c);
    }
  }

  lemma FirebaseAtHasShape(s: string, i: nat)
    requires FirebaseAt(s, i).Some?
    ensures FirebaseShape(s, i, FirebaseAt(s, i).value)
  {
    var j := LazyQuestion(s, i + 2, i + 3).value;
    var c := s[i + 2..j];
    assert FirebaseAt(s, i).value == c;
    forall t | 0 <= t < |c|
      ensures !IsLineTerminator(c[t])
    {
      assert c[t] == s[i + 2 + t];
    }
    forall t | 1 <= t < |c|
      ensures c[t] != '?'
    {
      assert c[t] == s[i + 2 + t];
    }
    assert s[i..j + 1] == "o/" + c + "?" by {
      assert s[i..j + 1] == [s[i], s[i + 1]] + c + [s[j]];
    }
  }

  lemma FirebaseShapeMatches(s: string, i: nat, c: string)
    requires FirebaseShape(s, i, c)
    ensures FirebaseAt(s, i) == Some(c)
  {
    var w := "o/" + c + "?";
    var j := i + 2 + |c|;
    assert s[i..j + 1] == w;
    assert s[i] == w[0] && s[i + 1] == w[1] && s[j] == w[|w| - 1];
    assert forall t :: i + 2 <= t < j ==> s[t] == c[t - i - 2];
    assert s[i + 2..j] == c;
    var r := LazyQuestion(s, i + 2, i + 3);
    assert r == Some(j);
  }

  /** `/storage\.googleapis\.com\/[^/]+\/(.+)/` tried at position `i`: the
      bucket segment and the captured object path. */
  function GcsAt(s: string, i: nat): (r: Option<(string, string)>)
  {
    if OccursAt(s, GcsPrefix, i) then
      var k := Scan(s, i + |GcsPrefix|, IsSlash);
      if k == i + |GcsPrefix| || k == |s| then None
      else
        var e := Scan(s, k + 1, IsLineTerminator);
        if e == k + 1 then None else Some((s[i + |GcsPrefix|..k], s[k + 1..e]))
    else None
  }

  /** What a GCS match at `i` looks like: the host and '/', a non-empty
      slash-free segment, '/', then the captured path, which is non-empty, holds
      no line terminator and runs to the end or to a line terminator. */
  predicate GcsShape(s: string, i: nat, segment: string, path: string) {
    var w := GcsPrefix + segment + "/" + path;
    && OccursAt(s, w, i)
    && |segment| >= 1 && SlashFree(segment)
    && |path| >= 1 && NoLineTerminator(path)
    && (i + |w| == |s| || IsLineTerminator(s[i + |w|]))
  }

  /** The GCS regex succeeds at `i` with (segment, path) exactly when `s` has
      that shape there. */
  lemma GcsAtShape(s: string, i: nat, segment: string, path: string)
    ensures GcsAt(s, i) == Some((segment, path)) <==> GcsShape(s, i, segment, path)
  {
    if GcsAt(s, i) == Some((segment, path)) {
      GcsAtHasShape(s, i);
    }
    if GcsShape(s, i, segment, path) {
      GcsShapeMatches(s, i, segment, path);
    }
  }

  lemma GcsAtHasShape(s: string, i: nat)
    requires GcsAt(s, i).Some?
    ensures GcsShape(s, i, GcsAt(s, i).value.0, GcsAt(s, i).value.1)
  {
    var n := |GcsPrefix|;
    var k := Scan(s, i + n, IsSlash);
    var e := Scan(s, k + 1, IsLineTerminator);
    var segment, path := s[i + n..k], s[k + 1..e];
    assert GcsAt(s, i).value == (segment, path);
    forall t | 0 <= t < |segment|
      ensures segment[t] != '/'
    {
      assert segment[t] == s[i + n + t] && !IsSlash(s[i + n + t]);
    }
    forall t | 0 <= t < |path|
      ensures !IsLineTerminator(path[t])
    {
      assert path[t] == s[k + 1 + t];
    }
    OccursAroundSlash(s, GcsPrefix, i, k, e);
  }

  /** A GCS match starts with "storage.googleapis.com/". */
  lemma GcsShapeHasPrefix(s: string, i: nat, segment: string, path: string)
    requires GcsShape(s, i, segment, path)
    ensures OccursAt(s, GcsPrefix, i)
  {
    OccursAtSplit(s, GcsPrefix + segment + "/", path, i);
    OccursAtSplit(s, GcsPrefix + segment, "/", i);
    OccursAtSplit(s, GcsPrefix, segment, i);
  }

  lemma GcsShapeMatches(s: string, i: nat, segment: string, path: string)
    requires GcsShape(s, i, segment, path)
    ensures GcsAt(s, i) == Some((segment, path))
  {
    var n := |GcsPrefix|;
    var k := i + n + |segment|;
    var e := k + 1 + |path|;
    OccursAtSplit(s, GcsPrefix + segment + "/", path, i);
    OccursAtSplit(s, GcsPrefix + segment, "/", i);
    OccursAtSplit(s, GcsPrefix, segment, i);
    OccursAtIndex(s, segment, i + n);
    OccursAtIndex(s, "/", k);
    OccursAtIndex(s, path, k + 1);
    forall t | i + n <= t < k
      ensures !IsSlash(s[t])
    {
      assert s[i + n + (t - i - n)] == segment[t - i - n];
    }
    forall t | k + 1 <= t < e
      ensures !IsLineTerminator(s[t])
    {
      assert s[k + 1 + (t - k - 1)] == path[t - k - 1];
    }
    assert s[k + 0] == "/"[0];
    assert IsSlash(s[k]);
    var r := Scan(s, i + n, IsSlash);
    assert r <= k;
    assert r == k;
    assert Scan(s, k + 1, IsLineTerminator) == e;
  }

  /** `/users\/([^/]+)\/nutrition\/images/` tried at position `i`: the user id. */
  function UserIdAt(s: string, i: nat): (r: Option<string>)
  {
    if OccursAt(s, UsersPrefix, i) then
      var k := Scan(s, i + |UsersPrefix|, IsSlash);
      if k == i + |UsersPrefix| || !OccursAt(s, ImagesSuffix, k) then None
      else Some(s[i + |UsersPrefix|..k])
    else None
  }

  /** What a user-id match at `i` looks like. */
  predicate UserIdShape(s: string, i: nat, userId: string) {
    && OccursAt(s, UsersPrefix + userId + ImagesSuffix, i)
    && |userId| >= 1 && SlashFree(userId)
  }

  /** The user-id regex succeeds at `i` with `userId` exactly when `s` has that shape there. */
  lemma UserIdAtShape(s: string, i: nat, userId: string)
    ensures UserIdAt(s, i) == Some(userId) <==> UserIdShape(s, i, userId)
  {
    if UserIdAt(s, i) == Some(userId) {
      UserIdAtHasShape(s, i);
    }
    if UserIdShape(s, i, userId) {
      UserIdShapeMatches(s, i, userId);
    }
  }

  lemma UserIdAtHasShape(s: string, i: nat)
    requires UserIdAt(s, i).Some?
    ensures UserIdShape(s, i, UserIdAt(s, i).value)
  {
    var n := |UsersPrefix|;
    var k := Scan(s, i + n, IsSlash);
    var userId := s[i + n..k];
    assert s[k..k + |ImagesSuffix|] == ImagesSuffix;
    assert s[i..k + |ImagesSuffix|] == UsersPrefix + userId + ImagesSuffix;
  }

  lemma UserIdShapeMatches(s: string, i: nat, userId: string)
    requires UserIdShape(s, i, userId)
    ensures UserIdAt(s, i) == Some(userId)
  {
    var n := |UsersPrefix|;
    var k := i + n + |userId|;
    OccursAtSplit(s, UsersPrefix + userId, ImagesSuffix, i);
    OccursAtSplit(s, UsersPrefix, userId, i);
    OccursAtIndex(s, userId, i + n);
    OccursAtIndex(s, ImagesSuffix, k);
    forall t | i + n <= t < k
      ensures !IsSlash(s[t])
    {
      assert s[i + n + (t - i - n)] == userId[t - i - n];
    }
    assert s[k + 0] == ImagesSuffix[0];
    assert IsSlash(s[k]);
    var r := Scan(s, i + n, IsSlash);
    assert r <= k;
    assert r == k;
    assert s[i + n..k] == userId;
  }

  // ---------------------------------------------------------------------------
  // The searches, stated without reference to the scanning code

  /** `c` is what the Firebase regex captures at `i`, and no earlier start matches. */
  ghost predicate FirebaseLeftmost(s: string, i: nat, c: string) {
    FirebaseShape(s, i, c) && forall j: nat, d: string :: j < i ==> !FirebaseShape(s, j, d)
  }

  lemma FirebaseSearch(s: string)
    ensures FirstMatch(s, 0, FirebaseAt).None? <==> forall i: nat, c: string :: !FirebaseShape(s, i, c)
    ensures forall i: nat, c: string ::
      FirstMatch(s, 0, FirebaseAt) == Some((i, c)) <==> FirebaseLeftmost(s, i, c)
  {
    FirebaseNone(s);
    FirebaseFound(s);
  }

  lemma FirebaseNone(s: string)
    ensures FirstMatch(s, 0, FirebaseAt).None? <==> forall i: nat, c: string :: !FirebaseShape(s, i, c)
  {
    FirebaseAgrees(s);
  }

  lemma FirebaseFound(s: string)
    ensures forall i: nat, c: string ::
      FirstMatch(s, 0, FirebaseAt) == Some((i, c)) <==> FirebaseLeftmost(s, i, c)
  {
    FirebaseAgrees(s);
    var r := FirstMatch(s, 0, FirebaseAt);
    forall i: nat, c: string | FirebaseLeftmost(s, i, c)
      ensures r == Some((i, c))
    {
      assert FirebaseAt(s, i) == Some(c);
      var j := r.value.0;
      assert FirebaseShape(s, j, r.value.1);
      assert j == i;
    }
  }

  /** `FirebaseAtShape` for every position and capture at once. */
  lemma FirebaseAgrees(s: string)
    ensures forall i: nat, c: string :: FirebaseAt(s, i) == Some(c) <==> FirebaseShape(s, i, c)
    ensures forall i: nat, c: string :: FirebaseShape(s, i, c) ==> i <= |s|
  {
    forall i: nat, c: string
      ensures FirebaseAt(s, i) == Some(c) <==> FirebaseShape(s, i, c)
    {
      FirebaseAtShape(s, i, c);
    }
  }

  /** (segment, path) is what the GCS regex captures at `i`, and no earlier start matches. */
  ghost predicate GcsLeftmost(s: string, i: nat, segment: string, path: string) {
    GcsShape(s, i, segment, path)
    && forall j: nat, g: string, p: string :: j < i ==> !GcsShape(s, j, g, p)
  }

  lemma GcsSearch(s: string)
    ensures FirstMatch(s, 0, GcsAt).None? <==>
      forall i: nat, segment: string, path: string :: !GcsShape(s, i, segment, path)
    ensures forall i: nat, segment: string, path: string ::
      FirstMatch(s, 0, GcsAt) == Some((i, (segment, path))) <==> GcsLeftmost(s, i, segment, path)
  {
    GcsNone(s);
    GcsFound(s);
  }

  lemma GcsNone(s: string)
    ensures FirstMatch(s, 0, GcsAt).None? <==>
      forall i: nat, segment: string, path: string :: !GcsShape(s, i, segment, path)
  {
    GcsAgrees(s);
  }

  lemma GcsFound(s: string)
    ensures forall i: nat, segment: string, path: string ::
      FirstMatch(s, 0, GcsAt) == Some((i, (segment, path))) <==> GcsLeftmost(s, i, segment, path)
  {
    GcsAgrees(s);
    var r := FirstMatch(s, 0, GcsAt);
    forall i: nat, segment: string, path: string | GcsLeftmost(s, i, segment, path)
      ensures r == Some((i, (segment, path)))
    {
      assert GcsAt(s, i) == Some((segment, path));
      var j := r.value.0;
      var x := r.value.1;
      assert GcsShape(s, j, x.0, x.1);
      assert j == i;
    }
  }

  /** `GcsAtShape` for every position and capture at once. */
  lemma GcsAgrees(s: string)
    ensures forall i: nat, segment: string, path: string ::
      GcsAt(s, i) == Some((segment, path)) <==> GcsShape(s, i, segment, path)
    ensures forall i: nat, segment: string, path: string ::
      GcsShape(s, i, segment, path) ==> i <= |s|
  {
    forall i: nat, segment: string, path: string
      ensures GcsAt(s, i) == Some((segment, path)) <==> GcsShape(s, i, segment, path)
    {
      GcsAtShape(s, i, segment, path);
    }
  }

  /** `userId` is what the trigger's regex captures at `i`, and no earlier start matches. */
  ghost predicate UserIdLeftmost(s: string, i: nat, userId: string) {
    UserIdShape(s, i, userId) && forall j: nat, u: string :: j < i ==> !UserIdShape(s, j, u)
  }

  lemma UserIdSearch(s: string)
    ensures FirstMatch(s, 0, UserIdAt).None? <==> forall i: nat, u: string :: !UserIdShape(s, i, u)
    ensures forall i: nat, u: string ::
      FirstMatch(s, 0, UserIdAt) == Some((i, u)) <==> UserIdLeftmost(s, i, u)
  {
    UserIdNone(s);
    UserIdFound(s);
  }

  lemma UserIdNone(s: string)
    ensures FirstMatch(s, 0, UserIdAt).None? <==> forall i: nat, u: string :: !UserIdShape(s, i, u)
  {
    UserIdAgrees(s);
  }

  lemma UserIdFound(s: string)
    ensures forall i: nat, u: string ::
      FirstMatch(s, 0, UserIdAt) == Some((i, u)) <==> UserIdLeftmost(s, i, u)
  {
    UserIdAgrees(s);
    var r := FirstMatch(s, 0, UserIdAt);
    forall i: nat, u: string | UserIdLeftmost(s, i, u)
      ensures r == Some((i, u))
    {
      assert UserIdAt(s, i) == Some(u);
      var j := r.value.0;
      assert UserIdShape(s, j, r.value.1);
      assert j == i;
    }
  }

  /** `UserIdAtShape` for every position and capture at once. */
  lemma UserIdAgrees(s: string)
    ensures forall i: nat, u: string :: UserIdAt(s, i) == Some(u) <==> UserIdShape(s, i, u)
    ensures forall i: nat, u: string :: UserIdShape(s, i, u) ==> i <= |s|
  {
    forall i: nat, u: string
      ensures UserIdAt(s, i) == Some(u) <==> UserIdShape(s, i, u)
    {
      UserIdAtShape(s, i, u);
    }
  }
}
