/** Shared vocabulary: optional values, results carrying a JavaScript-style
    exception, and the string operations the pipeline is built from. */
module Base {

  datatype Option<+T> = None | Some(value: T)

  /** An exception as a `catch` block sees it: the constructor name and `message`. */
  datatype Error = Error(name: string, message: string)

  /** The outcome of a step that may throw. Usable with `:-`. */
  datatype Result<+T> = Ok(value: T) | Err(error: Error) {

    predicate IsFailure() {
      Err?
    }

    function PropagateFailure<U>(): Result<U>
      requires Err?
    {
      Err(error)
    }

    function Extract(): T
      requires Ok?
    {
      value
    }
  }

  /** The characters ECMAScript calls LineTerminator; the regex `.` matches none of them. */
  predicate IsLineTerminator(c: char) {
    c == '\n' || c == '\r' || c == '\U{2028}' || c == '\U{2029}'
  }

  /** ECMAScript WhiteSpace (tab, vertical tab, form feed, no-break space, byte
      order mark and the Unicode space separators) together with LineTerminator:
      exactly the characters `String.prototype.trim` removes. */
  predicate IsWhitespace(c: char) {
    || c == '\t' || c == '\U{000B}' || c == '\U{000C}' || c == ' '
    || c == '\U{00A0}' || c == '\U{FEFF}' || c == '\U{1680}'
    || ('\U{2000}' <= c <= '\U{200A}')
    || c == '\U{202F}' || c == '\U{205F}' || c == '\U{3000}'
    || IsLineTerminator(c)
  }

  /** `s` holds `needle` starting at position `i`. */
  predicate OccursAt(s: string, needle: string, i: nat) {
    i + |needle| <= |s| && s[i..i + |needle|] == needle
  }

  /** `s.includes(needle)`. */
  predicate Contains(s: string, needle: string) {
    exists i: nat :: i <= |s| && OccursAt(s, needle, i)
  }

  predicate SlashFree(s: string) {
    forall k :: 0 <= k < |s| ==> s[k] != '/'
  }

  predicate NoLineTerminator(s: string) {
    forall k :: 0 <= k < |s| ==> !IsLineTerminator(s[k])
  }

  predicate Lacks(s: string, c: char) {
    forall k :: 0 <= k < |s| ==> s[k] != c
  }

  /** `xs.join(sep)` / Kotlin `joinToString(sep)`. */
  function Join(sep: string, xs: seq<string>): string
    decreases |xs|
  {
    if |xs| == 0 then ""
    else if |xs| == 1 then xs[0]
    else xs[0] + sep + Join(sep, xs[1..])
  }

  /** Splits `s` at every occurrence of `c`; the pieces never contain `c`. */
  function SplitOn(s: string, c: char): (r: seq<string>)
    ensures |r| >= 1
    ensures forall k :: 0 <= k < |r| ==> Lacks(r[k], c)
    decreases |s|
  {
    if |s| == 0 then [""]
    else
      var rest := SplitOn(s[1..], c);
      if s[0] == c then [""] + rest
      else [[s[0]] + rest[0]] + rest[1..]
  }

  /** Splitting undoes joining when no piece contains the separator. */
  lemma {:induction false} SplitJoin(xs: seq<string>, c: char)
    requires |xs| >= 1
    requires forall k :: 0 <= k < |xs| ==> Lacks(xs[k], c)
    ensures SplitOn(Join([c], xs), c) == xs
    decreases |xs|
  {
    if |xs| == 1 {
      SplitLacking(xs[0], c, "");
      assert xs[0] + "" == xs[0];
    } else {
      SplitJoin(xs[1..], c);
      var t := Join([c], xs[1..]);
      assert Join([c], xs) == xs[0] + ([c] + t);
      SplitLacking(xs[0], c, [c] + t);
      assert ([c] + t)[1..] == t;
      assert SplitOn([c] + t, c) == [""] + xs[1..];
      assert xs[0] + "" == xs[0];
      assert ([""] + xs[1..])[1..] == xs[1..];
      assert xs == [xs[0]] + xs[1..];
    }
  }

  /** A piece without `c` glues onto the first piece of what follows it. */
  lemma {:induction false} SplitLacking(x: string, c: char, t: string)
    requires Lacks(x, c)
    ensures SplitOn(x + t, c) == [x + SplitOn(t, c)[0]] + SplitOn(t, c)[1..]
    decreases |x|
  {
    if |x| > 0 {
      assert (x + t)[0] == x[0];
      assert (x + t)[1..] == x[1..] + t;
      SplitLacking(x[1..], c, t);
      assert [x[0]] + (x[1..] + SplitOn(t, c)[0]) == x + SplitOn(t, c)[0];
    } else {
      assert x + t == t;
      var r := SplitOn(t, c);
      assert r == [r[0]] + r[1..];
      assert x + r[0] == r[0];
    }
  }

  /** An occurrence of a slash-free needle inside `a + "/" + b` lies wholly in `a` or in `b`. */
  lemma OccurrenceAcrossSlash(a: string, b: string, needle: string)
    requires SlashFree(needle)
    requires Contains(a + "/" + b, needle)
    ensures Contains(a, needle) || Contains(b, needle)
  {
    var s := a + "/" + b;
    var i: nat :| i <= |s| && OccursAt(s, needle, i);
    assert s[|a|] == '/';
    assert forall k :: 0 <= k < |needle| ==> needle[k] == s[i + k];
    if i + |needle| <= |a| {
      assert s[i..i + |needle|] == a[i..i + |needle|];
      assert OccursAt(a, needle, i);
    } else {
      var j: nat := i - |a| - 1;
      assert s[i..i + |needle|] == b[j..j + |needle|];
      assert OccursAt(b, needle, j);
    }
  }

  /** An occurrence of `a + b` is an occurrence of `a` followed by one of `b`. */
  lemma OccursAtSplit(s: string, a: string, b: string, i: nat)
    requires OccursAt(s, a + b, i)
    ensures OccursAt(s, a, i) && OccursAt(s, b, i + |a|)
  {
    assert s[i..i + |a|] == (a + b)[..|a|];
    assert s[i + |a|..i + |a| + |b|] == (a + b)[|a|..];
  }

  /** Two adjacent occurrences make one of the concatenation. */
  lemma OccursAtJoin(s: string, a: string, b: string, i: nat)
    requires OccursAt(s, a, i) && OccursAt(s, b, i + |a|)
    ensures OccursAt(s, a + b, i)
  {
    assert s[i..i + |a| + |b|] == s[i..i + |a|] + s[i + |a|..i + |a| + |b|];
  }

  /** Text after an occurrence of `pre`, split at a slash, spells `pre`, the
      part before the slash, the slash and the part after it. */
  lemma OccursAroundSlash(s: string, pre: string, i: nat, k: nat, e: nat)
    requires OccursAt(s, pre, i) && i + |pre| <= k < e <= |s| && s[k] == '/'
    ensures OccursAt(s, pre + s[i + |pre|..k] + "/" + s[k + 1..e], i)
  {
    var a := pre + s[i + |pre|..k];
    OccursAtJoin(s, pre, s[i + |pre|..k], i);
    assert OccursAt(s, "/", k) by {
      assert s[k..k + 1] == [s[k]];
    }
    OccursAtJoin(s, a, "/", i);
    OccursAtJoin(s, a + "/", s[k + 1..e], i);
  }

  /** An occurrence, character by character. */
  lemma OccursAtIndex(s: string, a: string, i: nat)
    requires OccursAt(s, a, i)
    ensures forall t :: 0 <= t < |a| ==> s[i + t] == a[t]
  {
    forall t | 0 <= t < |a|
      ensures s[i + t] == a[t]
    {
      assert s[i..i + |a|][t] == s[i + t];
    }
  }
}
