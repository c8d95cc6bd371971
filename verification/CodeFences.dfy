/** Cleaning the model's text before it is parsed:
    `raw.replace(/```json|```/g, '').trim()`. */
module CodeFences {
  import opened Base

  const Fence := "```"
  const JsonFence := "```json"

  /** The global replace: scanning left to right, an occurrence of "```json"
      (tried first) or "```" is dropped and scanning resumes after it; any other
      character is kept. */
  function RemoveFences(s: string): (r: string)
    ensures |r| <= |s|
    decreases |s|
  {
    if |s| >= 7 && s[..7] == JsonFence then RemoveFences(s[7..])
    else if |s| >= 3 && s[..3] == Fence then RemoveFences(s[3..])
    else if |s| == 0 then []
    else [s[0]] + RemoveFences(s[1..])
  }

  /** The first position at or after `k` that is not whitespace, or `|s|`. */
  function SkipWhitespace(s: string, k: nat): (a: nat)
    requires k <= |s|
    ensures k <= a <= |s|
    ensures forall t :: k <= t < a ==> IsWhitespace(s[t])
    ensures a < |s| ==> !IsWhitespace(s[a])
    decreases |s| - k
  {
    if k < |s| && IsWhitespace(s[k]) then SkipWhitespace(s, k + 1) else k
  }

  /** Where `s[a..e]` ends once its trailing whitespace is dropped. */
  function DropTrailing(s: string, a: nat, e: nat): (b: nat)
    requires a <= e <= |s|
    ensures a <= b <= e
    ensures forall t :: b <= t < e ==> IsWhitespace(s[t])
    ensures b > a ==> !IsWhitespace(s[b - 1])
    decreases e - a
  {
    if e > a && IsWhitespace(s[e - 1]) then DropTrailing(s, a, e - 1) else e
  }

  /** `String.prototype.trim`. */
  function Trim(s: string): (r: string)
    ensures |r| <= |s|
    ensures |r| > 0 ==> !IsWhitespace(r[0]) && !IsWhitespace(r[|r| - 1])
  {
    var a := SkipWhitespace(s, 0);
    var b := DropTrailing(s, a, |s|);
    assert |s[a..b]| > 0 ==> s[a..b][0] == s[a] && s[a..b][b - a - 1] == s[b - 1];
    s[a..b]
  }

  /** The text handed to `JSON.parse`. */
  function StripFences(raw: string): string {
    Trim(RemoveFences(raw))
  }

  /** Three backticks start at position `i`. */
  predicate FenceAt(s: string, i: nat) {
    i + 3 <= |s| && s[i] == '`' && s[i + 1] == '`' && s[i + 2] == '`'
  }

  predicate NoFence(s: string) {
    forall i: nat :: i < |s| ==> !FenceAt(s, i)
  }

  lemma NoFenceMeansNoContains(s: string)
    ensures NoFence(s) <==> !Contains(s, Fence)
  {
    if Contains(s, Fence) {
      var i: nat :| i <= |s| && OccursAt(s, Fence, i);
      OccursAtIndex(s, Fence, i);
      assert FenceAt(s, i);
    }
    if !NoFence(s) {
      var i: nat :| i < |s| && FenceAt(s, i);
      assert s[i..i + 3] == Fence;
      assert OccursAt(s, Fence, i);
    }
  }

  /** A character other than a backtick at the head always survives. */
  lemma KeepsHead(s: string)
    requires |s| > 0 && s[0] != '`'
    ensures RemoveFences(s) == [s[0]] + RemoveFences(s[1..])
  {
    assert s[..1] == [s[0]];
  }

  /** No run of three backticks is left after the replace. */
  lemma {:induction false} RemoveFencesLeavesNoFence(s: string)
    ensures NoFence(RemoveFences(s))
    decreases |s|
  {
    if |s| >= 7 && s[..7] == JsonFence {
      RemoveFencesLeavesNoFence(s[7..]);
    } else if |s| >= 3 && s[..3] == Fence {
      RemoveFencesLeavesNoFence(s[3..]);
    } else if |s| > 0 {
      var t := s[1..];
      RemoveFencesLeavesNoFence(t);
      var r := RemoveFences(t);
      assert RemoveFences(s) == [s[0]] + r;
      if s[0] == '`' {
        // s does not start with three backticks: the next two kept characters
        // cannot both be backticks.
        if |t| > 0 && t[0] != '`' {
          KeepsHead(t);
        } else if |t| > 0 {
          assert |t| == 1 || t[1] != '`';
          assert t[..1] == "`";
          if |t| >= 7 {
            assert t[..7] != JsonFence by {
              assert t[..7][1] == t[1];
            }
          }
          if |t| >= 3 {
            assert t[..3] != Fence by {
              assert t[..3][1] == t[1];
            }
          }
          assert r == [t[0]] + RemoveFences(t[1..]);
          if |t| >= 2 {
            KeepsHead(t[1..]);
          }
        }
      }
      NoFenceAfterHead(s[0], r);
    }
  }

  /** Putting one character in front keeps a string free of fences unless it
      completes one with the first two characters. */
  lemma NoFenceAfterHead(c: char, r: string)
    requires NoFence(r)
    requires c == '`' ==> !(|r| >= 2 && r[0] == '`' && r[1] == '`')
    ensures NoFence([c] + r)
  {
    var s := [c] + r;
    forall i: nat | i < |s|
      ensures !FenceAt(s, i)
    {
      if i > 0 {
        assert !FenceAt(r, i - 1);
      }
    }
  }

  /** Text without fences passes through the replace unchanged. */
  lemma {:induction false} RemoveFencesIdentity(s: string)
    requires NoFence(s)
    ensures RemoveFences(s) == s
    decreases |s|
  {
    if |s| > 0 {
      assert !FenceAt(s, 0);
      if |s| >= 7 {
        assert s[..7][..3] == s[..3];
      }
      if |s| >= 3 {
        assert s[..3] != Fence by {
          assert s[..3][0] == s[0] && s[..3][1] == s[1] && s[..3][2] == s[2];
        }
      }
      assert NoFence(s[1..]) by {
        forall i: nat | i < |s[1..]|
          ensures !FenceAt(s[1..], i)
        {
          assert !FenceAt(s, i + 1);
        }
      }
      RemoveFencesIdentity(s[1..]);
      assert [s[0]] + s[1..] == s;
    }
  }

  /** A piece of fence-free text is fence-free. */
  lemma NoFenceSlice(s: string, a: nat, b: nat)
    requires NoFence(s) && a <= b <= |s|
    ensures NoFence(s[a..b])
  {
    forall i: nat | i < b - a
      ensures !FenceAt(s[a..b], i)
    {
      assert !FenceAt(s, a + i);
    }
  }

  /** Trimming text that has no whitespace at either end changes nothing. */
  lemma TrimIdentity(s: string)
    requires |s| > 0 ==> !IsWhitespace(s[0]) && !IsWhitespace(s[|s| - 1])
    ensures Trim(s) == s
  {
    assert s[0..|s|] == s;
  }

  /** The cleaned text holds no "```" and has no whitespace at either end. */
  lemma StripFencesClean(raw: string)
    ensures !Contains(StripFences(raw), Fence)
    ensures var r := StripFences(raw); |r| > 0 ==> !IsWhitespace(r[0]) && !IsWhitespace(r[|r| - 1])
  {
    var m := RemoveFences(raw);
    RemoveFencesLeavesNoFence(raw);
    var r := Trim(m);
    var a := SkipWhitespace(m, 0);
    NoFenceSlice(m, a, DropTrailing(m, a, |m|));
    NoFenceMeansNoContains(r);
  }

  /** Cleaning twice is cleaning once. */
  lemma StripFencesIdempotent(raw: string)
    ensures StripFences(StripFences(raw)) == StripFences(raw)
  {
    var r := StripFences(raw);
    StripFencesClean(raw);
    NoFenceMeansNoContains(r);
    RemoveFencesIdentity(r);
    TrimIdentity(r);
  }

  /** Text without backticks and without whitespace at either end is handed to
      the parser as it is. */
  lemma StripFencesUnchanged(raw: string)
    requires Lacks(raw, '`')
    requires |raw| > 0 ==> !IsWhitespace(raw[0]) && !IsWhitespace(raw[|raw| - 1])
    ensures StripFences(raw) == raw
  {
    assert NoFence(raw) by {
      forall i: nat | i < |raw|
        ensures !FenceAt(raw, i)
      {
      }
    }
    RemoveFencesIdentity(raw);
    TrimIdentity(raw);
  }

  /** Wrapping clean text in a fenced "```json" block does not change what is parsed. */
  lemma StripFencedBlock(body: string)
    requires Lacks(body, '`')
    requires |body| > 0 ==> !IsWhitespace(body[0]) && !IsWhitespace(body[|body| - 1])
    ensures StripFences(JsonFence + "\n" + body + "\n" + Fence) == body
  {
    RemoveFencedBlock(body);
    TrimAround(body);
  }

  lemma RemoveFencedBlock(body: string)
    requires Lacks(body, '`')
    ensures RemoveFences(JsonFence + "\n" + body + "\n" + Fence) == "\n" + body + "\n"
  {
    var tail := "\n" + Fence;
    var t := "\n" + (body + tail);
    assert JsonFence + "\n" + body + "\n" + Fence == JsonFence + t;
    DropsJsonFence(t);
    assert RemoveFences(t) == "\n" + RemoveFences(body + tail) by {
      KeepsHead(t);
      assert t[1..] == body + tail;
    }
    KeptBeforeFence(body, tail);
    assert RemoveFences(tail) == "\n" by {
      KeepsHead(tail);
      assert tail[1..] == Fence;
      DropsFence();
    }
    assert "\n" + (body + "\n") == "\n" + body + "\n";
  }

  /** A leading "```json" is dropped whole. */
  lemma DropsJsonFence(t: string)
    ensures RemoveFences(JsonFence + t) == RemoveFences(t)
  {
    var raw := JsonFence + t;
    assert raw[..7] == JsonFence;
    assert raw[7..] == t;
  }

  /** A lone "```" leaves nothing. */
  lemma DropsFence()
    ensures RemoveFences(Fence) == []
  {
    assert Fence[..3] == Fence && Fence[3..] == [];
  }

  /** Characters other than backticks are all kept, in order. */
  lemma {:induction false} KeptBeforeFence(body: string, rest: string)
    requires Lacks(body, '`')
    ensures RemoveFences(body + rest) == body + RemoveFences(rest)
    decreases |body|
  {
    if |body| == 0 {
      assert body + rest == rest;
    } else {
      HeadKept(body, rest);
      KeptBeforeFence(body[1..], rest);
      assert [body[0]] + (body[1..] + RemoveFences(rest)) == body + RemoveFences(rest);
    }
  }

  /** `KeepsHead` for a head taken from the first part of a concatenation. */
  lemma HeadKept(body: string, rest: string)
    requires |body| > 0 && body[0] != '`'
    ensures RemoveFences(body + rest) == [body[0]] + RemoveFences(body[1..] + rest)
  {
    KeepsHead(body + rest);
    assert (body + rest)[1..] == body[1..] + rest;
  }

  /** Trimming a newline off each end of clean text. */
  lemma TrimAround(body: string)
    requires |body| > 0 ==> !IsWhitespace(body[0]) && !IsWhitespace(body[|body| - 1])
    ensures Trim("\n" + body + "\n") == body
  {
    var s := "\n" + body + "\n";
    assert IsWhitespace(s[0]) && IsWhitespace(s[|s| - 1]);
    if |body| > 0 {
      assert s[1] == body[0] && s[|s| - 2] == body[|body| - 1];
      assert SkipWhitespace(s, 1) == 1;
      assert DropTrailing(s, 1, |s| - 1) == |s| - 1;
    }
    assert s[1..|s| - 1] == body;
  }
}
