/**
 The `*` wildcard matcher of the guards.  The matcher commits to the leftmost
 occurrence of every middle part; the theorem is that this never misses a match.
 */
module Glob {
  import opened Wrappers

  /** The language of a pattern: `*` is any run of characters, everything else is literal. */
  ghost predicate Matches(pattern: string, text: string)
    decreases |pattern|
  {
    if pattern == "" then text == ""
    else if pattern[0] == '*' then
      exists k :: 0 <= k <= |text| && Matches(pattern[1..], text[k..])
    else
      text != "" && text[0] == pattern[0] && Matches(pattern[1..], text[1..])
  }

  /** `str::split('*')`: the literal parts between the stars. */
  function Split(pattern: string): (parts: seq<string>)
    ensures parts != []
  {
    if pattern == "" then [""]
    else
      var rest := Split(pattern[1..]);
      if pattern[0] == '*' then [""] + rest else [[pattern[0]] + rest[0]] + rest[1..]
  }

  /** `str::find`: the leftmost position of `part` in `text`. */
  function Find(text: string, part: string): (pos: Option<nat>)
    ensures pos.Some? ==> pos.value + |part| <= |text| && text[pos.value..pos.value + |part|] == part
  {
    if part <= text then Some(0)
    else if text == "" then None
    else
      var tail := Find(text[1..], part);
      if tail.Some? then Some(tail.value + 1) else None
  }

  predicate OccursAt(part: string, text: string, k: nat) {
    k + |part| <= |text| && text[k..k + |part|] == part
  }

  /** No occurrence comes before the one that is found. */
  lemma {:induction false} FindIsLeftmost(text: string, part: string, k: nat)
    requires OccursAt(part, text, k)
    ensures Find(text, part).Some? && Find(text, part).value <= k
  {
    if !(part <= text) {
      assert text[1..][k - 1..k - 1 + |part|] == text[k..k + |part|];
      FindIsLeftmost(text[1..], part, k - 1);
    }
  }

  predicate EndsWith(text: string, part: string) {
    |part| <= |text| && text[|text| - |part|..] == part
  }

  /** `text` is the first part followed by the other parts with arbitrary gaps between them. */
  ghost predicate Anchored(parts: seq<string>, text: string)
    requires parts != []
    decreases |parts|, 0
  {
    parts[0] <= text &&
    if |parts| == 1 then text == parts[0] else Floating(parts[1..], text[|parts[0]|..])
  }

  /** `text` is a gap followed by an anchored match. */
  ghost predicate Floating(parts: seq<string>, text: string)
    requires parts != []
    decreases |parts|, 1
  {
    exists k :: 0 <= k <= |text| && Anchored(parts, text[k..])
  }

  lemma {:induction false} MatchesIsAnchored(pattern: string, text: string)
    ensures Matches(pattern, text) <==> Anchored(Split(pattern), text)
    decreases |pattern|
  {
    if pattern != "" {
      var rest := Split(pattern[1..]);
      var parts := Split(pattern);
      if pattern[0] == '*' {
        assert parts[1..] == rest && text[0..] == text;
        forall k | 0 <= k <= |text|
          ensures Matches(pattern[1..], text[k..]) <==> Anchored(rest, text[k..])
        {
          MatchesIsAnchored(pattern[1..], text[k..]);
        }
      } else if text != "" {
        MatchesIsAnchored(pattern[1..], text[1..]);
        assert parts[1..] == rest[1..];
        assert parts[0] <= text <==> text[0] == pattern[0] && rest[0] <= text[1..] by {
          assert parts[0][1..] == rest[0];
          if text[0] == pattern[0] && rest[0] <= text[1..] {
            assert text == [text[0]] + text[1..];
          }
        }
        if parts[0] <= text {
          assert text[|parts[0]|..] == text[1..][|rest[0]|..];
          assert text == parts[0] <==> text[1..] == rest[0];
        }
      }
    }
  }

  lemma FloatingEarlier(parts: seq<string>, text: string, j: nat)
    requires parts != [] && j <= |text|
    requires Floating(parts, text[j..])
    ensures Floating(parts, text)
  {
  }

  /** An anchored match of several parts at `k`. */
  lemma AnchoredAt(parts: seq<string>, text: string, k: nat)
    requires |parts| >= 2 && k <= |text|
    ensures Anchored(parts, text[k..]) <==> OccursAt(parts[0], text, k) && Floating(parts[1..], text[k + |parts[0]|..])
  {
  }

  lemma FloatingSplits(parts: seq<string>, text: string) returns (k: nat)
    requires |parts| >= 2 && Floating(parts, text)
    ensures OccursAt(parts[0], text, k) && Floating(parts[1..], text[k + |parts[0]|..])
  {
    k :| 0 <= k <= |text| && Anchored(parts, text[k..]);
    AnchoredAt(parts, text, k);
  }

  lemma FloatingJoins(parts: seq<string>, text: string, k: nat)
    requires |parts| >= 2 && OccursAt(parts[0], text, k) && Floating(parts[1..], text[k + |parts[0]|..])
    ensures Floating(parts, text)
  {
    AnchoredAt(parts, text, k);
  }

  lemma FloatingFurther(rest: seq<string>, text: string, i: nat, j: nat)
    requires rest != [] && i <= j <= |text| && Floating(rest, text[j..])
    ensures Floating(rest, text[i..])
  {
    assert text[i..][j - i..] == text[j..];
    FloatingEarlier(rest, text[i..], j - i);
  }

  /** Committing to the leftmost occurrence of a part that is not the last one loses no match. */
  lemma LeftmostIsEnough(parts: seq<string>, text: string)
    requires |parts| >= 2
    ensures Floating(parts, text) <==>
            Find(text, parts[0]).Some? &&
            Floating(parts[1..], text[Find(text, parts[0]).value + |parts[0]|..])
  {
    var part, rest := parts[0], parts[1..];
    if Floating(parts, text) {
      var k := FloatingSplits(parts, text);
      FindIsLeftmost(text, part, k);
      FloatingFurther(rest, text, Find(text, part).value + |part|, k + |part|);
    } else if Find(text, part).Some? && Floating(rest, text[Find(text, part).value + |part|..]) {
      FloatingJoins(parts, text, Find(text, part).value);
    }
  }

  lemma LastPartIsSuffix(part: string, text: string)
    ensures Floating([part], text) <==> EndsWith(text, part)
  {
  }

  lemma EmptyMiddlePart(parts: seq<string>, text: string)
    requires |parts| >= 2 && parts[0] == ""
    ensures Floating(parts, text) <==> Floating(parts[1..], text)
  {
    LeftmostIsEnough(parts, text);
    assert Find(text, "") == Some(0) && text[0..] == text;
  }

  /** What is left to establish before part `i` is examined, with `idx` characters consumed. */
  ghost predicate Remaining(parts: seq<string>, i: nat, text: string, idx: nat)
    requires parts != [] && i <= |parts| && idx <= |text|
  {
    if i == 0 then Anchored(parts, text)
    else i == |parts| || Floating(parts[i..], text[idx..])
  }

  lemma SkipEmptyPart(parts: seq<string>, i: nat, text: string, idx: nat)
    requires i < |parts| && |parts| >= 2 && idx <= |text| && parts[i] == ""
    requires i == 0 ==> idx == 0
    ensures Remaining(parts, i, text, idx) <==> Remaining(parts, i + 1, text, idx)
  {
    if i == 0 {
      assert text[0..] == text;
    } else if i == |parts| - 1 {
      assert parts[i..] == [parts[i]];
      LastPartIsSuffix(parts[i], text[idx..]);
    } else {
      EmptyMiddlePart(parts[i..], text[idx..]);
      assert parts[i..][1..] == parts[i + 1..];
    }
  }

  lemma MiddlePart(parts: seq<string>, i: nat, text: string, idx: nat)
    requires 0 < i < |parts| - 1 && idx <= |text|
    ensures var pos := Find(text[idx..], parts[i]);
            Remaining(parts, i, text, idx) <==>
            pos.Some? && Remaining(parts, i + 1, text, idx + pos.value + |parts[i]|)
  {
    LeftmostIsEnough(parts[i..], text[idx..]);
    assert parts[i..][1..] == parts[i + 1..];
    var pos := Find(text[idx..], parts[i]);
    if pos.Some? {
      assert text[idx..][pos.value + |parts[i]|..] == text[idx + pos.value + |parts[i]|..];
    }
  }

  /** `glob_match`: true exactly on the texts in the language of the pattern. */
  method GlobMatch(pattern: string, text: string) returns (matched: bool)
    ensures matched <==> Matches(pattern, text)
  {
    if pattern == "*" {
      assert Matches(pattern[1..], text[|text|..]);
      return true;
    }
    var parts := Split(pattern);
    MatchesIsAnchored(pattern, text);
    if |parts| == 1 {
      SplitSingle(pattern);
      return pattern == text;
    }
    var idx: nat := 0;
    for i := 0 to |parts|
      invariant idx <= |text|
      invariant i == 0 ==> idx == 0
      invariant Matches(pattern, text) <==> Remaining(parts, i, text, idx)
    {
      var part := parts[i];
      if part == "" {
        SkipEmptyPart(parts, i, text, idx);
        continue;
      }
      if i == 0 {
        if !(part <= text) {
          return false;
        }
        idx := |part|;
      } else if i == |parts| - 1 {
        assert parts[i..] == [part];
        LastPartIsSuffix(part, text[idx..]);
        if !EndsWith(text[idx..], part) {
          return false;
        }
      } else {
        MiddlePart(parts, i, text, idx);
        var pos := Find(text[idx..], part);
        if pos.None? {
          return false;
        }
        idx := idx + pos.value + |part|;
      }
    }
    return true;
  }

  lemma {:induction false} SplitSingle(pattern: string)
    requires |Split(pattern)| == 1
    ensures Split(pattern) == [pattern]
  {
    if pattern != "" {
      var rest := Split(pattern[1..]);
      assert |rest| == 1 && pattern[0] != '*';
      SplitSingle(pattern[1..]);
      assert pattern == [pattern[0]] + pattern[1..];
    }
  }
}
