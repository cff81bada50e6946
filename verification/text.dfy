/** String operations the question handler relies on: Python's `str.strip()`
    with no argument, `sep.join(parts)`, and `str.split(sep)` for a single
    character separator (the last one only as the inverse of `join`). */
module Text {

  /** Python's `str.isspace()` for one character: the control characters
      U+0009 to U+000D and U+001C to U+001F, the space, U+0085, U+00A0 and the
      Unicode space and line/paragraph separators. */
  predicate IsSpace(c: char) {
    var n := c as int;
    (0x09 <= n <= 0x0D) || (0x1C <= n <= 0x20) || n == 0x85 || n == 0xA0 ||
    n == 0x1680 || (0x2000 <= n <= 0x200A) || n == 0x2028 || n == 0x2029 ||
    n == 0x202F || n == 0x205F || n == 0x3000
  }

  predicate AllSpace(s: string) {
    forall i :: 0 <= i < |s| ==> IsSpace(s[i])
  }

  /** `r` is what is left of `s` once the whitespace-only prefix `s[..a]`
      and suffix `s[a + |r|..]` are removed, and neither end of `r` is
      whitespace. */
  predicate StripsAt(s: string, a: int, r: string) {
    0 <= a && a + |r| <= |s| && s[a..a + |r|] == r &&
    AllSpace(s[..a]) && AllSpace(s[a + |r|..]) &&
    (|r| > 0 ==> !IsSpace(r[0]) && !IsSpace(r[|r| - 1]))
  }

  /** The independent description of `s.strip()`. */
  ghost predicate IsStripOf(s: string, r: string) {
    exists a :: StripsAt(s, a, r)
  }

  /** `s.lstrip()`. */
  function StripLeft(s: string): string
    decreases |s|
  {
    if |s| > 0 && IsSpace(s[0]) then StripLeft(s[1..]) else s
  }

  /** `lstrip` drops the leading whitespace and nothing else. */
  lemma {:induction false} StripLeftFacts(s: string)
    ensures var r := StripLeft(s);
      |r| <= |s| && r == s[|s| - |r|..] && AllSpace(s[..|s| - |r|]) &&
      (|r| > 0 ==> !IsSpace(r[0]))
    decreases |s|
  {
    if |s| > 0 && IsSpace(s[0]) {
      StripLeftFacts(s[1..]);
      var r := StripLeft(s);
      assert s[1..][|s| - 1 - |r|..] == s[|s| - |r|..];
      assert s[..|s| - |r|] == [s[0]] + s[1..][..|s| - 1 - |r|];
    }
  }

  /** `s.rstrip()`. */
  function StripRight(s: string): string
    decreases |s|
  {
    if |s| > 0 && IsSpace(s[|s| - 1]) then StripRight(s[..|s| - 1]) else s
  }

  /** `rstrip` drops the trailing whitespace and nothing else. */
  lemma {:induction false} StripRightFacts(s: string)
    ensures var r := StripRight(s);
      |r| <= |s| && r == s[..|r|] && AllSpace(s[|r|..]) &&
      (|r| > 0 ==> !IsSpace(r[|r| - 1]))
    decreases |s|
  {
    if |s| > 0 && IsSpace(s[|s| - 1]) {
      var t := s[..|s| - 1];
      StripRightFacts(t);
      var r := StripRight(s);
      assert t[..|r|] == s[..|r|];
      forall i | 0 <= i < |s| - |r|
        ensures IsSpace(s[|r|..][i])
      {
        if i < |s| - 1 - |r| {
          assert s[|r|..][i] == t[|r|..][i];
        }
      }
    }
  }

  /** `s.strip()`. */
  function Strip(s: string): string {
    StripRight(StripLeft(s))
  }

  /** `strip` meets its description. */
  lemma StripMeetsDescription(s: string)
    ensures IsStripOf(s, Strip(s))
  {
    StripLeftFacts(s);
    var l := StripLeft(s);
    StripRightFacts(l);
    var r := StripRight(l);
    var a := |s| - |l|;
    assert s[a..a + |r|] == r;
    assert s[a + |r|..] == l[|r|..];
    assert |r| > 0 ==> r[0] == l[0];
    assert StripsAt(s, a, r);
  }

  /** Whitespace on both sides of `s` means every character of `s` is. */
  lemma AllSpaceSplit(s: string, a: int)
    requires 0 <= a <= |s|
    requires AllSpace(s[..a]) && AllSpace(s[a..])
    ensures AllSpace(s)
  {
    forall i | 0 <= i < |s|
      ensures IsSpace(s[i])
    {
      if i < a {
        assert s[i] == s[..a][i];
      } else {
        assert s[i] == s[a..][i - a];
      }
    }
  }

  /** The description of `strip` admits one result only. */
  lemma StripUnique(s: string, r1: string, r2: string)
    requires IsStripOf(s, r1) && IsStripOf(s, r2)
    ensures r1 == r2
  {
    var a1 :| StripsAt(s, a1, r1);
    var a2 :| StripsAt(s, a2, r2);
    if |r1| == 0 {
      AllSpaceSplit(s, a1);
    } else if |r2| == 0 {
      AllSpaceSplit(s, a2);
    }
  }

  /** Stripping twice is stripping once. */
  lemma StripIdempotent(s: string)
    ensures Strip(Strip(s)) == Strip(s)
  {
    StripMeetsDescription(s);
    var r := Strip(s);
    StripMeetsDescription(r);
    assert r[..0] == "" && r[0 + |r|..] == "" && r[0..0 + |r|] == r;
    assert StripsAt(r, 0, r);
    StripUnique(r, Strip(r), r);
  }

  /** A string with no whitespace at either end is its own strip. */
  lemma StripTrimmed(s: string)
    requires |s| > 0 ==> !IsSpace(s[0]) && !IsSpace(s[|s| - 1])
    ensures Strip(s) == s
  {
    assert s[..0] == "" && s[0 + |s|..] == "" && s[0..0 + |s|] == s;
    assert StripsAt(s, 0, s);
    StripMeetsDescription(s);
    StripUnique(s, Strip(s), s);
  }

  /** Sum of the lengths of the parts. */
  function TotalLength(xs: seq<string>): nat
    decreases |xs|
  {
    if |xs| == 0 then 0 else |xs[0]| + TotalLength(xs[1..])
  }

  /** `sep.join(xs)`. Nothing is dropped or shortened: the result is exactly
      as long as the parts plus one separator between each neighbouring pair. */
  function Join(xs: seq<string>, sep: string): (r: string)
    ensures |xs| == 0 ==> r == ""
    ensures |xs| > 0 ==> |r| == TotalLength(xs) + (|xs| - 1) * |sep|
    decreases |xs|
  {
    if |xs| == 0 then ""
    else if |xs| == 1 then xs[0]
    else xs[0] + sep + Join(xs[1..], sep)
  }

  /** `t` occurs in `s` as a contiguous substring. */
  ghost predicate Contains(s: string, t: string) {
    exists k :: OccursAt(s, k, t)
  }

  /** `t` occurs in `s` starting at position `k`. */
  predicate OccursAt(s: string, k: int, t: string) {
    0 <= k && k + |t| <= |s| && s[k..k + |t|] == t
  }

  /** Every part occurs verbatim in the joined string. */
  lemma {:induction false} JoinContainsPart(xs: seq<string>, sep: string, i: int)
    requires 0 <= i < |xs|
    ensures Contains(Join(xs, sep), xs[i])
    decreases |xs|
  {
    var s := Join(xs, sep);
    if i == 0 {
      assert OccursAt(s, 0, xs[0]);
    } else {
      var tail := Join(xs[1..], sep);
      JoinContainsPart(xs[1..], sep, i - 1);
      var k :| OccursAt(tail, k, xs[i]);
      var off := |xs[0]| + |sep|;
      assert s == xs[0] + sep + tail;
      assert s[off + k..off + k + |xs[i]|] == tail[k..k + |xs[i]|];
      assert OccursAt(s, off + k, xs[i]);
    }
  }

  /** A substring of a substring is a substring. */
  lemma ContainsTransitive(s: string, t: string, u: string)
    requires Contains(s, t) && Contains(t, u)
    ensures Contains(s, u)
  {
    var k :| OccursAt(s, k, t);
    var j :| OccursAt(t, j, u);
    var w := s[k + j..k + j + |u|];
    forall x | 0 <= x < |u|
      ensures w[x] == u[x]
    {
      assert w[x] == s[k + j + x] == s[k..k + |t|][j + x] == t[j + x];
      assert u[x] == t[j..j + |u|][x];
    }
    assert w == u;
    assert OccursAt(s, k + j, u);
  }

  /** Position of the first `c` in `s`. */
  function IndexOf(s: string, c: char): (i: nat)
    requires c in s
    ensures i < |s| && s[i] == c && c !in s[..i]
    decreases |s|
  {
    if s[0] == c then 0
    else
      var j := IndexOf(s[1..], c);
      assert s[..j + 1] == [s[0]] + s[1..][..j];
      j + 1
  }

  /** `s.split(c)` for a one-character separator: always at least one part,
      and no part contains the separator. */
  function Split(s: string, c: char): (parts: seq<string>)
    ensures |parts| > 0
    ensures forall k :: 0 <= k < |parts| ==> c !in parts[k]
    decreases |s|
  {
    if c !in s then [s]
    else
      var i := IndexOf(s, c);
      [s[..i]] + Split(s[i + 1..], c)
  }

  /** Joining the parts of a split rebuilds the original string. */
  lemma {:induction false} JoinSplit(s: string, c: char)
    ensures Join(Split(s, c), [c]) == s
    decreases |s|
  {
    if c in s {
      var i := IndexOf(s, c);
      var rest := Split(s[i + 1..], c);
      JoinSplit(s[i + 1..], c);
      var parts := [s[..i]] + rest;
      assert Split(s, c) == parts;
      assert |parts| > 1 && parts[0] == s[..i] && parts[1..] == rest;
      assert Join(parts, [c]) == s[..i] + [c] + Join(rest, [c]);
      assert s == s[..i] + [c] + s[i + 1..];
    }
  }

  /** Splitting a join of separator-free parts recovers the parts, in order
      and with repetitions kept. The empty list is the one exception: it joins
      to "" which splits to [""]. */
  lemma {:induction false} SplitJoin(xs: seq<string>, c: char)
    requires |xs| > 0
    requires forall k :: 0 <= k < |xs| ==> c !in xs[k]
    ensures Split(Join(xs, [c]), c) == xs
    decreases |xs|
  {
    if |xs| > 1 {
      var tail := Join(xs[1..], [c]);
      var s := Join(xs, [c]);
      assert s == xs[0] + [c] + tail;
      assert s[|xs[0]|] == c;
      assert s[..|xs[0]|] == xs[0];
      assert c in s;
      var i := IndexOf(s, c);
      assert i == |xs[0]|;
      assert s[i + 1..] == tail;
      SplitJoin(xs[1..], c);
      assert Split(s, c) == [xs[0]] + xs[1..];
    }
  }
}
