/**
 * The parts of java.lang.String that the modelled code relies on: `indexOf`, `lastIndexOf`,
 * `substring` (which throws on bad indices), `contains`, `startsWith`, `trim` and `toLowerCase`.
 */
module JavaString {
  import opened Wrappers

  /** The exceptions the modelled string code can raise. */
  datatype JavaError =
    | IllegalArgument(message: string)   // java.lang.IllegalArgumentException
    | IndexOutOfBounds                   // java.lang.StringIndexOutOfBoundsException

  /** `p` occurs in `s` starting at index `i`. */
  predicate OccursAt(s: string, p: string, i: int) {
    0 <= i && i + |p| <= |s| && s[i..i + |p|] == p
  }

  /** `s.contains(p)` */
  predicate Contains(s: string, p: string) {
    exists i | 0 <= i <= |s| :: OccursAt(s, p, i)
  }

  /** `s.startsWith(p)` */
  predicate StartsWith(s: string, p: string) {
    |p| <= |s| && s[..|p|] == p
  }

  /** `s.indexOf(p, from)`: the first occurrence of `p` at or after `from`, or -1. */
  function IndexOfFrom(s: string, p: string, from: int): (r: int)
    requires |p| > 0
    ensures r == -1 || (from <= r && OccursAt(s, p, r))
    ensures forall j :: from <= j && (r == -1 || j < r) ==> !OccursAt(s, p, j)
    decreases if from < 0 then |s| + 1 else |s| - from
  {
    if from < 0 then IndexOfFrom(s, p, 0)
    else if from + |p| > |s| then -1
    else if s[from..from + |p|] == p then from
    else IndexOfFrom(s, p, from + 1)
  }

  /** `s.indexOf(p)` */
  function IndexOf(s: string, p: string): (r: int)
    requires |p| > 0
    ensures r == -1 <==> !Contains(s, p)
    ensures r >= 0 ==> OccursAt(s, p, r) && forall j :: 0 <= j < r ==> !OccursAt(s, p, j)
  {
    IndexOfFrom(s, p, 0)
  }

  /** `s.lastIndexOf(c, from)`: the last occurrence of `c` at or before `from`, or -1. */
  function LastIndexOfFrom(s: string, c: char, from: int): (r: int)
    ensures -1 <= r < |s| && (r == -1 || r <= from)
    ensures r >= 0 ==> s[r] == c
    ensures forall j :: r < j <= from && j < |s| ==> s[j] != c
    decreases if from < 0 then 0 else from + 1
  {
    if from < 0 then -1
    else if from >= |s| then LastIndexOfFrom(s, c, |s| - 1)
    else if s[from] == c then from
    else LastIndexOfFrom(s, c, from - 1)
  }

  /** `s.lastIndexOf(c)` */
  function LastIndexOf(s: string, c: char): (r: int)
    ensures -1 <= r < |s|
    ensures r == -1 <==> c !in s
    ensures r >= 0 ==> s[r] == c
    ensures forall j :: r < j < |s| ==> s[j] != c
  {
    LastIndexOfFrom(s, c, |s| - 1)
  }

  /** `s.substring(begin, end)`, which throws unless `0 <= begin <= end <= s.length()`. */
  function Substring(s: string, begin: int, end: int): (r: Result<string, JavaError>)
    ensures r.Success? <==> 0 <= begin <= end <= |s|
    ensures r.Success? ==> r.value == s[begin..end]
    ensures r.Failure? ==> r.error == IndexOutOfBounds
  {
    if 0 <= begin <= end <= |s| then Success(s[begin..end]) else Failure(IndexOutOfBounds)
  }

  /**
   * `s.substring(start, s.indexOf(c, start))`: the segment from `start` up to the next `c`.
   * It throws when no `c` follows `start` (indexOf yields -1) or `start` is negative.
   */
  function SubstringToNext(s: string, start: int, c: char): (r: Result<string, JavaError>)
    ensures r.Success? <==> 0 <= start <= |s| && c in s[start..]
    ensures r.Success? ==> start + |r.value| < |s| && s[start..start + |r.value|] == r.value
    ensures r.Success? ==> s[start + |r.value|] == c && c !in r.value
    ensures r.Failure? ==> r.error == IndexOutOfBounds
  {
    var end := IndexOfFrom(s, [c], start);
    assert forall j :: start <= j && (end == -1 || j < end) && 0 <= j < |s| ==> s[j] != c by {
      forall j | start <= j && (end == -1 || j < end) && 0 <= j < |s| ensures s[j] != c {
        assert !OccursAt(s, [c], j);
        assert s[j..j + 1] == [s[j]];
      }
    }
    assert end >= 0 ==> s[end] == c by {
      if end >= 0 {
        assert s[end..end + 1] == [c];
      }
    }
    assert 0 <= start <= |s| && c in s[start..] ==> end >= 0 by {
      if 0 <= start <= |s| && c in s[start..] {
        var k :| 0 <= k < |s[start..]| && s[start..][k] == c;
        assert s[start + k] == c;
      }
    }
    Substring(s, start, end)
  }

  /** The characters `String.trim` strips: every code point up to U+0020. */
  predicate IsTrimmable(c: char) {
    c <= ' '
  }

  /** `s.trim().isEmpty()` */
  predicate IsBlank(s: string) {
    forall k :: 0 <= k < |s| ==> IsTrimmable(s[k])
  }

  function TrimStart(s: string): (r: string)
    ensures |r| <= |s| && r == s[|s| - |r|..]
    ensures r == [] || !IsTrimmable(r[0])
  {
    if |s| > 0 && IsTrimmable(s[0]) then TrimStart(s[1..]) else s
  }

  function TrimEnd(s: string): (r: string)
    ensures |r| <= |s| && r == s[..|r|]
    ensures r == [] || !IsTrimmable(r[|r| - 1])
  {
    if |s| > 0 && IsTrimmable(s[|s| - 1]) then TrimEnd(s[..|s| - 1]) else s
  }

  /** `s.trim()`: no trimmable character at either end of the result. */
  function Trim(s: string): (r: string)
    ensures r == [] || (!IsTrimmable(r[0]) && !IsTrimmable(r[|r| - 1]))
  {
    TrimEnd(TrimStart(s))
  }

  /** `String.valueOf(n)` for a non-negative `n`: its decimal digits. */
  function DecimalString(n: nat): (r: string)
    ensures |r| >= 1 && forall k :: 0 <= k < |r| ==> '0' <= r[k] <= '9'
  {
    var digit := ('0' as int + n % 10) as char;
    if n < 10 then [digit] else DecimalString(n / 10) + [digit]
  }

  /** Lower-casing of one character, restricted to ASCII letters. */
  function LowerChar(c: char): (r: char)
    ensures 'A' <= c <= 'Z' ==> 'a' <= r <= 'z'
    ensures !('A' <= c <= 'Z') ==> r == c
  {
    if 'A' <= c <= 'Z' then (c as int + 32) as char else c
  }

  /** `s.toLowerCase()` on ASCII letters; every other character is kept. */
  function ToLower(s: string): (r: string)
    ensures |r| == |s|
    ensures forall k :: 0 <= k < |s| ==> r[k] == LowerChar(s[k])
  {
    if s == [] then [] else [LowerChar(s[0])] + ToLower(s[1..])
  }

  /** No upper-case ASCII letter in `s`. */
  predicate IsLowerCase(s: string) {
    forall k :: 0 <= k < |s| ==> !('A' <= s[k] <= 'Z')
  }

  /** Equality of two strings of the same length, ignoring ASCII case. */
  predicate EqualsIgnoreCase(s: string, t: string) {
    |s| == |t| && forall k :: 0 <= k < |s| ==> LowerChar(s[k]) == LowerChar(t[k])
  }

  /** `s` starts with `p`, ignoring ASCII case. */
  predicate StartsWithIgnoreCase(s: string, p: string) {
    |p| <= |s| && EqualsIgnoreCase(s[..|p|], p)
  }

  /** Ignoring ASCII case, `p` occurs in `s` at index `i`. */
  predicate OccursAtIgnoreCase(s: string, p: string, i: int) {
    0 <= i && i + |p| <= |s| && EqualsIgnoreCase(s[i..i + |p|], p)
  }

  lemma {:induction false} StartsWithContains(s: string, p: string)
    requires StartsWith(s, p)
    ensures Contains(s, p)
  {
    assert OccursAt(s, p, 0);
  }

  /** An exact occurrence is also an occurrence that ignores case. */
  lemma OccursAtIgnoresCase(s: string, p: string, i: int)
    requires OccursAt(s, p, i)
    ensures OccursAtIgnoreCase(s, p, i)
  {
  }

  /** Applying `trim` and then `toLowerCase` a second time changes nothing. */
  lemma {:induction false} NormalizeIdempotent(s: string)
    ensures ToLower(Trim(ToLower(Trim(s)))) == ToLower(Trim(s))
  {
    var u := Trim(s);
    var t := ToLower(u);
    if t != [] {
      LowerKeepsTrimmable(u[0]);
      LowerKeepsTrimmable(u[|u| - 1]);
    }
    TrimOfTrimmed(t);
    LowerIdempotent(u);
  }

  lemma LowerKeepsTrimmable(c: char)
    ensures IsTrimmable(LowerChar(c)) == IsTrimmable(c)
  {
  }

  lemma {:induction false} TrimOfTrimmed(t: string)
    requires t == [] || (!IsTrimmable(t[0]) && !IsTrimmable(t[|t| - 1]))
    ensures Trim(t) == t
  {
    assert TrimStart(t) == t;
    assert TrimEnd(t) == t;
  }

  lemma {:induction false} LowerIdempotent(t: string)
    ensures ToLower(ToLower(t)) == ToLower(t)
  {
    var u := ToLower(t);
    var v := ToLower(u);
    assert |v| == |u|;
    forall k | 0 <= k < |u| ensures v[k] == u[k] {
      assert u[k] == LowerChar(t[k]);
    }
  }
}
