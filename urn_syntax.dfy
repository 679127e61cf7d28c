/**
 * The URN syntax of RFC 2141 as used by the MRN patterns: the namespace identifier of section 2.1,
 * the namespace-specific string of section 2.2 (letters, digits, the "other" characters and `%hh`
 * escapes) and the reserved characters of section 2.3. Every pattern of `MrnUtil` and `MrnUtils`
 * is compiled with CASE_INSENSITIVE, so letters and literal text match regardless of ASCII case.
 */
module UrnSyntax {
  import opened JavaString

  predicate IsLetter(c: char) { 'a' <= c <= 'z' || 'A' <= c <= 'Z' }

  predicate IsDigit(c: char) { '0' <= c <= '9' }

  predicate IsAlnum(c: char) { IsLetter(c) || IsDigit(c) }

  /** `[0-9a-f]` under CASE_INSENSITIVE */
  predicate IsHex(c: char) { IsDigit(c) || 'a' <= c <= 'f' || 'A' <= c <= 'F' }

  /** The "other" characters of RFC 2141 section 2.2. */
  const OtherChars: string := "()+,-.:=@;$_!*'"

  /** The reserved characters of RFC 2141 section 2.3. */
  const ReservedChars: string := "%/?#"

  /** One character of the class `[a-z0-9()+,\-.:=@;$_!*']`. */
  predicate IsNssChar(c: char) { IsAlnum(c) || c in OtherChars }

  /** `s` is a (possibly empty) run of NSS characters and `%hh` escapes. */
  predicate NssTokens(s: string)
    decreases |s|
  {
    if s == [] then true
    else if s[0] == '%' then |s| >= 3 && IsHex(s[1]) && IsHex(s[2]) && NssTokens(s[3..])
    else IsNssChar(s[0]) && NssTokens(s[1..])
  }

  /** `([a-z0-9()+,\-.:=@;$_!*']|%[0-9a-f]{2})+` */
  predicate IsNss(s: string) { |s| > 0 && NssTokens(s) }

  /** `[a-z0-9][a-z0-9-]{0,31}`: the namespace identifier of RFC 2141 section 2.1. */
  predicate IsNid(n: string) {
    1 <= |n| <= 32 && IsAlnum(n[0]) && forall k :: 1 <= k < |n| ==> IsAlnum(n[k]) || n[k] == '-'
  }

  /** `<NID>:<NSS>` */
  predicate NidThenNss(t: string) {
    exists j | 0 < j < |t| :: IsNid(t[..j]) && t[j] == ':' && IsNss(t[j + 1..])
  }

  const MrnPrefix: string := "urn:mrn:"

  /** `^urn:[a-z0-9][a-z0-9-]{0,31}:(...)+$`, the general URN pattern. */
  predicate MatchesUrnPattern(s: string) {
    StartsWithIgnoreCase(s, "urn:") && NidThenNss(s[4..])
  }

  /** `^urn:mrn:[a-z0-9][a-z0-9-]{0,31}:(...)+$`, the older MRN pattern: an NID after `urn:mrn:`. */
  predicate MatchesLegacyMrnPattern(s: string) {
    StartsWithIgnoreCase(s, MrnPrefix) && NidThenNss(s[8..])
  }

  /** `^urn:mrn:(...)+$`, the base MRN pattern. */
  predicate MatchesMrnPattern(s: string) {
    StartsWithIgnoreCase(s, MrnPrefix) && IsNss(s[8..])
  }

  /**
   * `^urn:mrn:(...)+?<marker>(...)+$`: a non-empty NSS, the marker (ignoring case) and another
   * non-empty NSS.
   */
  predicate MatchesTypedPattern(s: string, marker: string) {
    StartsWithIgnoreCase(s, MrnPrefix) &&
    exists i | 8 < i <= |s| :: IsNss(s[8..i]) && OccursAtIgnoreCase(s, marker, i) && IsNss(s[i + |marker|..])
  }

  /** The character class that entity ids are cleaned of: RFC 2141 "other" plus reserved characters. */
  const SanitizedChars: string := "()+,-.:=@;$_!*'%/?#"

  /** `id.replaceAll("[()+,-.:=@;$_!*'%/??#]", "_")`: each such character becomes `_`. */
  function Sanitize(id: string): (r: string)
    ensures |r| == |id|
    ensures forall k :: 0 <= k < |id| ==> if id[k] in SanitizedChars then r[k] == '_' else r[k] == id[k]
  {
    if id == [] then [] else [if id[0] in SanitizedChars then '_' else id[0]] + Sanitize(id[1..])
  }

  /** A sanitised id holds no `:` and no `%`, and sanitising it again changes nothing. */
  lemma SanitizeProperties(id: string)
    ensures ':' !in Sanitize(id) && '%' !in Sanitize(id)
    ensures Sanitize(Sanitize(id)) == Sanitize(id)
  {
    var r := Sanitize(id);
    forall k | 0 <= k < |r| ensures r[k] != ':' && r[k] != '%' {
    }
  }

  /** Joining two runs of NSS tokens gives a run of NSS tokens. */
  lemma {:induction false} NssTokensConcat(a: string, b: string)
    requires NssTokens(a) && NssTokens(b)
    ensures NssTokens(a + b)
    decreases |a|
  {
    if a == [] {
      assert a + b == b;
    } else if a[0] == '%' {
      assert (a + b)[3..] == a[3..] + b;
      NssTokensConcat(a[3..], b);
    } else {
      assert (a + b)[1..] == a[1..] + b;
      NssTokensConcat(a[1..], b);
    }
  }

  /** A string made only of NSS characters is a run of NSS tokens. */
  lemma {:induction false} NssCharsAreTokens(s: string)
    requires forall k :: 0 <= k < |s| ==> IsNssChar(s[k])
    ensures NssTokens(s)
    decreases |s|
  {
    if s != [] {
      assert s[0] != '%';
      NssCharsAreTokens(s[1..]);
    }
  }

  lemma SanitizedCharIsNssChar(id: string, k: int)
    requires 0 <= k < |id| && (IsAlnum(id[k]) || id[k] in SanitizedChars)
    ensures IsNssChar(Sanitize(id)[k])
  {
    if id[k] in SanitizedChars {
      assert OtherChars[11] == '_';
    }
  }

  /**
   * A sanitised id is a run of NSS tokens exactly when every character of the id is a letter, a
   * digit or a cleaned character: any other character (a space, a non-ASCII letter) survives
   * sanitising and is not an NSS character.
   */
  lemma SanitizedIdIsNss(id: string)
    ensures NssTokens(Sanitize(id)) <==>
      forall k :: 0 <= k < |id| ==> IsAlnum(id[k]) || id[k] in SanitizedChars
  {
    var r := Sanitize(id);
    SanitizeProperties(id);
    TokensWithoutPercent(r);
    if forall k :: 0 <= k < |id| ==> IsAlnum(id[k]) || id[k] in SanitizedChars {
      forall k | 0 <= k < |r| ensures IsNssChar(r[k]) {
        SanitizedCharIsNssChar(id, k);
      }
    }
    forall k | 0 <= k < |id| && IsNssChar(r[k]) ensures IsAlnum(id[k]) || id[k] in SanitizedChars {
      OtherCharIsSanitized(r[k]);
    }
  }

  /** Every RFC 2141 "other" character is one the ids are cleaned of. */
  lemma OtherCharIsSanitized(c: char)
    ensures c in OtherChars ==> c in SanitizedChars
  {
    if c in OtherChars {
      var i :| 0 <= i < |OtherChars| && OtherChars[i] == c;
      assert OtherChars == SanitizedChars[..15];
      assert SanitizedChars[i] == c;
    }
  }

  /** Without `%`, a run of NSS tokens is exactly a string of NSS characters. */
  lemma {:induction false} TokensWithoutPercent(s: string)
    requires '%' !in s
    ensures NssTokens(s) <==> forall k :: 0 <= k < |s| ==> IsNssChar(s[k])
    decreases |s|
  {
    if s != [] {
      assert s[0] != '%';
      assert '%' !in s[1..];
      TokensWithoutPercent(s[1..]);
      assert forall k :: 1 <= k < |s| ==> s[1..][k - 1] == s[k];
    }
  }

  /** Every string matching the MRN pattern matches the general URN pattern (with NID "mrn"). */
  lemma MrnPatternIsUrnPattern(s: string)
    requires MatchesMrnPattern(s)
    ensures MatchesUrnPattern(s)
  {
    var t := s[4..];
    assert EqualsIgnoreCase(s[..8], MrnPrefix);
    assert LowerChar(s[4]) == 'm' && LowerChar(s[5]) == 'r' && LowerChar(s[6]) == 'n';
    assert LowerChar(s[7]) == ':';
    assert t[..3] == s[4..7] && t[3] == s[7] && t[4..] == s[8..];
    assert IsNid(t[..3]);
    assert StartsWithIgnoreCase(s, "urn:") by {
      assert s[..4] == s[..8][..4];
    }
  }

  /**
   * In `a + ":" + t + ":" + b`, with no `:` in `t` and `b`, a marker `":" + x + ":"` (no `:` in `x`)
   * either lies inside `a + ":"` or is exactly the `":" + t + ":"` that was joined in.
   */
  lemma MarkerInJoined(a: string, t: string, b: string, x: string, j: int)
    requires ':' !in t && ':' !in b && ':' !in x
    requires OccursAt(a + ":" + t + ":" + b, ":" + x + ":", j)
    ensures (j + |x| + 2 <= |a| + 1 && OccursAt(a + ":", ":" + x + ":", j)) || (j == |a| && x == t)
  {
    var w := a + ":" + t + ":" + b;
    var g := ":" + x + ":";
    if j + |g| <= |a| + 1 {
      assert w[..|a| + 1] == a + ":";
      assert (a + ":")[j..j + |g|] == w[j..j + |g|];
    } else {
      MarkerAtJoin(a, t, b, x, j);
      MarkerParts(w, x, j);
      assert w == a + ":" + (t + ":" + b);
      SliceAfterHead(a, t + ":" + b, 0, |t|);
      assert (t + ":" + b)[..|t|] == t;
    }
  }

  /** A marker reaching past `a + ":"` in `a + ":" + t + ":" + b` starts at the separator after `a` and spans `t`. */
  lemma MarkerAtJoin(a: string, t: string, b: string, x: string, j: int)
    requires ':' !in t && ':' !in b && ':' !in x
    requires OccursAt(a + ":" + t + ":" + b, ":" + x + ":", j) && j + |x| + 2 > |a| + 1
    ensures j == |a| && |x| == |t|
  {
    var w := a + ":" + t + ":" + b;
    var n := |a|;
    var e := j + |x| + 1;
    MarkerParts(w, x, j);
    assert forall k :: j < k < e ==> w[k] == x[k - j - 1];
    assert forall k :: n < k < n + |t| + 1 ==> w[k] == t[k - n - 1];
    assert forall k :: n + |t| + 1 < k < |w| ==> w[k] == b[k - n - |t| - 2];
    assert e == n + |t| + 1;
    assert w[n] == ':';
    assert !(j < n < e);
    assert !(n < j < e);
  }

  /** The separators and the text of a marker `":" + x + ":"` found at `j`. */
  lemma MarkerParts(w: string, x: string, j: int)
    requires OccursAt(w, ":" + x + ":", j)
    ensures w[j] == ':' && w[j + |x| + 1] == ':' && w[j + 1..j + 1 + |x|] == x
  {
    var g := ":" + x + ":";
    assert w[j..j + |g|] == g;
    assert w[j] == w[j..j + |g|][0] == g[0];
    assert w[j + |x| + 1] == w[j..j + |g|][|x| + 1] == g[|x| + 1];
    forall k | 0 <= k < |x| ensures w[j + 1 + k] == x[k] {
      assert w[j + 1 + k] == w[j..j + |g|][k + 1] == g[k + 1];
    }
  }

  /** A slice of `rest` inside `s0 + ":" + rest`. */
  lemma SliceAfterHead(s0: string, rest: string, lo: int, hi: int)
    requires 0 <= lo <= hi <= |rest|
    ensures (s0 + ":" + rest)[|s0| + 1 + lo..|s0| + 1 + hi] == rest[lo..hi]
  {
    var w := s0 + ":" + rest;
    assert w[|s0| + 1..] == rest;
    assert w[|s0| + 1 + lo..|s0| + 1 + hi] == w[|s0| + 1..][lo..hi];
  }
  /** Every string matching the older MRN pattern matches the base MRN pattern. */
  lemma LegacyPatternIsMrnPattern(s: string)
    requires MatchesLegacyMrnPattern(s)
    ensures MatchesMrnPattern(s)
  {
    var t := s[8..];
    var j :| 0 < j < |t| && IsNid(t[..j]) && t[j] == ':' && IsNss(t[j + 1..]);
    NidColonTokens(t, j);
    NssTokensConcat(t[..j + 1], t[j + 1..]);
    assert t[..j + 1] + t[j + 1..] == t;
  }

  /** An NID followed by `:` is a run of NSS characters. */
  lemma NidColonTokens(t: string, j: int)
    requires 0 < j < |t| && IsNid(t[..j]) && t[j] == ':'
    ensures NssTokens(t[..j + 1])
  {
    var nid := t[..j];
    var head := t[..j + 1];
    forall k | 0 <= k < |head| ensures IsNssChar(head[k]) {
      if k < j {
        assert head[k] == nid[k];
        NidCharIsNssChar(nid[k]);
      } else {
        assert head[k] == ':';
        NidCharIsNssChar(':');
      }
    }
    NssCharsAreTokens(head);
  }

  lemma NidCharIsNssChar(c: char)
    requires IsAlnum(c) || c == '-' || c == ':'
    ensures IsNssChar(c)
  {
    assert OtherChars[4] == '-' && OtherChars[6] == ':';
  }

  /** The segments of an MRN joined with `:`. */
  function JoinSegments(segs: seq<string>): string {
    if |segs| == 0 then "" else if |segs| == 1 then segs[0] else segs[0] + ":" + JoinSegments(segs[1..])
  }

  predicate ColonFree(segs: seq<string>) {
    forall i :: 0 <= i < |segs| ==> ':' !in segs[i]
  }

  /** Joined colon-free segments that start with `x + ":"` (no `:` in `x`) have `x` as first segment. */
  lemma HeadSegment(segs: seq<string>, x: string)
    requires ColonFree(segs) && ':' !in x && |segs| >= 1
    requires |x| + 1 <= |JoinSegments(segs)| && JoinSegments(segs)[..|x| + 1] == x + ":"
    ensures |segs| >= 2 && segs[0] == x
  {
    var w := JoinSegments(segs);
    var s0 := segs[0];
    assert w[|x|] == ':';
    assert forall k :: 0 <= k < |x| ==> w[k] == x[k];
    assert |segs| >= 2;
    assert w == s0 + ":" + JoinSegments(segs[1..]);
    assert forall k :: 0 <= k < |s0| ==> w[k] == s0[k];
    assert w[|s0|] == ':';
    assert |x| == |s0|;
    assert x == w[..|x|] == s0;
  }

  lemma JoinOfPrefix(segs: seq<string>, i: int)
    requires 1 <= i < |segs|
    ensures JoinSegments(segs[..i + 1]) == segs[0] + ":" + JoinSegments(segs[1..][..i])
  {
    assert segs[..i + 1][1..] == segs[1..][..i];
  }

  /** Joining two non-empty runs of segments puts one separator between their joins. */
  lemma {:induction false} JoinAppend(a: seq<string>, b: seq<string>)
    requires |a| >= 1 && |b| >= 1
    ensures JoinSegments(a + b) == JoinSegments(a) + ":" + JoinSegments(b)
    decreases |a|
  {
    if |a| == 1 {
      assert (a + b)[1..] == b;
    } else {
      assert (a + b)[1..] == a[1..] + b;
      JoinAppend(a[1..], b);
    }
  }

  /** Each further segment lengthens the joined prefix by a separator and its own length. */
  lemma {:induction false} JoinPrefixLength(segs: seq<string>, i: int)
    requires 1 <= i < |segs|
    ensures |JoinSegments(segs[..i + 1])| == |JoinSegments(segs[..i])| + 1 + |segs[i]|
    decreases i
  {
    if i == 1 {
      assert segs[..2][1..] == [segs[1]];
      assert segs[..1] == [segs[0]];
    } else {
      JoinOfPrefix(segs, i);
      JoinOfPrefix(segs, i - 1);
      JoinPrefixLength(segs[1..], i - 1);
    }
  }

  /**
   * In colon-joined colon-free segments, a marker `":" + x + ":"` (no `:` in `x`) occurs only where
   * an inner segment equals `x`, at the separator before that segment.
   */
  lemma {:induction false} MarkerInSegments(segs: seq<string>, x: string, j: int)
    requires ColonFree(segs) && ':' !in x
    requires OccursAt(JoinSegments(segs), ":" + x + ":", j)
    ensures exists i :: 0 < i < |segs| - 1 && segs[i] == x && j == |JoinSegments(segs[..i])|
    decreases |segs|
  {
    ColonInJoin(segs, x, j);
    var s0 := segs[0];
    var rest := JoinSegments(segs[1..]);
    JoinHead(segs);
    ColonAfterHead(s0, rest, x, j);
    MarkerAfterHead(s0, rest, x, j);
    assert ColonFree(segs[1..]);
    if j == |s0| {
      HeadSegment(segs[1..], x);
      assert segs[..1] == [s0];
    } else {
      var j' := j - |s0| - 1;
      MarkerInSegments(segs[1..], x, j');
      var i' :| 0 < i' < |segs| - 2 && segs[1..][i'] == x && j' == |JoinSegments(segs[1..][..i'])|;
      JoinOfPrefix(segs, i');
    }
  }

  /** A marker that names no inner segment does not occur in the joined segments. */
  lemma AbsentMarker(segs: seq<string>, y: string, j: int)
    requires ColonFree(segs) && ':' !in y
    requires forall k :: 0 < k < |segs| - 1 ==> segs[k] != y
    ensures !OccursAt(JoinSegments(segs), ":" + y + ":", j)
  {
    if OccursAt(JoinSegments(segs), ":" + y + ":", j) {
      MarkerInSegments(segs, y, j);
    }
  }

  /** A colon in joined colon-free segments needs at least two segments. */
  lemma ColonInJoin(segs: seq<string>, x: string, j: int)
    requires ColonFree(segs) && OccursAt(JoinSegments(segs), ":" + x + ":", j)
    ensures |segs| >= 2
  {
    var w := JoinSegments(segs);
    MarkerParts(w, x, j);
    ShortJoinColonFree(segs);
  }

  lemma ShortJoinColonFree(segs: seq<string>)
    requires ColonFree(segs)
    ensures |segs| <= 1 ==> ':' !in JoinSegments(segs)
  {
    if |segs| == 1 {
      assert JoinSegments(segs) == segs[0];
    }
  }

  lemma JoinHead(segs: seq<string>)
    requires |segs| >= 2
    ensures JoinSegments(segs) == segs[0] + ":" + JoinSegments(segs[1..])
  {
  }

  /** A marker in `s0 + ":" + rest` with no `:` in `s0` starts at or after the separator. */
  lemma ColonAfterHead(s0: string, rest: string, x: string, j: int)
    requires ':' !in s0 && OccursAt(s0 + ":" + rest, ":" + x + ":", j)
    ensures j >= |s0|
  {
    var w := s0 + ":" + rest;
    assert w[j] == (":" + x + ":")[0];
    assert forall k :: 0 <= k < |s0| ==> w[k] == s0[k];
  }

  /** A marker at the separator opens `rest`; one after it occurs in `rest`. */
  lemma MarkerAfterHead(s0: string, rest: string, x: string, j: int)
    requires OccursAt(s0 + ":" + rest, ":" + x + ":", j) && j >= |s0|
    ensures j == |s0| ==> |x| + 1 <= |rest| && rest[..|x| + 1] == x + ":"
    ensures j > |s0| ==> OccursAt(rest, ":" + x + ":", j - |s0| - 1)
  {
    var w := s0 + ":" + rest;
    var g := ":" + x + ":";
    assert w[j..j + |g|] == g;
    if j == |s0| {
      SliceAfterHead(s0, rest, 0, |g| - 1);
      assert w[j + 1..j + |g|] == g[1..];
      assert g[1..] == x + ":";
    } else {
      var j' := j - |s0| - 1;
      SliceAfterHead(s0, rest, j', j' + |g|);
    }
  }
}
