/**
 * The string operations the summariser and the ranker use: Python's
 * `str.strip()`, `str.lower()` (on ASCII letters), the substring test `in`,
 * `'\n'.join` and `re.split(r'[.!?]+', text)`.
 */
module Text {

  /** The characters for which Python's `str.isspace()` holds. */
  predicate IsSpace(c: char) {
    || ('\t' <= c <= '\r')
    || ('\U{1C}' <= c <= '\U{1F}')
    || c == ' ' || c == '\U{85}' || c == '\U{A0}' || c == '\U{1680}'
    || ('\U{2000}' <= c <= '\U{200A}')
    || c == '\U{2028}' || c == '\U{2029}' || c == '\U{202F}' || c == '\U{205F}' || c == '\U{3000}'
  }

  /** `s.lstrip()`: drops the leading whitespace. */
  function TrimStart(s: string): (r: string)
    ensures |r| <= |s| && r == s[|s| - |r|..]
    ensures forall i :: 0 <= i < |s| - |r| ==> IsSpace(s[i])
    ensures r == [] || !IsSpace(r[0])
  {
    if s != [] && IsSpace(s[0]) then TrimStart(s[1..]) else s
  }

  /** `s.rstrip()`: drops the trailing whitespace. */
  function TrimEnd(s: string): (r: string)
    ensures |r| <= |s| && r == s[..|r|]
    ensures forall i :: |r| <= i < |s| ==> IsSpace(s[i])
    ensures r == [] || !IsSpace(r[|r| - 1])
  {
    if s != [] && IsSpace(s[|s| - 1]) then TrimEnd(s[..|s| - 1]) else s
  }

  /** `s.strip()`. */
  function Strip(s: string): string {
    TrimEnd(TrimStart(s))
  }

  /** Where the text `Strip` keeps starts in `s`. */
  function StripOffset(s: string): nat {
    |s| - |TrimStart(s)|
  }

  /** What `Strip` keeps is a slice of `s`. */
  lemma StripIsSlice(s: string)
    ensures StripOffset(s) + |Strip(s)| <= |s|
    ensures Strip(s) == s[StripOffset(s)..StripOffset(s) + |Strip(s)|]
  {
    SliceOfSuffix(s, TrimStart(s), TrimEnd(TrimStart(s)), StripOffset(s));
  }

  /** A prefix of a suffix is a middle slice. */
  lemma SliceOfSuffix(s: string, t: string, r: string, i: nat)
    requires i <= |s| && t == s[i..]
    requires |r| <= |t| && r == t[..|r|]
    ensures i + |r| <= |s| && r == s[i..i + |r|]
  {
  }

  /** Only whitespace lies around the slice that `Strip` keeps. */
  lemma StripDropsOnlySpace(s: string)
    ensures forall i :: 0 <= i < StripOffset(s) ==> IsSpace(s[i])
    ensures forall i :: StripOffset(s) + |Strip(s)| <= i < |s| ==> IsSpace(s[i])
  {
    var t := TrimStart(s);
    var r := TrimEnd(t);
    var i := |s| - |t|;
    assert t == s[i..];
    forall m | i + |r| <= m < |s|
      ensures IsSpace(s[m])
    {
      assert s[m] == t[m - i];
    }
  }

  /** Neither end of a stripped string is whitespace. */
  lemma StripEnds(s: string)
    ensures Strip(s) == [] || (!IsSpace(Strip(s)[0]) && !IsSpace(Strip(s)[|Strip(s)| - 1]))
  {
    var t := TrimStart(s);
    var r := TrimEnd(t);
    if r != [] {
      assert r[0] == t[0];
    }
  }

  /** Stripping twice strips nothing more. */
  lemma StripIdempotent(s: string)
    ensures Strip(Strip(s)) == Strip(s)
  {
    StripEnds(s);
    var r := Strip(s);
    assert TrimStart(r) == r;
  }

  /** ASCII lower-casing of one character. */
  function LowerChar(c: char): (d: char)
    ensures 'A' <= c <= 'Z' ==> 'a' <= d <= 'z'
    ensures !('A' <= c <= 'Z') ==> d == c
  {
    if 'A' <= c <= 'Z' then (c as int + 32) as char else c
  }

  /** `s.lower()` on ASCII letters; every other character is kept. */
  function Lower(s: string): (r: string)
    ensures |r| == |s|
    ensures forall i :: 0 <= i < |s| ==> r[i] == LowerChar(s[i])
  {
    seq(|s|, i requires 0 <= i < |s| => LowerChar(s[i]))
  }

  predicate StartsWith(s: string, prefix: string) {
    |prefix| <= |s| && s[..|prefix|] == prefix
  }

  /** Python's `needle in hay` on strings. */
  predicate Contains(hay: string, needle: string)
    decreases |hay|
  {
    StartsWith(hay, needle) || (hay != [] && Contains(hay[1..], needle))
  }

  /** `needle` occurs in `hay` at position `i`. */
  predicate OccursAt(hay: string, needle: string, i: int) {
    0 <= i && i + |needle| <= |hay| && hay[i..i + |needle|] == needle
  }

  /** An occurrence inside an occurrence is an occurrence. */
  lemma OccursWithin(hay: string, mid: string, needle: string, k: int, o: int)
    requires OccursAt(hay, mid, k) && OccursAt(mid, needle, o)
    ensures OccursAt(hay, needle, k + o)
  {
    forall m | 0 <= m < |needle| ensures hay[k + o + m] == needle[m] {
      assert needle[m] == mid[o + m];
      assert mid[o + m] == hay[k + o + m];
    }
  }

  /** What `Strip` keeps of an occurrence occurs too. */
  lemma StrippedOccurs(hay: string, p: string, k: int)
    requires OccursAt(hay, p, k)
    ensures OccursAt(hay, Strip(p), k + StripOffset(p))
  {
    StripIsSlice(p);
    OccursWithin(hay, p, Strip(p), k, StripOffset(p));
  }

  /** `Contains` is the existence of a position where `needle` occurs. */
  lemma {:induction false} ContainsAt(hay: string, needle: string)
    ensures Contains(hay, needle) <==> exists i :: OccursAt(hay, needle, i)
    decreases |hay|
  {
    if StartsWith(hay, needle) {
      assert OccursAt(hay, needle, 0);
    }
    if hay != [] {
      ContainsAt(hay[1..], needle);
      if Contains(hay[1..], needle) {
        var i :| OccursAt(hay[1..], needle, i);
        assert hay[i + 1..i + 1 + |needle|] == hay[1..][i..i + |needle|];
        assert OccursAt(hay, needle, i + 1);
      }
      if exists i :: OccursAt(hay, needle, i) {
        var i :| OccursAt(hay, needle, i);
        if i > 0 {
          assert hay[1..][i - 1..i - 1 + |needle|] == hay[i..i + |needle|];
          assert OccursAt(hay[1..], needle, i - 1);
        }
      }
    } else {
      if exists i :: OccursAt(hay, needle, i) {
        var i :| OccursAt(hay, needle, i);
        assert StartsWith(hay, needle);
      }
    }
  }

  /** `sep.join(parts)`. */
  function Join(parts: seq<string>, sep: string): (r: string)
    ensures parts == [] ==> r == []
    ensures |parts| == 1 ==> r == parts[0]
  {
    if parts == [] then []
    else if |parts| == 1 then parts[0]
    else parts[0] + sep + Join(parts[1..], sep)
  }

  predicate IsTerminator(c: char) {
    c == '.' || c == '!' || c == '?'
  }

  predicate NoTerminator(s: string) {
    forall i :: 0 <= i < |s| ==> !IsTerminator(s[i])
  }

  /** A slice of a string without terminators has none either. */
  lemma NoTerminatorSlice(s: string, i: nat, j: nat)
    requires NoTerminator(s) && i <= j <= |s|
    ensures NoTerminator(s[i..j])
  {
    forall m | 0 <= m < j - i ensures !IsTerminator(s[i..j][m]) {
      assert s[i..j][m] == s[i + m];
    }
  }

  /** The first position at or after `i` that holds a terminator, or `|s|`. */
  function NextTerminator(s: string, i: nat): (k: nat)
    requires i <= |s|
    ensures i <= k <= |s|
    ensures k < |s| ==> IsTerminator(s[k])
    ensures forall m :: i <= m < k ==> !IsTerminator(s[m])
    decreases |s| - i
  {
    if i == |s| || IsTerminator(s[i]) then i else NextTerminator(s, i + 1)
  }

  /** The end of the run of terminators that starts at `i`. */
  function RunEnd(s: string, i: nat): (k: nat)
    requires i <= |s|
    ensures i <= k <= |s|
    ensures k < |s| ==> !IsTerminator(s[k])
    ensures forall m :: i <= m < k ==> IsTerminator(s[m])
    decreases |s| - i
  {
    if i == |s| || !IsTerminator(s[i]) then i else RunEnd(s, i + 1)
  }

  /**
   * `re.split(r'[.!?]+', s)`: the pieces between maximal runs of `.`, `!` and
   * `?`, including the empty piece before a leading run and after a trailing one.
   */
  function SplitSentences(s: string): (pieces: seq<string>)
    ensures |pieces| >= 1
    ensures forall p :: p in pieces ==> NoTerminator(p)
    decreases |s|
  {
    var i := NextTerminator(s, 0);
    if i == |s| then [s]
    else [s[..i]] + SplitSentences(s[RunEnd(s, i)..])
  }

  /** A non-empty run made only of `.`, `!` and `?`. */
  predicate TerminatorRun(r: string) {
    r != [] && forall i :: 0 <= i < |r| ==> IsTerminator(r[i])
  }

  /** `pieces[0] + runs[0] + pieces[1] + ... + runs[k - 1] + pieces[k]`. */
  function Interleave(pieces: seq<string>, runs: seq<string>): string
    requires |pieces| == |runs| + 1
    decreases |runs|
  {
    if runs == [] then pieces[0]
    else pieces[0] + runs[0] + Interleave(pieces[1..], runs[1..])
  }

  /**
   * The split cuts exactly at the runs of terminators: putting a non-empty
   * run of terminators back between each two neighbouring pieces rebuilds
   * the text. As no piece holds a terminator, every run is maximal, which
   * is where `re.split(r'[.!?]+', s)` cuts.
   */
  lemma {:induction false} SplitSentencesCuts(s: string) returns (runs: seq<string>)
    ensures |runs| + 1 == |SplitSentences(s)|
    ensures forall r :: r in runs ==> TerminatorRun(r)
    ensures Interleave(SplitSentences(s), runs) == s
    decreases |s|
  {
    var i := NextTerminator(s, 0);
    if i == |s| {
      runs := [];
    } else {
      var j := RunEnd(s, i);
      RunAt(s, i);
      var rest := SplitSentencesCuts(s[j..]);
      runs := [s[i..j]] + rest;
      InterleaveCons(s[..i], s[i..j], SplitSentences(s[j..]), rest);
      SliceThree(s, i, j);
    }
  }

  /** At a terminator starts a non-empty run of terminators. */
  lemma RunAt(s: string, i: nat)
    requires i < |s| && IsTerminator(s[i])
    ensures i < RunEnd(s, i) && TerminatorRun(s[i..RunEnd(s, i)])
  {
    var j := RunEnd(s, i);
    assert j == RunEnd(s, i + 1);
    forall m | 0 <= m < j - i ensures IsTerminator(s[i..j][m]) {
      assert s[i..j][m] == s[i + m];
    }
  }

  lemma SliceThree(s: string, i: nat, j: nat)
    requires i <= j <= |s|
    ensures s == s[..i] + s[i..j] + s[j..]
  {
  }

  lemma InterleaveCons(p: string, r: string, pieces: seq<string>, runs: seq<string>)
    requires |pieces| == |runs| + 1
    ensures Interleave([p] + pieces, [r] + runs) == p + r + Interleave(pieces, runs)
  {
    assert ([p] + pieces)[1..] == pieces && ([r] + runs)[1..] == runs;
  }

  /** `s` with every terminator removed. */
  function DropTerminators(s: string): string {
    if s == [] then []
    else (if IsTerminator(s[0]) then [] else [s[0]]) + DropTerminators(s[1..])
  }

  function Concat(parts: seq<string>): string {
    if parts == [] then [] else parts[0] + Concat(parts[1..])
  }

  lemma {:induction false} DropTerminatorsAppend(a: string, b: string)
    ensures DropTerminators(a + b) == DropTerminators(a) + DropTerminators(b)
  {
    if a == [] {
      assert a + b == b;
    } else {
      assert (a + b)[0] == a[0];
      assert (a + b)[1..] == a[1..] + b;
      DropTerminatorsAppend(a[1..], b);
    }
  }

  lemma {:induction false} DropTerminatorsNone(a: string)
    requires NoTerminator(a)
    ensures DropTerminators(a) == a
  {
    if a != [] {
      DropTerminatorsNone(a[1..]);
    }
  }

  lemma {:induction false} DropTerminatorsAll(a: string)
    requires forall i :: 0 <= i < |a| ==> IsTerminator(a[i])
    ensures DropTerminators(a) == []
  {
    if a != [] {
      DropTerminatorsAll(a[1..]);
    }
  }

  /**
   * Splitting loses only the terminators: gluing the pieces back together
   * gives the text with its `.`, `!` and `?` removed.
   */
  lemma {:induction false} SplitSentencesLosesOnlyTerminators(s: string)
    ensures Concat(SplitSentences(s)) == DropTerminators(s)
    decreases |s|
  {
    var i := NextTerminator(s, 0);
    if i == |s| {
      DropTerminatorsNone(s);
    } else {
      var j := RunEnd(s, i);
      assert s == s[..i] + s[i..j] + s[j..];
      DropTerminatorsAppend(s[..i] + s[i..j], s[j..]);
      DropTerminatorsAppend(s[..i], s[i..j]);
      DropTerminatorsNone(s[..i]);
      DropTerminatorsAll(s[i..j]);
      SplitSentencesLosesOnlyTerminators(s[j..]);
    }
  }
}
