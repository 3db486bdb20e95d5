/**
 * The extractive summariser `simple_summarize`, which the web front end
 * (app.py) and the command-line agent (news_digest_agent.py) each define.
 * The two copies differ only in the placeholder returned for short text and
 * in the bullet that starts each line, so one definition takes both as a
 * `Config` and the two copies are its two instances.
 */
module Summarizer {
  import opened Wrappers
  import opened Text
  import opened StableSort
  import opened PySeq

  datatype Config = Config(tooShort: string, bullet: string)

  /** app.py: "- Content too short to summarize", lines start with "• ". */
  const AppConfig := Config("- Content too short to summarize", "• ")
  /** news_digest_agent.py: "- Article content too short to summarize", lines start with "- ". */
  const AgentConfig := Config("- Article content too short to summarize", "- ")

  const NoContent := "- No content available"
  /** Text shorter than this is not split at all. */
  const MinTextLength := 50
  /** A stripped fragment must be longer than this to be a candidate sentence. */
  const MinSentenceLength := 20

  const Keywords: seq<string> := [
    "new", "first", "launch", "announce", "develop", "create",
    "technology", "ai", "system", "company", "market", "data",
    "research", "study", "report", "says", "according"]

  /** The test a fragment must pass to become a candidate sentence. */
  predicate LongEnough(piece: string) {
    |Strip(piece)| > MinSentenceLength
  }

  /** `[p.strip() for p in pieces if len(p.strip()) > 20]`. */
  function KeepCandidates(pieces: seq<string>): (c: seq<string>)
    ensures |c| <= |pieces|
    ensures forall x :: x in c ==> |x| > MinSentenceLength
  {
    FilterMapPositions(pieces, LongEnough, Strip);
    FilterMap(pieces, LongEnough, Strip)
  }

  /**
   * The candidates are exactly the fragments long enough after stripping,
   * each stripped, in text order: the k-th candidate is the k-th such
   * fragment (`Positions` lists every one of them, in increasing order).
   */
  lemma KeepCandidatesSelects(pieces: seq<string>)
    ensures |KeepCandidates(pieces)| == |Positions(pieces, LongEnough)|
    ensures forall k :: 0 <= k < |KeepCandidates(pieces)| ==>
      KeepCandidates(pieces)[k] == Strip(pieces[Positions(pieces, LongEnough)[k]])
  {
    FilterMapPositions(pieces, LongEnough, Strip);
  }

  /** Every candidate is some piece, stripped. */
  lemma {:induction false} CandidateSource(pieces: seq<string>, x: string) returns (p: string)
    requires x in KeepCandidates(pieces)
    ensures p in pieces && x == Strip(p)
  {
    if LongEnough(pieces[0]) && x == Strip(pieces[0]) {
      p := pieces[0];
    } else {
      p := CandidateSource(pieces[1..], x);
    }
  }

  /** The candidate sentences of `text`, in text order. */
  function Candidates(text: string): seq<string> {
    KeepCandidates(SplitSentences(text))
  }

  /** How many of `ks`, lower-cased, occur in the (already lower-cased) sentence. */
  function CountMatches(ks: seq<string>, lowered: string): (n: nat)
    ensures n <= |ks|
  {
    if ks == [] then 0
    else (if Contains(lowered, Lower(ks[0])) then 1 else 0) + CountMatches(ks[1..], lowered)
  }

  /** `sum(1 for keyword in keywords if keyword.lower() in sentence.lower())`. */
  function KeywordScore(sentence: string): (n: nat)
    ensures n <= |Keywords|
  {
    CountMatches(Keywords, Lower(sentence))
  }

  /** The candidates paired with their scores, in candidate order. */
  function ScoreSentences(cands: seq<string>): (r: seq<Scored<string>>)
    ensures |r| == |cands|
    ensures forall i :: 0 <= i < |cands| ==> r[i] == Scored(KeywordScore(cands[i]), cands[i])
  {
    seq(|cands|, i requires 0 <= i < |cands| => Scored(KeywordScore(cands[i]), cands[i]))
  }

  /** `sorted(scored, reverse=True, key=score)[:n]`. */
  function TopSentences(cands: seq<string>, n: int): seq<Scored<string>> {
    PyTake(SortDesc(ScoreSentences(cands)), n)
  }

  /** One line per chosen sentence: the bullet followed by the stripped sentence. */
  function Bullets(cfg: Config, top: seq<Scored<string>>): (lines: seq<string>)
    ensures |lines| == |top|
    ensures forall i :: 0 <= i < |top| ==> lines[i] == cfg.bullet + Strip(top[i].item)
  {
    seq(|top|, i requires 0 <= i < |top| => cfg.bullet + Strip(top[i].item))
  }

  /** `simple_summarize(text, num_sentences)`; `None` is Python's `None`. */
  function Summarize(cfg: Config, text: Option<string>, numSentences: int): (r: string)
    ensures text.None? || |text.value| < MinTextLength ==> r == cfg.tooShort
    ensures text.Some? && |text.value| >= MinTextLength && Candidates(text.value) == [] ==> r == NoContent
  {
    if text.None? || text.value == "" || |text.value| < MinTextLength then cfg.tooShort
    else
      var cands := Candidates(text.value);
      if |cands| == 0 then NoContent
      else Join(Bullets(cfg, TopSentences(cands, numSentences)), "\n")
  }

  /** The web front end's copy. */
  function AppSummarize(text: Option<string>, numSentences: int): (r: string)
    ensures text.None? || |text.value| < 50 ==> r == "- Content too short to summarize"
    ensures text.Some? && |text.value| >= 50 && Candidates(text.value) != [] ==>
      r == Join(Bullets(AppConfig, TopSentences(Candidates(text.value), numSentences)), "\n")
      && forall i :: 0 <= i < |TopSentences(Candidates(text.value), numSentences)| ==>
        Bullets(AppConfig, TopSentences(Candidates(text.value), numSentences))[i]
        == "• " + TopSentences(Candidates(text.value), numSentences)[i].item
  {
    if text.None? then Summarize(AppConfig, text, numSentences)
    else
      BulletsHoldSentencesVerbatim(AppConfig, text.value, numSentences);
      Summarize(AppConfig, text, numSentences)
  }

  /** The command-line agent's copy. */
  function AgentSummarize(text: Option<string>, numSentences: int): (r: string)
    ensures text.None? || |text.value| < 50 ==> r == "- Article content too short to summarize"
    ensures text.Some? && |text.value| >= 50 && Candidates(text.value) != [] ==>
      r == Join(Bullets(AgentConfig, TopSentences(Candidates(text.value), numSentences)), "\n")
      && forall i :: 0 <= i < |TopSentences(Candidates(text.value), numSentences)| ==>
        Bullets(AgentConfig, TopSentences(Candidates(text.value), numSentences))[i]
        == "- " + TopSentences(Candidates(text.value), numSentences)[i].item
  {
    if text.None? then Summarize(AgentConfig, text, numSentences)
    else
      BulletsHoldSentencesVerbatim(AgentConfig, text.value, numSentences);
      Summarize(AgentConfig, text, numSentences)
  }

  // ---------------------------------------------------------------- candidates

  /** Every piece of the split is a verbatim slice of the text. */
  lemma {:induction false} SplitPiecesOccur(s: string)
    ensures forall p :: p in SplitSentences(s) ==> exists i :: OccursAt(s, p, i)
    decreases |s|
  {
    var i := NextTerminator(s, 0);
    if i == |s| {
      assert OccursAt(s, s, 0);
    } else {
      var j := RunEnd(s, i);
      SplitPiecesOccur(s[j..]);
      forall p | p in SplitSentences(s) ensures exists k :: OccursAt(s, p, k) {
        if p == s[..i] {
          assert OccursAt(s, p, 0);
        } else {
          assert p in SplitSentences(s[j..]);
          var k :| OccursAt(s[j..], p, k);
          assert OccursAt(s, s[j..], j);
          OccursWithin(s, s[j..], p, j, k);
        }
      }
    }
  }

  /** A candidate is a stripped piece longer than 20 characters, so stripping it again changes nothing. */
  lemma CandidateIsStripped(text: string, c: string)
    requires c in Candidates(text)
    ensures |c| > MinSentenceLength
    ensures Strip(c) == c
  {
    var p := CandidateSource(SplitSentences(text), c);
    StripIdempotent(p);
  }

  /** A candidate contains no sentence terminator. */
  lemma CandidateHasNoTerminator(text: string, c: string)
    requires c in Candidates(text)
    ensures NoTerminator(c)
  {
    KeptHasNoTerminator(SplitSentences(text), c);
  }

  /** Stripping a fragment without terminators leaves none. */
  lemma KeptHasNoTerminator(pieces: seq<string>, c: string)
    requires forall p :: p in pieces ==> NoTerminator(p)
    requires c in KeepCandidates(pieces)
    ensures NoTerminator(c)
  {
    var p := CandidateSource(pieces, c);
    StripIsSlice(p);
    NoTerminatorSlice(p, StripOffset(p), StripOffset(p) + |c|);
  }

  /** A candidate occurs verbatim in the text. */
  lemma CandidateOccurs(text: string, c: string)
    requires c in Candidates(text)
    ensures exists i :: OccursAt(text, c, i)
  {
    var p := CandidateSource(SplitSentences(text), c);
    SplitPiecesOccur(text);
    var k :| OccursAt(text, p, k);
    StrippedOccurs(text, p, k);
  }

  // ---------------------------------------------------------------- scoring

  lemma KeywordsDistinct()
    ensures Distinct(Keywords)
  {
  }

  /** The matching keywords of `ks`, as a set. */
  function MatchingSet(ks: seq<string>, lowered: string): set<string> {
    set k | k in ks && Contains(lowered, Lower(k))
  }

  lemma {:induction false} CountMatchesIsSetSize(ks: seq<string>, lowered: string)
    requires Distinct(ks)
    ensures CountMatches(ks, lowered) == |MatchingSet(ks, lowered)|
  {
    if ks != [] {
      var tail := ks[1..];
      assert Distinct(tail) by {
        forall i, j | 0 <= i < j < |tail| ensures tail[i] != tail[j] {
          assert tail[i] == ks[i + 1] && tail[j] == ks[j + 1];
        }
      }
      CountMatchesIsSetSize(tail, lowered);
      var rest := MatchingSet(tail, lowered);
      assert ks[0] !in tail by {
        forall i | 0 <= i < |tail| ensures tail[i] != ks[0] {
          assert tail[i] == ks[i + 1];
        }
      }
      assert forall k :: k in ks <==> k == ks[0] || k in tail;
      if Contains(lowered, Lower(ks[0])) {
        assert MatchingSet(ks, lowered) == rest + {ks[0]};
      } else {
        assert MatchingSet(ks, lowered) == rest;
      }
    }
  }

  /**
   * A sentence's score is the number of distinct keywords that occur in it,
   * ignoring case: each keyword counts at most once, however often it occurs.
   */
  lemma KeywordScoreCountsDistinctKeywords(sentence: string)
    ensures KeywordScore(sentence) == |MatchingSet(Keywords, Lower(sentence))|
    ensures KeywordScore(sentence) <= 17
  {
    KeywordsDistinct();
    CountMatchesIsSetSize(Keywords, Lower(sentence));
  }

  // ---------------------------------------------------------------- selection

  /** As many sentences are chosen as asked for, or all candidates when there are fewer. */
  lemma TopSentencesCount(cands: seq<string>, n: int)
    requires 0 <= n
    ensures |TopSentences(cands, n)| == Min(n, |cands|)
  {
  }

  /** The chosen sentences are a best-first prefix of the sorted candidates. */
  lemma TopSentencesPrefix(cands: seq<string>, n: int)
    ensures TopSentences(cands, n) == SortDesc(ScoreSentences(cands))[..|TopSentences(cands, n)|]
    ensures NonIncreasing(TopSentences(cands, n))
  {
  }

  /** Each chosen sentence is a candidate, paired with its own keyword score. */
  lemma TopSentencesAreScoredCandidates(cands: seq<string>, n: int)
    ensures forall x :: x in TopSentences(cands, n) ==> x.item in cands && x.score == KeywordScore(x.item)
  {
    var scored := ScoreSentences(cands);
    var sorted := SortDesc(scored);
    var top := TopSentences(cands, n);
    forall x | x in top ensures x.item in cands && x.score == KeywordScore(x.item) {
      assert x in sorted;
      assert x in multiset(scored);
      assert x in scored;
    }
  }

  /** No candidate left out scores higher than any chosen one. */
  lemma TopSentencesDominate(cands: seq<string>, n: int)
    ensures forall x, y ::
      x in multiset(ScoreSentences(cands)) - multiset(TopSentences(cands, n)) && y in TopSentences(cands, n)
      ==> y.score >= x.score
  {
    TopSentencesPrefix(cands, n);
    PrefixDominates(ScoreSentences(cands), |TopSentences(cands, n)|);
  }

  /**
   * Ties keep text order: for every score, the chosen sentences with that
   * score are the first few candidates with that score, in text order.
   */
  lemma TopSentencesStable(cands: seq<string>, n: int, v: int)
    ensures IsPrefix(WithScore(TopSentences(cands, n), v), WithScore(ScoreSentences(cands), v))
  {
    var sorted := SortDesc(ScoreSentences(cands));
    var k := |TopSentences(cands, n)|;
    TopSentencesPrefix(cands, n);
    WithScoreSplit(sorted, k, v);
  }

  /** When there is something to summarise, the summary is one line per chosen sentence. */
  lemma SummaryJoinsBullets(cfg: Config, text: string, n: int)
    requires |text| >= MinTextLength && Candidates(text) != []
    ensures Summarize(cfg, Some(text), n) == Join(Bullets(cfg, TopSentences(Candidates(text), n)), "\n")
  {
  }

  /** Each line is the bullet followed by a chosen sentence exactly as it stands in the text. */
  lemma BulletsHoldSentencesVerbatim(cfg: Config, text: string, n: int)
    ensures forall i :: 0 <= i < |TopSentences(Candidates(text), n)| ==>
      Bullets(cfg, TopSentences(Candidates(text), n))[i] == cfg.bullet + TopSentences(Candidates(text), n)[i].item
  {
    var top := TopSentences(Candidates(text), n);
    TopSentencesAreScoredCandidates(Candidates(text), n);
    forall i | 0 <= i < |top| ensures Strip(top[i].item) == top[i].item {
      assert top[i] in top;
      CandidateIsStripped(text, top[i].item);
    }
  }

  /** Every chosen sentence occurs verbatim in the text. */
  lemma SummaryIsExtractive(text: string, n: int)
    ensures forall x :: x in TopSentences(Candidates(text), n) ==> exists i :: OccursAt(text, x.item, i)
  {
    TopSentencesAreScoredCandidates(Candidates(text), n);
    forall x | x in TopSentences(Candidates(text), n) ensures exists i :: OccursAt(text, x.item, i) {
      CandidateOccurs(text, x.item);
    }
  }
}
