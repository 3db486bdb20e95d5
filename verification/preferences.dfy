/**
 * The learning state of the feedback tracker (the record kept in
 * `user_preferences.json`) and the value-level definitions the tracker is
 * specified by: legacy-file migration, the effect of a click and of
 * explicit feedback, article scoring and ranking, and the insights report.
 */
module Preferences {
  import opened Wrappers
  import opened Json
  import opened Articles
  import opened OrderedDict
  import opened StableSort
  import opened PySeq
  import opened Text

  const Clicked := "clicked"
  const Liked := "liked"
  const Disliked := "disliked"

  /** One logged user action. Loaded records may lack any field. */
  datatype Interaction = Interaction(
    url: OptStr,
    topic: OptStr,
    source: OptStr,
    sentiment: OptStr,
    timestamp: OptStr,
    action: OptStr)

  datatype HistoryEntry = HistoryEntry(url: string, readDate: string)

  datatype Metadata = Metadata(created: string, totalInteractions: int, lastUpdated: OptStr)

  datatype Prefs = Prefs(
    interactions: seq<Interaction>,
    sourceScores: Dict<string, int>,
    topicWeights: Dict<string, int>,
    articleHistory: seq<HistoryEntry>,
    metadata: Metadata)

  /**
   * The preferences file: one JSON object, or a file that is not a single
   * JSON document and is read in the legacy format of one JSON value per
   * line, each line either parsed (`Some`) or unparsable (`None`).
   */
  datatype StoredFile = Structured(prefs: Prefs) | LineDelimited(lines: seq<Option<Interaction>>)

  /** A JSON object never holds a key twice. */
  predicate WellFormed(p: Prefs) {
    UniqueKeys(p.sourceScores) && UniqueKeys(p.topicWeights)
  }

  // ------------------------------------------------------------ migration

  /** The parsed lines of a legacy file, in file order. */
  function Parsed(lines: seq<Option<Interaction>>): (xs: seq<Interaction>)
    ensures |xs| <= |lines|
  {
    if lines == [] then []
    else
      var last := lines[|lines| - 1];
      Parsed(lines[..|lines| - 1]) + (if last.Some? then [last.value] else [])
  }

  /** A legacy line that parsed as a JSON record. */
  predicate Parses(line: Option<Interaction>) {
    line.Some?
  }

  /** Migration keeps a record exactly when some line of the file parses to it. */
  lemma {:induction false} ParsedKeepsParsableLines(lines: seq<Option<Interaction>>)
    ensures forall x :: x in Parsed(lines) <==> Some(x) in lines
  {
    if lines != [] {
      var init := lines[..|lines| - 1];
      var last := lines[|lines| - 1];
      ParsedKeepsParsableLines(init);
      assert lines == init + [last];
    }
  }

  /**
   * The migrated interactions follow the file: the k-th one is the record on
   * the k-th line that parses.
   */
  lemma {:induction false} ParsedInFileOrder(lines: seq<Option<Interaction>>)
    ensures |Parsed(lines)| == |Positions(lines, Parses)|
    ensures forall k :: 0 <= k < |Parsed(lines)| ==> lines[Positions(lines, Parses)[k]] == Some(Parsed(lines)[k])
  {
    if lines != [] {
      var init := lines[..|lines| - 1];
      ParsedInFileOrder(init);
      var idx := Positions(lines, Parses);
      var before := Positions(init, Parses);
      assert idx == before + (if Parses(lines[|lines| - 1]) then [|init|] else []);
      forall k | 0 <= k < |Parsed(init)|
        ensures lines[idx[k]] == Some(Parsed(lines)[k])
      {
        assert Parsed(lines)[k] == Parsed(init)[k] && idx[k] == before[k];
        assert lines[before[k]] == init[before[k]];
      }
    }
  }

  datatype Tag = BySource | ByTopic

  function Field(x: Interaction, tag: Tag): OptStr {
    match tag
    case BySource => x.source
    case ByTopic => x.topic
  }

  /** One step of the migration's scoring loop: `if v: d[v] = d.get(v, 0) + 1`. */
  function TallyStep(d: Dict<string, int>, v: OptStr): Dict<string, int> {
    if FieldTruthy(v) then Put(d, v.s, GetOr(d, v.s, 0) + 1) else d
  }

  /** The scores migration computes from the interactions, for sources or for topics. */
  function Tally(xs: seq<Interaction>, tag: Tag): Dict<string, int> {
    if xs == [] then []
    else TallyStep(Tally(xs[..|xs| - 1], tag), Field(xs[|xs| - 1], tag))
  }

  /** The positions of the interactions whose source (or topic) is `key`. */
  function Occurrences(xs: seq<Interaction>, tag: Tag, key: string): set<nat> {
    set i | 0 <= i < |xs| && Field(xs[i], tag) == Str(key)
  }

  /** One more interaction adds one to the count of its own source (topic) only. */
  lemma OccurrencesSnoc(xs: seq<Interaction>, tag: Tag, key: string)
    requires xs != []
    ensures |Occurrences(xs, tag, key)| ==
      |Occurrences(xs[..|xs| - 1], tag, key)| + (if Field(xs[|xs| - 1], tag) == Str(key) then 1 else 0)
  {
    var init := xs[..|xs| - 1];
    if Field(xs[|xs| - 1], tag) == Str(key) {
      assert Occurrences(xs, tag, key) == Occurrences(init, tag, key) + {|init|};
    } else {
      assert Occurrences(xs, tag, key) == Occurrences(init, tag, key);
    }
  }

  /** One step of the tally adds one to the key it names, if that key is non-empty. */
  lemma TallyStepGet(t: Dict<string, int>, v: OptStr, key: string)
    ensures Get(TallyStep(t, v), key) ==
      if FieldTruthy(v) && v.s == key then Some(GetOr(t, key, 0) + 1) else Get(t, key)
  {
    if FieldTruthy(v) {
      PutGet(t, v.s, GetOr(t, v.s, 0) + 1);
    }
  }

  /** The migrated scores never hold a key twice. */
  lemma {:induction false} TallyUnique(xs: seq<Interaction>, tag: Tag)
    ensures UniqueKeys(Tally(xs, tag))
  {
    if xs != [] {
      var t := Tally(xs[..|xs| - 1], tag);
      var v := Field(xs[|xs| - 1], tag);
      TallyUnique(xs[..|xs| - 1], tag);
      if FieldTruthy(v) {
        PutKeys(t, v.s, GetOr(t, v.s, 0) + 1);
      }
    }
  }

  /**
   * Migration scores count: each non-empty source (topic) is bound to the
   * number of interactions that name it, and nothing else is bound.
   */
  lemma {:induction false} TallyCounts(xs: seq<Interaction>, tag: Tag)
    ensures UniqueKeys(Tally(xs, tag))
    ensures forall key :: Get(Tally(xs, tag), key) ==
                         if key != "" && |Occurrences(xs, tag, key)| > 0 then Some(|Occurrences(xs, tag, key)|) else None
  {
    TallyUnique(xs, tag);
    if xs != [] {
      var init := xs[..|xs| - 1];
      TallyCounts(init, tag);
      forall key ensures Get(Tally(xs, tag), key) ==
        if key != "" && |Occurrences(xs, tag, key)| > 0 then Some(|Occurrences(xs, tag, key)|) else None
      {
        OccurrencesSnoc(xs, tag, key);
        TallyStepGet(Tally(init, tag), Field(xs[|xs| - 1], tag), key);
      }
    }
  }

  /** The state `_migrate_old_format` builds from a legacy file at time `now`. */
  function Migrated(lines: seq<Option<Interaction>>, now: string): Prefs {
    var xs := Parsed(lines);
    Prefs(xs, Tally(xs, BySource), Tally(xs, ByTopic), [], Metadata(now, |xs|, Str(now)))
  }

  /**
   * A migrated state holds the parsed lines in file order, counts them, has
   * source and topic scores that count the interactions naming each, and
   * has read no article yet.
   */
  lemma MigratedSpec(lines: seq<Option<Interaction>>, now: string)
    ensures WellFormed(Migrated(lines, now))
    ensures Migrated(lines, now).metadata.totalInteractions == |Positions(lines, Parses)|
    ensures forall x :: x in Migrated(lines, now).interactions <==> Some(x) in lines
    ensures |Migrated(lines, now).interactions| == |Positions(lines, Parses)|
    ensures forall k :: 0 <= k < |Migrated(lines, now).interactions| ==>
                       lines[Positions(lines, Parses)[k]] == Some(Migrated(lines, now).interactions[k])
    ensures forall s :: Get(Migrated(lines, now).sourceScores, s) ==
                       var n := |Occurrences(Parsed(lines), BySource, s)|; if s != "" && n > 0 then Some(n) else None
    ensures forall t :: Get(Migrated(lines, now).topicWeights, t) ==
                       var n := |Occurrences(Parsed(lines), ByTopic, t)|; if t != "" && n > 0 then Some(n) else None
    ensures Migrated(lines, now).articleHistory == []
  {
    ParsedKeepsParsableLines(lines);
    ParsedInFileOrder(lines);
    TallyCounts(Parsed(lines), BySource);
    TallyCounts(Parsed(lines), ByTopic);
  }

  // ------------------------------------------------------------ recording

  function ClickRecord(url: string, topic: string, source: string, sentiment: string, now: string): Interaction {
    Interaction(Str(url), Str(topic), Str(source), Str(sentiment), Str(now), Str(Clicked))
  }

  function FeedbackRecord(url: string, liked: bool, now: string): Interaction {
    Interaction(Str(url), Missing, Missing, Missing, Str(now), Str(if liked then Liked else Disliked))
  }

  /** `d[k] = d.get(k, 0) + delta`. */
  function Bump(d: Dict<string, int>, k: string, delta: int): Dict<string, int> {
    Put(d, k, GetOr(d, k, 0) + delta)
  }

  /** The state after `log_article_click` at time `now` (including its save). */
  function AfterClick(p: Prefs, url: string, topic: string, source: string, sentiment: string, now: string): Prefs {
    Prefs(
      p.interactions + [ClickRecord(url, topic, source, sentiment, now)],
      Bump(p.sourceScores, source, 1),
      Bump(p.topicWeights, topic, 1),
      p.articleHistory + [HistoryEntry(url, now)],
      p.metadata.(totalInteractions := p.metadata.totalInteractions + 1, lastUpdated := Str(now)))
  }

  /** The interaction counter agrees with the log. */
  predicate Counted(p: Prefs) {
    p.metadata.totalInteractions == |p.interactions|
  }

  /**
   * A click adds 1 to its source's score and to its topic's weight (a new key
   * starts at 1) and leaves every other key alone.
   */
  lemma ClickRaisesScores(p: Prefs, url: string, topic: string, source: string, sentiment: string, now: string)
    ensures var q := AfterClick(p, url, topic, source, sentiment, now);
      && Get(q.sourceScores, source) == Some(GetOr(p.sourceScores, source, 0) + 1)
      && Get(q.topicWeights, topic) == Some(GetOr(p.topicWeights, topic, 0) + 1)
      && (forall s :: s != source ==> Get(q.sourceScores, s) == Get(p.sourceScores, s))
      && (forall t :: t != topic ==> Get(q.topicWeights, t) == Get(p.topicWeights, t))
  {
    PutGet(p.sourceScores, source, GetOr(p.sourceScores, source, 0) + 1);
    PutGet(p.topicWeights, topic, GetOr(p.topicWeights, topic, 0) + 1);
  }

  /** A click stores no key twice in either score table. */
  lemma ClickKeepsWellFormed(p: Prefs, url: string, topic: string, source: string, sentiment: string, now: string)
    requires WellFormed(p)
    ensures WellFormed(AfterClick(p, url, topic, source, sentiment, now))
  {
    PutKeys(p.sourceScores, source, GetOr(p.sourceScores, source, 0) + 1);
    PutKeys(p.topicWeights, topic, GetOr(p.topicWeights, topic, 0) + 1);
  }

  /**
   * A click logs one `clicked` interaction and one history entry for the
   * url, and keeps the counter in step with the log.
   */
  lemma ClickLogsOnce(p: Prefs, url: string, topic: string, source: string, sentiment: string, now: string)
    ensures var q := AfterClick(p, url, topic, source, sentiment, now);
      && q.interactions[..|p.interactions|] == p.interactions
      && |q.interactions| == |p.interactions| + 1
      && q.interactions[|p.interactions|].action == Str(Clicked)
      && q.articleHistory == p.articleHistory + [HistoryEntry(url, now)]
      && (Counted(p) ==> Counted(q))
  {
    var q := AfterClick(p, url, topic, source, sentiment, now);
    assert q.interactions[..|p.interactions|] == p.interactions;
  }

  /**
   * A record a backward scan for `url` stops at: one with that url and, when
   * `attributedOnly`, one that also names a source or a topic.
   */
  predicate Matches(x: Interaction, url: string, attributedOnly: bool) {
    x.url == Str(url) && (!attributedOnly || FieldTruthy(x.source) || FieldTruthy(x.topic))
  }

  /** The first record a scan from the newest interaction back stops at. */
  function LatestWhere(xs: seq<Interaction>, url: string, attributedOnly: bool): (r: Option<Interaction>)
    ensures r.Some? ==> r.value in xs && Matches(r.value, url, attributedOnly)
  {
    if xs == [] then None
    else if Matches(xs[|xs| - 1], url, attributedOnly) then Some(xs[|xs| - 1])
    else LatestWhere(xs[..|xs| - 1], url, attributedOnly)
  }

  /**
   * The scan finds the newest matching record: it finds nothing exactly when
   * no record matches, and otherwise the record with no match after it.
   */
  lemma {:induction false} LatestWhereIsNewest(xs: seq<Interaction>, url: string, attributedOnly: bool)
    ensures LatestWhere(xs, url, attributedOnly).None? <==>
      forall i :: 0 <= i < |xs| ==> !Matches(xs[i], url, attributedOnly)
    ensures forall i ::
              0 <= i < |xs| && Matches(xs[i], url, attributedOnly) &&
              (forall j :: i < j < |xs| ==> !Matches(xs[j], url, attributedOnly)) ==>
                LatestWhere(xs, url, attributedOnly) == Some(xs[i])
  {
    if xs != [] {
      var init := xs[..|xs| - 1];
      LatestWhereIsNewest(init, url, attributedOnly);
      assert forall i :: 0 <= i < |init| ==> init[i] == xs[i];
    }
  }

  /** The most recent interaction with this url: the loop at the heart of `log_article_feedback`. */
  function LatestWithUrl(xs: seq<Interaction>, url: string): (r: Option<Interaction>)
    ensures r.Some? ==> r.value in xs && r.value.url == Str(url)
  {
    LatestWhere(xs, url, false)
  }

  function FeedbackDelta(liked: bool): int {
    if liked then 2 else -1
  }

  /** `if key: d[key] = d.get(key, 0) + delta`. */
  function Adjust(d: Dict<string, int>, key: OptStr, delta: int): Dict<string, int> {
    if FieldTruthy(key) then Bump(d, key.s, delta) else d
  }

  /** The scores after adjusting by the source (or topic) of the record found, if any. */
  function AdjustBy(d: Dict<string, int>, found: Option<Interaction>, tag: Tag, delta: int): Dict<string, int> {
    match found
    case None => d
    case Some(h) => Adjust(d, Field(h, tag), delta)
  }

  /** Adjusting by a found record changes no key but that record's source (or topic). */
  lemma AdjustByFrame(d: Dict<string, int>, found: Option<Interaction>, tag: Tag, delta: int)
    ensures forall k :: !(found.Some? && FieldTruthy(Field(found.value, tag)) && k == Field(found.value, tag).s) ==>
      Get(AdjustBy(d, found, tag, delta), k) == Get(d, k)
  {
    if found.Some? && FieldTruthy(Field(found.value, tag)) {
      var key := Field(found.value, tag).s;
      PutGet(d, key, GetOr(d, key, 0) + delta);
    }
  }

  /** The scores after adjusting by the most recent interaction with `url` in `xs`, if any. */
  function AdjustByLatest(d: Dict<string, int>, xs: seq<Interaction>, url: string, tag: Tag, delta: int): Dict<string, int> {
    AdjustBy(d, LatestWithUrl(xs, url), tag, delta)
  }

  /** Adjusting scores never stores a key twice. */
  lemma AdjustByLatestUnique(d: Dict<string, int>, xs: seq<Interaction>, url: string, tag: Tag, delta: int)
    requires UniqueKeys(d)
    ensures UniqueKeys(AdjustByLatest(d, xs, url, tag, delta))
  {
    match LatestWithUrl(xs, url)
    case None =>
    case Some(h) =>
      var k := Field(h, tag);
      if FieldTruthy(k) {
        PutKeys(d, k.s, GetOr(d, k.s, 0) + delta);
      }
  }

  /**
   * The state after `log_article_feedback` as written: the feedback record
   * is appended first and the scan for the article's source and topic runs
   * over the log that already holds it.
   */
  function AfterFeedback(p: Prefs, url: string, liked: bool, now: string): Prefs {
    var xs := p.interactions + [FeedbackRecord(url, liked, now)];
    Prefs(
      xs,
      AdjustByLatest(p.sourceScores, xs, url, BySource, FeedbackDelta(liked)),
      AdjustByLatest(p.topicWeights, xs, url, ByTopic, FeedbackDelta(liked)),
      p.articleHistory,
      p.metadata.(totalInteractions := p.metadata.totalInteractions + 1, lastUpdated := Str(now)))
  }

  /**
   * As written, feedback never moves a score: the scan meets the record just
   * appended, which has the same url and neither source nor topic, and stops.
   */
  lemma FeedbackLeavesScores(p: Prefs, url: string, liked: bool, now: string)
    ensures AfterFeedback(p, url, liked, now).sourceScores == p.sourceScores
    ensures AfterFeedback(p, url, liked, now).topicWeights == p.topicWeights
    ensures AfterFeedback(p, url, liked, now).articleHistory == p.articleHistory
    ensures AfterFeedback(p, url, liked, now).interactions == p.interactions + [FeedbackRecord(url, liked, now)]
    ensures Counted(p) ==> Counted(AfterFeedback(p, url, liked, now))
  {
    var xs := p.interactions + [FeedbackRecord(url, liked, now)];
    assert LatestWithUrl(xs, url) == Some(FeedbackRecord(url, liked, now));
  }

  /**
   * Feedback as evidently intended: the scan passes over records that name
   * neither a source nor a topic (the feedback records), so it finds the
   * newest click of the article.
   */
  function IntendedFeedback(p: Prefs, url: string, liked: bool, now: string): Prefs {
    var xs := p.interactions + [FeedbackRecord(url, liked, now)];
    var found := LatestWhere(xs, url, true);
    Prefs(
      xs,
      AdjustBy(p.sourceScores, found, BySource, FeedbackDelta(liked)),
      AdjustBy(p.topicWeights, found, ByTopic, FeedbackDelta(liked)),
      p.articleHistory,
      p.metadata.(totalInteractions := p.metadata.totalInteractions + 1, lastUpdated := Str(now)))
  }

  /**
   * With the intended scan, feedback adjusts by the newest earlier record of
   * the url that names a source or topic: +2 for a like and -1 for a dislike
   * on that record's source and topic, nothing when there is no such record.
   * The feedback record itself names neither, so the next feedback on the
   * url finds the same record.
   */
  lemma IntendedFeedbackUsesLatestClick(p: Prefs, url: string, liked: bool, now: string)
    ensures var q := IntendedFeedback(p, url, liked, now);
      var found := LatestWhere(p.interactions, url, true);
      && LatestWhere(q.interactions, url, true) == found
      && (found.None? ==> q.sourceScores == p.sourceScores && q.topicWeights == p.topicWeights)
      && (found.Some? && FieldTruthy(found.value.source) ==>
            GetOr(q.sourceScores, found.value.source.s, 0) ==
            GetOr(p.sourceScores, found.value.source.s, 0) + FeedbackDelta(liked))
      && (found.Some? && FieldTruthy(found.value.topic) ==>
            GetOr(q.topicWeights, found.value.topic.s, 0) ==
            GetOr(p.topicWeights, found.value.topic.s, 0) + FeedbackDelta(liked))
      && (forall s :: !(found.Some? && FieldTruthy(found.value.source) && s == found.value.source.s) ==>
            Get(q.sourceScores, s) == Get(p.sourceScores, s))
      && (forall t :: !(found.Some? && FieldTruthy(found.value.topic) && t == found.value.topic.s) ==>
            Get(q.topicWeights, t) == Get(p.topicWeights, t))
  {
    var xs := p.interactions + [FeedbackRecord(url, liked, now)];
    assert xs[..|xs| - 1] == p.interactions;
    var found := LatestWhere(p.interactions, url, true);
    assert LatestWhere(xs, url, true) == found;
    AdjustByFrame(p.sourceScores, found, BySource, FeedbackDelta(liked));
    AdjustByFrame(p.topicWeights, found, ByTopic, FeedbackDelta(liked));
    if found.Some? {
      var h := found.value;
      if FieldTruthy(h.source) {
        BumpGet(p.sourceScores, h.source.s, FeedbackDelta(liked));
      }
      if FieldTruthy(h.topic) {
        BumpGet(p.topicWeights, h.topic.s, FeedbackDelta(liked));
      }
    }
  }

  /**
   * With the intended scan, liking an article just clicked raises its source
   * score and topic weight by 2, and disliking it lowers both by 1.
   */
  lemma IntendedFeedbackAfterClick(p: Prefs, url: string, topic: string, source: string, sentiment: string,
                                   now: string, liked: bool, later: string)
    requires topic != "" && source != ""
    ensures var clicked := AfterClick(p, url, topic, source, sentiment, now);
      var q := IntendedFeedback(clicked, url, liked, later);
      && GetOr(q.sourceScores, source, 0) == GetOr(clicked.sourceScores, source, 0) + FeedbackDelta(liked)
      && GetOr(q.topicWeights, topic, 0) == GetOr(clicked.topicWeights, topic, 0) + FeedbackDelta(liked)
  {
    var clicked := AfterClick(p, url, topic, source, sentiment, now);
    assert LatestWhere(clicked.interactions, url, true) == Some(ClickRecord(url, topic, source, sentiment, now));
    IntendedFeedbackUsesLatestClick(clicked, url, liked, later);
  }

  /**
   * With the intended scan, two rounds of feedback after a click both count:
   * the second finds the click again, not the first feedback record.
   */
  lemma IntendedFeedbackTwiceAfterClick(p: Prefs, url: string, topic: string, source: string, sentiment: string,
                                        now: string, liked1: bool, t1: string, liked2: bool, t2: string)
    requires topic != "" && source != ""
    ensures var clicked := AfterClick(p, url, topic, source, sentiment, now);
      var q := IntendedFeedback(IntendedFeedback(clicked, url, liked1, t1), url, liked2, t2);
      && GetOr(q.sourceScores, source, 0) ==
         GetOr(clicked.sourceScores, source, 0) + FeedbackDelta(liked1) + FeedbackDelta(liked2)
      && GetOr(q.topicWeights, topic, 0) ==
         GetOr(clicked.topicWeights, topic, 0) + FeedbackDelta(liked1) + FeedbackDelta(liked2)
  {
    var clicked := AfterClick(p, url, topic, source, sentiment, now);
    var q1 := IntendedFeedback(clicked, url, liked1, t1);
    assert LatestWhere(clicked.interactions, url, true) == Some(ClickRecord(url, topic, source, sentiment, now));
    IntendedFeedbackUsesLatestClick(clicked, url, liked1, t1);
    IntendedFeedbackUsesLatestClick(q1, url, liked2, t2);
  }

  /** `d[k] = d.get(k, 0) + delta` adds `delta` to what `d.get(k, 0)` reports. */
  lemma BumpGet(d: Dict<string, int>, k: string, delta: int)
    ensures GetOr(Bump(d, k, delta), k, 0) == GetOr(d, k, 0) + delta
  {
    PutGet(d, k, GetOr(d, k, 0) + delta);
  }

  /** As written, the same like after the same click leaves both scores where the click put them. */
  lemma FeedbackAfterClickIgnored(p: Prefs, url: string, topic: string, source: string, sentiment: string,
                                  now: string, liked: bool, later: string)
    ensures var clicked := AfterClick(p, url, topic, source, sentiment, now);
      var q := AfterFeedback(clicked, url, liked, later);
      && GetOr(q.sourceScores, source, 0) == GetOr(clicked.sourceScores, source, 0)
      && GetOr(q.topicWeights, topic, 0) == GetOr(clicked.topicWeights, topic, 0)
  {
    FeedbackLeavesScores(AfterClick(p, url, topic, source, sentiment, now), url, liked, later);
  }

  // ------------------------------------------------------------ scoring

  /** `source.get('name', 'Unknown')` for a dict, the raw value otherwise; `None` is Python's `None`. */
  function SourceName(a: Article): Option<string> {
    match a.source
    case SourceMissing => Some("Unknown")
    case SourceNull => None
    case SourceDict(name) => FieldOr(name, "Unknown")
    case SourceText(raw) => Some(raw)
  }

  /** `article.get('title', '').lower()` raises on a `null` title. */
  predicate Rankable(a: Article) {
    !a.title.Null?
  }

  function LoweredTitle(a: Article): string
    requires Rankable(a)
  {
    Lower(FieldOr(a.title, "").value)
  }

  /** The topic term: `weight * 5` for every stored topic whose lower-cased form occurs in the title. */
  function TopicTerm(weights: Dict<string, int>, loweredTitle: string): int {
    if weights == [] then 0
    else
      var e := weights[|weights| - 1];
      TopicTerm(weights[..|weights| - 1], loweredTitle) + (if Contains(loweredTitle, Lower(e.0)) then e.1 * 5 else 0)
  }

  /** `any(h['url'] == url for h in article_history)`. */
  predicate Seen(history: seq<HistoryEntry>, url: OptStr) {
    exists h :: h in history && url == Str(h.url)
  }

  /** `get_source_score(source_name)`; Python's `None` is never a key. */
  function SourceScoreOf(scores: Dict<string, int>, a: Article): int {
    match SourceName(a)
    case None => 0
    case Some(n) => GetOr(scores, n, 0)
  }

  /** The history term: -100 once if the url was read. */
  function HistoryTerm(history: seq<HistoryEntry>, url: OptStr): int {
    if Seen(history, url) then -100 else 0
  }

  /** The score `rank_articles` gives one article: source, topic and history terms. */
  function ArticleScore(p: Prefs, a: Article): int
    requires Rankable(a)
  {
    SourceScoreOf(p.sourceScores, a) * 10 + TopicTerm(p.topicWeights, LoweredTitle(a)) + HistoryTerm(p.articleHistory, a.url)
  }

  /** An article already read scores exactly 100 less than the same article under an unread url. */
  lemma ReadPenalty(p: Prefs, a: Article, read: string, unread: string)
    requires Rankable(a)
    requires Seen(p.articleHistory, Str(read)) && !Seen(p.articleHistory, Str(unread))
    ensures ArticleScore(p, a.(url := Str(read))) == ArticleScore(p, a.(url := Str(unread))) - 100
  {
  }

  /** Replacing one topic entry changes the topic term by that entry's contribution only. */
  lemma {:induction false} TopicTermReplace(d: Dict<string, int>, i: nat, e: (string, int), title: string)
    requires i < |d|
    ensures TopicTerm(d[i := e], title) ==
      TopicTerm(d, title)
      - (if Contains(title, Lower(d[i].0)) then d[i].1 * 5 else 0)
      + (if Contains(title, Lower(e.0)) then e.1 * 5 else 0)
  {
    var n := |d| - 1;
    assert d[i := e][..n] == if i < n then d[..n][i := e] else d[..n];
    if i < n {
      TopicTermReplace(d[..n], i, e, title);
    }
  }

  /**
   * Raising a topic's stored weight by `delta` raises the topic term of a
   * title that mentions the topic by `5 * delta` (a new topic counts as 0
   * before), and leaves other titles' terms alone.
   */
  lemma TopicTermBump(d: Dict<string, int>, topic: string, delta: int, title: string)
    requires UniqueKeys(d)
    ensures TopicTerm(Bump(d, topic, delta), title) ==
      TopicTerm(d, title) + (if Contains(title, Lower(topic)) then 5 * delta else 0)
  {
    var i := IndexOf(d, topic);
    var r := Bump(d, topic, delta);
    IndexOfKeys(d, topic);
    if i < |d| {
      assert r == d[i := (topic, d[i].1 + delta)];
      TopicTermReplace(d, i, (topic, d[i].1 + delta), title);
    } else {
      assert r == d + [(topic, delta)];
      assert r[..|d|] == d;
    }
  }

  /**
   * What a click teaches the ranker: every article from the clicked source
   * gains 10, every article whose title mentions the clicked topic gains 5,
   * and the clicked url, if it was not read before, loses 100.
   */
  lemma ClickEffectOnScore(p: Prefs, url: string, topic: string, source: string, sentiment: string,
                           now: string, a: Article)
    requires WellFormed(p) && Rankable(a)
    ensures ArticleScore(AfterClick(p, url, topic, source, sentiment, now), a) ==
      ArticleScore(p, a)
      + (if SourceName(a) == Some(source) then 10 else 0)
      + (if Contains(LoweredTitle(a), Lower(topic)) then 5 else 0)
      - (if a.url == Str(url) && !Seen(p.articleHistory, a.url) then 100 else 0)
  {
    var q := AfterClick(p, url, topic, source, sentiment, now);
    TopicTermBump(p.topicWeights, topic, 1, LoweredTitle(a));
    SeenAfterClick(p, url, topic, source, sentiment, now, a.url);
    SourceScoreAfterBump(p.sourceScores, source, a);
    assert HistoryTerm(q.articleHistory, a.url) ==
      HistoryTerm(p.articleHistory, a.url) - (if a.url == Str(url) && !Seen(p.articleHistory, a.url) then 100 else 0);
  }

  /** Adding one to a source's score adds one to the source score of exactly that source's articles. */
  lemma SourceScoreAfterBump(scores: Dict<string, int>, source: string, a: Article)
    ensures SourceScoreOf(Bump(scores, source, 1), a) ==
      SourceScoreOf(scores, a) + (if SourceName(a) == Some(source) then 1 else 0)
  {
    PutGet(scores, source, GetOr(scores, source, 0) + 1);
  }

  /** After a click, the read urls are the earlier ones and the clicked one. */
  lemma SeenAfterClick(p: Prefs, url: string, topic: string, source: string, sentiment: string,
                       now: string, u: OptStr)
    ensures Seen(AfterClick(p, url, topic, source, sentiment, now).articleHistory, u) <==>
      Seen(p.articleHistory, u) || u == Str(url)
  {
    var q := AfterClick(p, url, topic, source, sentiment, now);
    if u == Str(url) {
      assert HistoryEntry(url, now) in q.articleHistory;
    }
    if Seen(p.articleHistory, u) {
      var h :| h in p.articleHistory && u == Str(h.url);
      assert h in q.articleHistory;
    }
    if Seen(q.articleHistory, u) {
      var h :| h in q.articleHistory && u == Str(h.url);
      assert h in p.articleHistory || h == HistoryEntry(url, now);
    }
  }

  /**
   * A click on a topic not stored yet stores weight 1, which `get_topic_weight`
   * already reported for it: the topic's reported weight does not change.
   */
  lemma ClickOnNewTopicKeepsReportedWeight(p: Prefs, url: string, topic: string, source: string,
                                           sentiment: string, now: string)
    requires Get(p.topicWeights, topic).None?
    ensures GetOr(AfterClick(p, url, topic, source, sentiment, now).topicWeights, topic, 1) == 1
    ensures GetOr(p.topicWeights, topic, 1) == 1
  {
  }

  /** The scored articles in input order. */
  function ScoreAll(p: Prefs, articles: seq<Article>): (r: seq<Scored<Article>>)
    requires forall a :: a in articles ==> Rankable(a)
    ensures |r| == |articles|
    ensures forall i :: 0 <= i < |articles| ==> r[i] == Scored(ArticleScore(p, articles[i]), articles[i])
  {
    seq(|articles|, i requires 0 <= i < |articles| => Scored(ArticleScore(p, articles[i]), articles[i]))
  }

  /** `rank_articles`: the scored articles, best first, ties in input order. */
  function Ranked(p: Prefs, articles: seq<Article>): seq<Scored<Article>>
    requires forall a :: a in articles ==> Rankable(a)
  {
    SortDesc(ScoreAll(p, articles))
  }

  /**
   * The ranking is a permutation of the scored input in non-increasing score
   * order, each article paired with its own score, and articles with equal
   * scores stay in input order.
   */
  lemma RankedSpec(p: Prefs, articles: seq<Article>)
    requires forall a :: a in articles ==> Rankable(a)
    ensures |Ranked(p, articles)| == |articles|
    ensures multiset(Ranked(p, articles)) == multiset(ScoreAll(p, articles))
    ensures NonIncreasing(Ranked(p, articles))
    ensures forall x :: x in Ranked(p, articles) ==> x.item in articles && x.score == ArticleScore(p, x.item)
    ensures forall v :: WithScore(Ranked(p, articles), v) == WithScore(ScoreAll(p, articles), v)
  {
    forall x | x in Ranked(p, articles) ensures x.item in articles && x.score == ArticleScore(p, x.item) {
      assert x in multiset(ScoreAll(p, articles));
      assert x in ScoreAll(p, articles);
    }
  }

  /** `get_personalized_articles`: the articles of the first `maxCount` ranked pairs. */
  function Personalized(p: Prefs, articles: seq<Article>, maxCount: int): seq<Article>
    requires forall a :: a in articles ==> Rankable(a)
  {
    Items(PyTake(Ranked(p, articles), maxCount))
  }

  /** The personalised selection holds `maxCount` articles (or all of them), in ranked order. */
  lemma PersonalizedSpec(p: Prefs, articles: seq<Article>, maxCount: int)
    requires forall a :: a in articles ==> Rankable(a)
    ensures 0 <= maxCount ==> |Personalized(p, articles, maxCount)| == Min(maxCount, |articles|)
    ensures Personalized(p, articles, maxCount) ==
      Items(Ranked(p, articles))[..|Personalized(p, articles, maxCount)|]
  {
    var ranked := Ranked(p, articles);
    var top := PyTake(ranked, maxCount);
    assert Items(top) == Items(ranked)[..|top|];
  }

  /** No article left out of the personalised selection scores higher than one selected. */
  lemma PersonalizedDominates(p: Prefs, articles: seq<Article>, maxCount: int)
    requires forall a :: a in articles ==> Rankable(a)
    ensures forall x, y ::
      (x in multiset(ScoreAll(p, articles)) - multiset(PyTake(Ranked(p, articles), maxCount))
       && y in PyTake(Ranked(p, articles), maxCount)) ==> y.score >= x.score
  {
    var scored := ScoreAll(p, articles);
    var top := PyTake(SortDesc(scored), maxCount);
    assert top == SortDesc(scored)[..|top|];
    PrefixDominates(scored, |top|);
  }

  /** The example of a source score of 5, a topic weight of 3 and one read url. */
  lemma RankingExample()
    ensures var p := Prefs([], [("TechCrunch", 5)], [("ai", 3)], [HistoryEntry("u1", "")], Metadata("", 0, Null));
      var a := Article(Str("AI breakthrough"), Missing, Missing, Str("u2"), SourceDict(Str("TechCrunch")));
      ArticleScore(p, a) == 65 && ArticleScore(p, a.(url := Str("u1"))) == -35
  {
    var title := Lower("AI breakthrough");
    assert title == "ai breakthrough";
    assert Lower("ai") == "ai";
    assert StartsWith(title, "ai");
    var p := Prefs([], [("TechCrunch", 5)], [("ai", 3)], [HistoryEntry("u1", "")], Metadata("", 0, Null));
    assert !Seen(p.articleHistory, Str("u2"));
    assert HistoryEntry("u1", "") in p.articleHistory;
  }

  // ------------------------------------------------------------ insights

  datatype Status = NotStarted | Learning | Active

  /** The personalisation status of the insights report. */
  function StatusOf(totalInteractions: int): (st: Status)
    ensures st == Active <==> totalInteractions > 10
    ensures st == Learning <==> 0 < totalInteractions <= 10
    ensures st == NotStarted <==> totalInteractions <= 0
  {
    if totalInteractions > 10 then Active
    else if totalInteractions > 0 then Learning
    else NotStarted
  }

  function Level(st: Status): nat {
    match st
    case NotStarted => 0
    case Learning => 1
    case Active => 2
  }

  /** More interactions never lower the status. */
  lemma StatusMonotone(t: int, t': int)
    requires t <= t'
    ensures Level(StatusOf(t)) <= Level(StatusOf(t'))
  {
  }

  /** A dict's items as (value, key) pairs, in dict order. */
  function AsScored(d: Dict<string, int>): (r: seq<Scored<string>>)
    ensures |r| == |d|
    ensures forall i :: 0 <= i < |d| ==> r[i] == Scored(d[i].1, d[i].0)
  {
    seq(|d|, i requires 0 <= i < |d| => Scored(d[i].1, d[i].0))
  }

  /** `sorted(d.items(), key=value, reverse=True)[:5]`. */
  function TopEntries(d: Dict<string, int>): seq<Scored<string>> {
    PyTake(SortDesc(AsScored(d)), 5)
  }

  /** The top-five list has five entries (or all of them), highest value first. */
  lemma TopEntriesShape(d: Dict<string, int>)
    ensures |TopEntries(d)| == Min(5, |d|)
    ensures NonIncreasing(TopEntries(d))
  {
  }

  /** Every listed entry is an entry of the dict. */
  lemma TopEntriesFromDict(d: Dict<string, int>)
    ensures forall x :: x in TopEntries(d) ==> (x.item, x.score) in d
  {
    forall x | x in TopEntries(d) ensures (x.item, x.score) in d {
      assert x in SortDesc(AsScored(d));
      assert x in multiset(AsScored(d));
      var i :| 0 <= i < |d| && AsScored(d)[i] == x;
      assert d[i] == (x.item, x.score);
    }
  }

  /** No entry left out of the list has a higher value than one listed. */
  lemma TopEntriesDominate(d: Dict<string, int>)
    ensures forall x, y :: x in multiset(AsScored(d)) - multiset(TopEntries(d)) && y in TopEntries(d) ==>
      y.score >= x.score
  {
    var top := TopEntries(d);
    assert top == SortDesc(AsScored(d))[..|top|];
    PrefixDominates(AsScored(d), |top|);
  }

  /** Entries with equal values are listed in dict order. */
  lemma TopEntriesStable(d: Dict<string, int>, v: int)
    ensures IsPrefix(WithScore(TopEntries(d), v), WithScore(AsScored(d), v))
  {
    var sorted := SortDesc(AsScored(d));
    WithScoreSplit(sorted, |TopEntries(d)|, v);
  }

  /** One line of the recent-activity section. */
  datatype ActivityLine = ActivityLine(date: string, action: string, topic: string)

  /** `interaction.get('timestamp', '')[:10]` raises on a `null` timestamp. */
  predicate Reportable(x: Interaction) {
    !x.timestamp.Null?
  }

  function ActivityOf(x: Interaction): ActivityLine
    requires Reportable(x)
  {
    ActivityLine(
      PyTake(FieldOr(x.timestamp, "").value, 10),
      Format(FieldOr(x.action, "unknown")),
      Format(FieldOr(x.topic, "N/A")))
  }

  /** The recent-activity section: the last three interactions (or fewer), oldest first. */
  function RecentActivity(xs: seq<Interaction>): (r: seq<ActivityLine>)
    requires forall x :: x in PyLast(xs, 3) ==> Reportable(x)
    ensures |r| == Min(3, |xs|)
    ensures forall i :: 0 <= i < |r| ==> r[i] == ActivityOf(xs[|xs| - |r| + i])
  {
    var last := PyLast(xs, 3);
    seq(|last|, i requires 0 <= i < |last| => ActivityOf(last[i]))
  }

  /** What `generate_insights_report` reports, before formatting. */
  datatype Insights = Insights(
    totalInteractions: int,
    articlesRead: nat,
    lastUpdated: string,
    topSources: seq<Scored<string>>,
    topTopics: seq<Scored<string>>,
    recent: seq<ActivityLine>,
    status: Status)

  /** `get('last_updated', 'Never')[:10]` raises when the value is `null`, and so do `null` timestamps. */
  predicate CanReport(p: Prefs) {
    && !p.metadata.lastUpdated.Null?
    && forall x :: x in PyLast(p.interactions, 3) ==> Reportable(x)
  }

  function InsightsOf(p: Prefs): (r: Insights)
    requires CanReport(p)
    ensures r.status == StatusOf(p.metadata.totalInteractions)
    ensures |r.topSources| <= 5 && |r.topTopics| <= 5 && |r.recent| <= 3
    ensures r.articlesRead == |p.articleHistory|
  {
    Insights(
      p.metadata.totalInteractions,
      |p.articleHistory|,
      PyTake(FieldOr(p.metadata.lastUpdated, "Never").value, 10),
      TopEntries(p.sourceScores),
      TopEntries(p.topicWeights),
      RecentActivity(p.interactions),
      StatusOf(p.metadata.totalInteractions))
  }
}
