/**
 * The feedback tracker object: the learning state held in memory, the file
 * it is saved to (a ghost copy of the last saved state), and the operations
 * that log clicks and feedback and rank articles with what was learned.
 */
module Feedback {
  import opened Wrappers
  import opened Json
  import opened Articles
  import opened OrderedDict
  import opened StableSort
  import opened PySeq
  import opened Text
  import opened Preferences

  class FeedbackTracker {
    var interactions: seq<Interaction>
    var sourceScores: Dict<string, int>
    var topicWeights: Dict<string, int>
    var articleHistory: seq<HistoryEntry>
    var created: string
    var totalInteractions: int
    var lastUpdated: OptStr
    /** What the preferences file holds; `None` while there is no file. */
    ghost var persisted: Option<StoredFile>

    /** The in-memory preferences record. */
    function State(): Prefs
      reads this
    {
      Prefs(interactions, sourceScores, topicWeights, articleHistory, Metadata(created, totalInteractions, lastUpdated))
    }

    predicate Valid()
      reads this
    {
      WellFormed(State())
    }

    /**
     * Loads the preferences file: no file gives a fresh empty state, a
     * structured file is taken as it is, and a legacy line-per-record file
     * is migrated (and saved in the new format).
     */
    constructor (file: Option<StoredFile>, now: string)
      requires file.Some? && file.value.Structured? ==> WellFormed(file.value.prefs)
      ensures Valid()
      ensures file.None? ==>
        && interactions == [] && sourceScores == [] && topicWeights == [] && articleHistory == []
        && created == now && totalInteractions == 0 && lastUpdated == Null
        && persisted == None
      ensures file.Some? && file.value.Structured? ==> State() == file.value.prefs && persisted == file
      ensures file.Some? && file.value.LineDelimited? ==>
        State() == Migrated(file.value.lines, now) && persisted == Some(Structured(State()))
    {
      interactions := [];
      sourceScores := [];
      topicWeights := [];
      articleHistory := [];
      created := now;
      totalInteractions := 0;
      lastUpdated := Null;
      persisted := file;
      new;
      if file.Some? {
        match file.value
        case Structured(p) =>
          interactions := p.interactions;
          sourceScores := p.sourceScores;
          topicWeights := p.topicWeights;
          articleHistory := p.articleHistory;
          created := p.metadata.created;
          totalInteractions := p.metadata.totalInteractions;
          lastUpdated := p.metadata.lastUpdated;
        case LineDelimited(lines) =>
          MigrateOldFormat(lines, now);
          MigratedSpec(lines, now);
      }
    }

    /** Rebuilds the state from the parsed lines of a legacy file and saves it. */
    method MigrateOldFormat(lines: seq<Option<Interaction>>, now: string)
      modifies this
      ensures State() == Migrated(lines, now)
      ensures persisted == Some(Structured(State()))
    {
      var xs := ParseLines(lines);
      var scores, weights := ScoreInteractions(xs);
      interactions := xs;
      sourceScores := scores;
      topicWeights := weights;
      articleHistory := [];
      created := now;
      totalInteractions := |xs|;
      lastUpdated := Str(now);
      Save(now);
    }

    /** The migration's reading loop: the lines that parse, in file order. */
    static method ParseLines(lines: seq<Option<Interaction>>) returns (xs: seq<Interaction>)
      ensures xs == Parsed(lines)
    {
      xs := [];
      for i := 0 to |lines|
        invariant xs == Parsed(lines[..i])
      {
        assert lines[..i + 1][..i] == lines[..i];
        if lines[i].Some? {
          xs := xs + [lines[i].value];
        }
      }
      assert lines[..|lines|] == lines;
    }

    /** The migration's scoring loop over the migrated interactions. */
    static method ScoreInteractions(xs: seq<Interaction>) returns (scores: Dict<string, int>, weights: Dict<string, int>)
      ensures scores == Tally(xs, BySource)
      ensures weights == Tally(xs, ByTopic)
    {
      scores := [];
      weights := [];
      for i := 0 to |xs|
        invariant scores == Tally(xs[..i], BySource)
        invariant weights == Tally(xs[..i], ByTopic)
      {
        assert xs[..i + 1][..i] == xs[..i];
        scores := TallyStep(scores, xs[i].source);
        weights := TallyStep(weights, xs[i].topic);
      }
      assert xs[..|xs|] == xs;
    }

    /** Stamps the state with the save time and writes it to the file. */
    method Save(now: string)
      modifies this
      ensures lastUpdated == Str(now)
      ensures interactions == old(interactions) && sourceScores == old(sourceScores)
      ensures topicWeights == old(topicWeights) && articleHistory == old(articleHistory)
      ensures created == old(created) && totalInteractions == old(totalInteractions)
      ensures persisted == Some(Structured(State()))
    {
      lastUpdated := Str(now);
      persisted := Some(Structured(State()));
    }

    /** Records that the user opened an article. */
    method LogArticleClick(url: string, topic: string, source: string, sentiment: string, now: string)
      returns (interaction: Interaction)
      requires Valid()
      modifies this
      ensures Valid()
      ensures interaction == ClickRecord(url, topic, source, sentiment, now)
      ensures State() == AfterClick(old(State()), url, topic, source, sentiment, now)
      ensures persisted == Some(Structured(State()))
    {
      ghost var before := State();
      ClickKeepsWellFormed(before, url, topic, source, sentiment, now);
      interaction := ClickRecord(url, topic, source, sentiment, now);
      interactions := interactions + [interaction];
      totalInteractions := totalInteractions + 1;
      sourceScores := Bump(sourceScores, source, 1);
      topicWeights := Bump(topicWeights, topic, 1);
      articleHistory := articleHistory + [HistoryEntry(url, now)];
      Save(now);
    }

    /** Records a thumbs up or down for an article. */
    method LogArticleFeedback(url: string, liked: bool, now: string) returns (interaction: Interaction)
      requires Valid()
      modifies this
      ensures Valid()
      ensures interaction == FeedbackRecord(url, liked, now)
      ensures State() == AfterFeedback(old(State()), url, liked, now)
      ensures persisted == Some(Structured(State()))
    {
      interaction := FeedbackRecord(url, liked, now);
      interactions := interactions + [interaction];
      totalInteractions := totalInteractions + 1;
      ApplyLatestFeedback(url, FeedbackDelta(liked));
      Save(now);
    }

    /**
     * Scans the log from the newest interaction back for the first one with
     * this url; 0 when there is none, otherwise one past its position.
     */
    method FindLatest(url: string) returns (i: nat)
      ensures i <= |interactions|
      ensures i == 0 ==> LatestWithUrl(interactions, url) == None
      ensures i > 0 ==> LatestWithUrl(interactions, url) == Some(interactions[i - 1])
      ensures i > 0 ==> interactions[i - 1].url == Str(url)
      ensures forall j :: i <= j < |interactions| ==> interactions[j].url != Str(url)
    {
      i := |interactions|;
      assert interactions[..i] == interactions;
      while i > 0 && interactions[i - 1].url != Str(url)
        invariant i <= |interactions|
        invariant LatestWithUrl(interactions, url) == LatestWithUrl(interactions[..i], url)
        invariant forall j :: i <= j < |interactions| ==> interactions[j].url != Str(url)
      {
        assert interactions[..i][..i - 1] == interactions[..i - 1];
        i := i - 1;
      }
      if i > 0 {
        assert interactions[..i][..i - 1] == interactions[..i - 1];
      }
    }

    /** Adjusts the scores of the source and topic of the most recent interaction with `url` by `delta`. */
    method ApplyLatestFeedback(url: string, delta: int)
      requires Valid()
      modifies this
      ensures Valid()
      ensures sourceScores == AdjustByLatest(old(sourceScores), interactions, url, BySource, delta)
      ensures topicWeights == AdjustByLatest(old(topicWeights), interactions, url, ByTopic, delta)
      ensures interactions == old(interactions) && articleHistory == old(articleHistory)
      ensures created == old(created) && totalInteractions == old(totalInteractions)
      ensures lastUpdated == old(lastUpdated) && persisted == old(persisted)
    {
      AdjustByLatestUnique(sourceScores, interactions, url, BySource, delta);
      AdjustByLatestUnique(topicWeights, interactions, url, ByTopic, delta);
      var i := FindLatest(url);
      if i > 0 {
        var h := interactions[i - 1];
        if FieldTruthy(h.source) {
          sourceScores := Bump(sourceScores, h.source.s, delta);
        }
        if FieldTruthy(h.topic) {
          topicWeights := Bump(topicWeights, h.topic.s, delta);
        }
      }
    }

    /** How much the user prefers a source; 0 for a source never scored. */
    function GetSourceScore(name: string): (score: int)
      reads this
      ensures name in Keys(sourceScores) ==> (name, score) in sourceScores
      ensures name in Keys(sourceScores) ==> Get(sourceScores, name) == Some(score)
      ensures name !in Keys(sourceScores) ==> score == 0
    {
      IndexOfKeys(sourceScores, name);
      GetOr(sourceScores, name, 0)
    }

    /** How interested the user is in a topic; 1 for a topic never weighted. */
    function GetTopicWeight(topic: string): (weight: int)
      reads this
      ensures topic in Keys(topicWeights) ==> (topic, weight) in topicWeights
      ensures topic in Keys(topicWeights) ==> Get(topicWeights, topic) == Some(weight)
      ensures topic !in Keys(topicWeights) ==> weight == 1
    {
      IndexOfKeys(topicWeights, topic);
      GetOr(topicWeights, topic, 1)
    }

    /** Scores every article and orders them best first. */
    method RankArticles(articles: seq<Article>) returns (ranked: seq<Scored<Article>>)
      requires forall a :: a in articles ==> Rankable(a)
      ensures ranked == Ranked(State(), articles)
    {
      var scored: seq<Scored<Article>> := [];
      for i := 0 to |articles|
        invariant |scored| == i
        invariant forall k :: 0 <= k < i ==> scored[k] == Scored(ArticleScore(State(), articles[k]), articles[k])
      {
        var article := articles[i];
        var name := SourceName(article);
        var sourceScore := if name.Some? then GetSourceScore(name.value) else 0;
        var score := sourceScore * 10;
        var title := LoweredTitle(article);
        for j := 0 to |topicWeights|
          invariant score == sourceScore * 10 + TopicTerm(topicWeights[..j], title)
        {
          assert topicWeights[..j + 1][..j] == topicWeights[..j];
          var (topic, weight) := topicWeights[j];
          if Contains(title, Lower(topic)) {
            score := score + weight * 5;
          }
        }
        assert topicWeights[..|topicWeights|] == topicWeights;
        if Seen(articleHistory, article.url) {
          score := score - 100;
        }
        scored := scored + [Scored(score, article)];
      }
      assert scored == ScoreAll(State(), articles);
      ranked := SortDesc(scored);
    }

    /** The best `maxCount` articles for this user. */
    method GetPersonalizedArticles(articles: seq<Article>, maxCount: int) returns (chosen: seq<Article>)
      requires forall a :: a in articles ==> Rankable(a)
      ensures chosen == Personalized(State(), articles, maxCount)
    {
      var ranked := RankArticles(articles);
      chosen := Items(PyTake(ranked, maxCount));
    }

    /** Whether an article scores at least `threshold`. */
    method ShouldIncludeArticle(article: Article, threshold: int) returns (accepted: bool)
      requires Rankable(article)
      ensures accepted <==> ArticleScore(State(), article) >= threshold
    {
      var scored := RankArticles([article]);
      RankedSpec(State(), [article]);
      assert scored[0] in multiset(scored);
      accepted := scored[0].score >= threshold;
    }

    /** The facts the insights report shows, before formatting. */
    method GenerateInsightsReport() returns (report: Insights)
      requires CanReport(State())
      ensures report == InsightsOf(State())
    {
      var recent: seq<ActivityLine> := [];
      var last := PyLast(interactions, 3);
      for i := 0 to |last|
        invariant |recent| == i
        invariant forall k :: 0 <= k < i ==> recent[k] == ActivityOf(last[k])
      {
        recent := recent + [ActivityOf(last[i])];
      }
      assert recent == RecentActivity(interactions);
      var status: Status;
      if totalInteractions > 10 {
        status := Active;
      } else if totalInteractions > 0 {
        status := Learning;
      } else {
        status := NotStarted;
      }
      report := Insights(
        totalInteractions,
        |articleHistory|,
        PyTake(FieldOr(lastUpdated, "Never").value, 10),
        TopEntries(sourceScores),
        TopEntries(topicWeights),
        recent,
        status);
    }
  }
}
