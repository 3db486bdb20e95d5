/**
 * The article pipeline around the summariser: de-duplication by url
 * (app.py and news_digest_agent.py build `{art['url']: art for art in
 * all_articles}` and keep its first `max_articles` values) and the text the
 * command-line agent summarises (`description + " " + content`).
 */
module Digest {
  import opened Wrappers
  import opened Json
  import opened Articles
  import opened OrderedDict
  import opened PySeq
  import opened Summarizer

  /** `art['url']` raises `KeyError` on an article without a url key. */
  predicate HaveUrls(arts: seq<Article>) {
    forall a :: a in arts ==> !a.url.Missing?
  }

  function Urls(arts: seq<Article>): (u: seq<OptStr>)
    ensures |u| == |arts|
    ensures forall i :: 0 <= i < |arts| ==> u[i] == arts[i].url
  {
    seq(|arts|, i requires 0 <= i < |arts| => arts[i].url)
  }

  /** `{art['url']: art for art in arts}`: one dict write per article, in order. */
  function ByUrl(arts: seq<Article>): Dict<OptStr, Article>
    requires HaveUrls(arts)
  {
    if arts == [] then []
    else
      var a := arts[|arts| - 1];
      Put(ByUrl(arts[..|arts| - 1]), a.url, a)
  }

  /** `list({...}.values())`. */
  function Dedup(arts: seq<Article>): seq<Article>
    requires HaveUrls(arts)
  {
    Values(ByUrl(arts))
  }

  /** `list({...}.values())[:max_articles]`. */
  function SelectArticles(arts: seq<Article>, maxArticles: int): seq<Article>
    requires HaveUrls(arts)
  {
    PyTake(Dedup(arts), maxArticles)
  }

  lemma FirstIndexAppend<T>(s: seq<T>, x: T, y: T)
    requires y in s
    ensures FirstIndex(s + [x], y) == FirstIndex(s, y)
  {
    if s[0] != y {
      assert (s + [x])[1..] == s[1..] + [x];
      FirstIndexAppend(s[1..], x, y);
    }
  }

  lemma LastIndexAppend<T>(s: seq<T>, x: T, y: T)
    requires y in s && y != x
    ensures LastIndex(s + [x], y) == LastIndex(s, y)
  {
    assert (s + [x])[..|s|] == s;
  }

  /**
   * The dict built by the comprehension: its keys are the distinct urls,
   * ordered by where each url first occurs, and each url is bound to the
   * last article that carries it.
   */
  lemma {:induction false} ByUrlSpec(arts: seq<Article>)
    requires HaveUrls(arts)
    ensures UniqueKeys(ByUrl(arts))
    ensures forall k :: k in Keys(ByUrl(arts)) <==> k in Urls(arts)
    ensures forall i, j :: 0 <= i < j < |ByUrl(arts)| ==>
      FirstIndex(Urls(arts), ByUrl(arts)[i].0) < FirstIndex(Urls(arts), ByUrl(arts)[j].0)
    ensures forall k :: k in Urls(arts) ==> Get(ByUrl(arts), k) == Some(arts[LastIndex(Urls(arts), k)])
  {
    ByUrlKeys(arts);
    ByUrlOrder(arts);
    ByUrlValues(arts);
  }

  /** The dict's keys are the input urls, each once. */
  lemma {:induction false} ByUrlKeys(arts: seq<Article>)
    requires HaveUrls(arts)
    ensures UniqueKeys(ByUrl(arts))
    ensures forall k :: k in Keys(ByUrl(arts)) <==> k in Urls(arts)
  {
    if arts != [] {
      var init := arts[..|arts| - 1];
      var a := arts[|arts| - 1];
      ByUrlKeys(init);
      assert Urls(arts) == Urls(init) + [a.url];
      PutKeys(ByUrl(init), a.url, a);
    }
  }

  /** The dict's keys stand in the order of their first occurrence in the input. */
  lemma {:induction false} ByUrlOrder(arts: seq<Article>)
    requires HaveUrls(arts)
    ensures forall i, j :: 0 <= i < j < |ByUrl(arts)| ==>
      FirstIndex(Urls(arts), ByUrl(arts)[i].0) < FirstIndex(Urls(arts), ByUrl(arts)[j].0)
  {
    if arts != [] {
      var init := arts[..|arts| - 1];
      var a := arts[|arts| - 1];
      var d := ByUrl(init);
      var d' := ByUrl(arts);
      var u := Urls(init);
      assert Urls(arts) == u + [a.url];
      ByUrlKeys(init);
      ByUrlOrder(init);
      PutKeys(d, a.url, a);
      assert Keys(d') == if a.url in Keys(d) then Keys(d) else Keys(d) + [a.url];
      forall i, j | 0 <= i < j < |d'|
        ensures FirstIndex(Urls(arts), d'[i].0) < FirstIndex(Urls(arts), d'[j].0)
      {
        assert d'[i].0 == Keys(d')[i] && d'[j].0 == Keys(d')[j];
        assert d'[i].0 == Keys(d)[i] == d[i].0;
        assert d[i].0 in Keys(d);
        FirstIndexAppend(u, a.url, d[i].0);
        if j < |d| {
          assert d'[j].0 == Keys(d)[j] == d[j].0;
          assert d[j].0 in Keys(d);
          FirstIndexAppend(u, a.url, d[j].0);
        } else {
          assert d'[j].0 == a.url && a.url !in u;
          assert FirstIndex(Urls(arts), a.url) == |u|;
        }
      }
    }
  }

  /** Each url is bound to the last article that carries it. */
  lemma {:induction false} ByUrlValues(arts: seq<Article>)
    requires HaveUrls(arts)
    ensures forall k :: k in Urls(arts) ==> Get(ByUrl(arts), k) == Some(arts[LastIndex(Urls(arts), k)])
  {
    if arts != [] {
      var init := arts[..|arts| - 1];
      var a := arts[|arts| - 1];
      var u := Urls(init);
      assert Urls(arts) == u + [a.url];
      ByUrlValues(init);
      PutGet(ByUrl(init), a.url, a);
      forall k | k in Urls(arts) ensures Get(ByUrl(arts), k) == Some(arts[LastIndex(Urls(arts), k)]) {
        if k == a.url {
          assert LastIndex(Urls(arts), k) == |u|;
        } else {
          assert k in u;
          LastIndexAppend(u, a.url, k);
          assert arts[LastIndex(u, k)] == init[LastIndex(u, k)];
        }
      }
    }
  }

  /**
   * De-duplication keeps one article per url: no url twice, every url of the
   * input present, urls in order of first occurrence, and for each url the
   * last article that carries it.
   */
  lemma DedupSpec(arts: seq<Article>)
    requires HaveUrls(arts)
    ensures forall i, j :: 0 <= i < j < |Dedup(arts)| ==> Dedup(arts)[i].url != Dedup(arts)[j].url
    ensures forall i :: 0 <= i < |arts| ==> arts[i].url in Urls(Dedup(arts))
    ensures forall i, j :: 0 <= i < j < |Dedup(arts)| ==>
      FirstIndex(Urls(arts), Dedup(arts)[i].url) < FirstIndex(Urls(arts), Dedup(arts)[j].url)
    ensures forall i :: 0 <= i < |Dedup(arts)| ==>
      Dedup(arts)[i].url in Urls(arts) && Dedup(arts)[i] == arts[LastIndex(Urls(arts), Dedup(arts)[i].url)]
  {
    var d := ByUrl(arts);
    var r := Dedup(arts);
    var u := Urls(arts);
    ByUrlSpec(arts);
    forall i | 0 <= i < |r| ensures r[i].url == d[i].0 && r[i].url in u && r[i] == arts[LastIndex(u, r[i].url)] {
      assert d[i].0 in Keys(d);
      IndexOfUnique(d, i);
      assert Get(d, d[i].0) == Some(d[i].1);
    }
    forall i | 0 <= i < |arts| ensures arts[i].url in Urls(r) {
      assert u[i] in u;
      var j :| 0 <= j < |d| && Keys(d)[j] == arts[i].url;
      assert Urls(r)[j] == arts[i].url;
    }
  }

  /** `max_articles` cuts the de-duplicated list to its first entries. */
  lemma SelectArticlesSpec(arts: seq<Article>, maxArticles: int)
    requires HaveUrls(arts)
    ensures IsPrefix(SelectArticles(arts, maxArticles), Dedup(arts))
    ensures 0 <= maxArticles ==> |SelectArticles(arts, maxArticles)| == Min(maxArticles, |Dedup(arts)|)
  {
  }

  /** `f"{description} {content}" if description or content else ""`. */
  function FullText(a: Article): (r: string)
    ensures r == "" <==> !Truthy(FieldOr(a.description, "")) && !Truthy(FieldOr(a.content, ""))
  {
    var description := FieldOr(a.description, "");
    var content := FieldOr(a.content, "");
    if Truthy(description) || Truthy(content) then Format(description) + " " + Format(content) else ""
  }

  /**
   * The text to summarise is the two fields around one space; a field that
   * is `null` contributes the word "None", an absent one nothing.
   */
  lemma FullTextParts(a: Article)
    requires Truthy(FieldOr(a.description, "")) || Truthy(FieldOr(a.content, ""))
    ensures a.description.Str? && a.content.Str? ==> FullText(a) == a.description.s + " " + a.content.s
    ensures a.description.Str? && a.content.Missing? ==> FullText(a) == a.description.s + " "
    ensures a.description.Str? && a.content.Null? ==> FullText(a) == a.description.s + " None"
    ensures a.description.Missing? ==> a.content.Str? && FullText(a) == " " + a.content.s
    ensures a.description.Null? ==> a.content.Str? && FullText(a) == "None " + a.content.s
  {
  }

  /** An article with neither description nor content gets the short-text placeholder. */
  lemma EmptyArticleSummary(a: Article, numSentences: int)
    requires !Truthy(FieldOr(a.description, "")) && !Truthy(FieldOr(a.content, ""))
    ensures AgentSummarize(Some(FullText(a)), numSentences) == "- Article content too short to summarize"
  {
  }
}
