# News digest: summariser, de-duplication and preference learning in Dafny

This project models the logic core of a small news-digest application. The
application fetches articles, removes duplicate urls, summarises each article
with a keyword-based extractive summariser, and learns from the user's clicks
and thumbs up/down which sources and topics to rank higher.

The model has three parts:

- **`FeedbackTracker`** (`feedback_tracker.dfy`, module `Feedback`) is a class.
  - Its fields are the preferences record: the interaction log, the source scores, the topic weights, the reading history and the metadata.
  - A ghost field `persisted` holds what the preferences file contains after the last save.
  - Its methods load, migrate and save the record, log clicks and feedback, rank articles, select and filter them, and build the insights report.
  - Each method is proved against a value-level definition in `preferences.dfy` (module `Preferences`). The properties the tracker promises are lemmas about those definitions.
- **`simple_summarize`** (`summarizer.dfy`) has two copies in the application. They differ only in the short-text placeholder and the bullet, so one definition takes a `Config` and has the two copies as instances. It is built on:
  - the sentence split and Python's `strip` (`text.dfy`);
  - a stable descending insertion sort (`stable_sort.dfy`).
- **The article pipeline** (`digest.dfy`):
  - de-duplication by url through an insertion-ordered dict (`ordered_dict.dfy`);
  - truncation to `max_articles`;
  - the `description + " " + content` text handed to the summariser.

Python values are modelled as follows:

- A dict is an insertion-ordered association list.
- A JSON string field that may be absent or `null` is `OptStr` (`json.dfy`).
- `None` is `Option.None`.
- `s[:k]` (negative `k` included) is `PySeq.PyTake`, and `s[-k:]` is `PySeq.PyLast`.
- Timestamps (`datetime.now().isoformat()`) are a `now` string parameter.
- The file's contents are a `StoredFile` parameter: a structured record, or the lines of the legacy format, each parsed or not.

## Model

| member | source | states |
|---|---|---|
| Feedback.FeedbackTracker.constructor | user_feedback.py:19-44 | without a file the state is empty: no interactions, scores, weights or history, total 0, last_updated None, created at `now`; a structured file is taken as is; a file that is not one JSON document (`LineDelimited`) is migrated and saved |
| Feedback.FeedbackTracker.MigrateOldFormat | user_feedback.py:46-82 | the two loops build exactly `Migrated(lines, now)` (parsed lines in order, tallied scores, empty history, total = count, both dates `now`) and the result is saved |
| Preferences.ParsedKeepsParsableLines | user_feedback.py:49-56 | migration keeps a record exactly when some line of the file parses to it |
| Feedback.FeedbackTracker.ParseLines | user_feedback.py:49-56 | the loop keeps exactly the parsable lines, in file order (`Parsed`) |
| Feedback.FeedbackTracker.ScoreInteractions | user_feedback.py:71-78 | the loop builds the source scores and topic weights as `Tally` of the interactions |
| Preferences.TallyUnique | user_feedback.py:71-78 | the tallied dicts store no key twice |
| Preferences.ParsedInFileOrder | user_feedback.py:52-56 | the migrated interactions follow the file: as many as there are parsable lines, and the k-th is the record on the k-th parsable line |
| Preferences.TallyCounts | user_feedback.py:71-78 | the migrated score of each non-empty source (topic) is the number of interactions naming it; no other key is stored; keys are unique |
| Preferences.MigratedSpec | user_feedback.py:46-82 | a migrated state is well formed, holds the record of each parsable line in file order (the k-th interaction is the k-th parsable line's record), counts them in total_interactions, scores each source/topic by its number of mentions and has an empty history |
| Feedback.FeedbackTracker.Save | user_feedback.py:84-92 | saving sets last_updated to `now`, changes no other field, and the file then holds the whole state |
| Feedback.FeedbackTracker.LogArticleClick | user_feedback.py:94-134 | returns the `clicked` record; the new state is `AfterClick(old state)`; keys stay unique; the file holds the new state |
| Preferences.ClickRaisesScores | user_feedback.py:117-123 | a click adds 1 to its source's score and its topic's weight (a new key starts at 1) and leaves every other key's value as it was |
| Preferences.ClickKeepsWellFormed | user_feedback.py:117-123 | a click stores no key twice in the source scores or topic weights |
| Preferences.ClickLogsOnce | user_feedback.py:113-129 | a click appends exactly one `clicked` interaction and one history entry with its url, and keeps total_interactions equal to the log length |
| Preferences.ClickOnNewTopicKeepsReportedWeight | user_feedback.py:121-123 | a click on a topic not yet stored stores weight 1, the same value `get_topic_weight` reported for it before the click |
| Feedback.FeedbackTracker.LogArticleFeedback | user_feedback.py:136-177 | returns the `liked`/`disliked` record carrying only url and timestamp; the new state is `AfterFeedback(old state)`; the file holds it |
| Feedback.FeedbackTracker.ApplyLatestFeedback | user_feedback.py:155-173 | the backward scan adjusts the scores by the source and topic of the most recent interaction with the url (`LatestWithUrl`), or changes nothing when there is none; no other field changes |
| Feedback.FeedbackTracker.FindLatest | user_feedback.py:156-173 | the backward loop stops at the newest interaction with the url (no later one carries it), or reports that there is none, as `LatestWithUrl` |
| Preferences.AdjustByLatestUnique | user_feedback.py:161-171 | the feedback adjustment stores no key twice |
| Preferences.LatestWithUrl | user_feedback.py:156-157 | the interaction found is in the log and carries the url |
| Preferences.LatestWhereIsNewest | user_feedback.py:156-173 | the backward scan finds nothing exactly when no record matches, and otherwise the matching record with no match after it |
| Preferences.FeedbackLeavesScores | user_feedback.py:144-175 | as written, feedback leaves source scores, topic weights and history unchanged, appends its record and keeps total_interactions equal to the log length |
| Preferences.FeedbackAfterClickIgnored | user_feedback.py:152-173 | as written, a like or dislike right after a click leaves the clicked source's score and topic's weight where the click put them |
| Preferences.IntendedFeedbackUsesLatestClick | user_feedback.py:155-171 | with the scan passing over records that name neither source nor topic, feedback adjusts by the newest such record of the url: +2 for a like, -1 for a dislike on its source and topic, nothing when there is none; every other source and topic keeps its value; the next scan finds the same record |
| Preferences.AdjustByFrame | user_feedback.py:161-171 | adjusting by a found record changes no key other than that record's source (or topic) |
| Preferences.IntendedFeedbackAfterClick | user_feedback.py:155-171 | with the intended scan, a like right after a click raises the clicked source's score and topic's weight by 2 and a dislike lowers them by 1 |
| Preferences.IntendedFeedbackTwiceAfterClick | user_feedback.py:155-171 | with the intended scan, two rounds of feedback after a click both adjust the clicked source and topic, by the sum of their deltas |
| Feedback.FeedbackTracker.GetSourceScore | user_feedback.py:179-184 | the stored score of the source, or 0 when none is stored |
| Feedback.FeedbackTracker.GetTopicWeight | user_feedback.py:186-191 | the stored weight of the topic, or 1 when none is stored |
| Feedback.FeedbackTracker.RankArticles | user_feedback.py:193-234 | the scoring loops compute `ArticleScore` for every article and the result is `Ranked(state, articles)` |
| Preferences.ScoreAll | user_feedback.py:205-229 | the scored list pairs each input article, in input order, with its score |
| Preferences.RankedSpec | user_feedback.py:229-234 | the ranking is a permutation of the scored articles in non-increasing score order, each article with its own score, and equal scores keep input order |
| Preferences.ReadPenalty | user_feedback.py:224-227 | an article whose url is in the history scores exactly 100 less than the same article under an unread url |
| Preferences.TopicTermBump | user_feedback.py:219-222 | raising a stored topic weight by d raises the topic term of every title mentioning the topic by 5·d and leaves other titles' terms alone |
| Preferences.ClickEffectOnScore | user_feedback.py:104-131 | after a click, an article scores 10 more if it is from the clicked source, 5 more if its title mentions the clicked topic, and 100 less if it has the clicked, previously unread, url |
| Preferences.RankingExample | user_feedback.py:205-227 | with source score 5 and topic weight 3, a matching unread article scores 65, and the same article under a read url scores -35 |
| Feedback.FeedbackTracker.GetPersonalizedArticles | user_feedback.py:236-248 | the result is the articles of the first `max_count` ranked pairs |
| Preferences.PersonalizedSpec | user_feedback.py:247-248 | a non-negative max_count gives min(max_count, n) articles, and the selection is a prefix of the ranked articles |
| Preferences.PersonalizedDominates | user_feedback.py:247-248 | no scored article left out of the selection scores higher than one selected |
| Feedback.FeedbackTracker.ShouldIncludeArticle | user_feedback.py:307-322 | true iff the article's score reaches the threshold |
| Feedback.FeedbackTracker.GenerateInsightsReport | user_feedback.py:250-305 | the report's facts are `InsightsOf(state)` (total, articles read, last update, top sources, top topics, recent activity, status) |
| Preferences.InsightsOf | user_feedback.py:258-303 | the status follows the total, at most 5 sources and topics and 3 recent lines are listed, articles read is the history length |
| Preferences.StatusOf | user_feedback.py:297-303 | ACTIVE iff total > 10, LEARNING iff 0 < total ≤ 10, NOT STARTED iff total ≤ 0 |
| Preferences.StatusMonotone | user_feedback.py:297-303 | more interactions never give a lower status |
| Preferences.TopEntriesShape | user_feedback.py:267-282 | the top list has min(5, n) entries in non-increasing value order |
| Preferences.TopEntriesFromDict | user_feedback.py:267-282 | every listed (name, value) pair is an entry of the dict |
| Preferences.TopEntriesDominate | user_feedback.py:267-282 | no dict entry left out of the top list has a higher value than one in it |
| Preferences.TopEntriesStable | user_feedback.py:267-282 | for each value, the listed entries with that value are the first dict entries with that value, in dict order |
| Preferences.RecentActivity | user_feedback.py:288-295 | one line for each of the last min(3, n) interactions, oldest first |
| Summarizer.AppSummarize | app.py:51-74 | text that is absent or shorter than 50 gives "- Content too short to summarize"; otherwise, when there are candidates, the lines are "• " plus each chosen sentence verbatim, joined by newlines |
| Summarizer.AgentSummarize | news_digest_agent.py:21-52 | the same with "- Article content too short to summarize" and the bullet "- " |
| Summarizer.Summarize | app.py:53-60 | short or absent text gives the configured placeholder without splitting; text with no candidate gives "- No content available" |
| Summarizer.KeepCandidates | news_digest_agent.py:30-31 | every kept sentence is longer than 20 characters, and there are no more than fragments |
| Summarizer.KeepCandidatesSelects | news_digest_agent.py:30-31 | the candidates are exactly the fragments longer than 20 after stripping, each stripped, in text order: the k-th candidate is the k-th such fragment |
| Summarizer.CandidateSource | app.py:57 | every candidate is some fragment of the split, stripped |
| Text.SplitSentences | app.py:56 | the split has at least one piece and no piece holds `.`, `!` or `?` |
| Text.SplitSentencesCuts | app.py:56 | the split cuts exactly at the runs of terminators: one non-empty run of `.`, `!`, `?` between each two neighbouring pieces rebuilds the text |
| Text.SplitSentencesLosesOnlyTerminators | news_digest_agent.py:30 | gluing the pieces together gives the text minus its terminators: nothing else is lost or reordered |
| Text.StripIsSlice | app.py:57 | what `strip` keeps is a contiguous slice of the fragment |
| Text.StripDropsOnlySpace | app.py:57 | only whitespace lies before and after the kept slice |
| Text.StripEnds | app.py:57 | a stripped string neither starts nor ends with whitespace |
| Text.StripIdempotent | app.py:74 | stripping a stripped sentence again changes nothing |
| Summarizer.CandidateIsStripped | news_digest_agent.py:31 | a candidate is longer than 20 characters and already stripped |
| Summarizer.CandidateHasNoTerminator | app.py:56-57 | a candidate holds no sentence terminator |
| Summarizer.CandidateOccurs | app.py:56-57 | a candidate occurs verbatim in the text |
| Text.ContainsAt | app.py:68 | `needle in hay` holds iff the needle occurs at some position of the hay |
| Summarizer.KeywordScore | app.py:62-69 | a sentence's score is at most the 17 keywords |
| Summarizer.KeywordScoreCountsDistinctKeywords | news_digest_agent.py:37-44 | the score is the number of distinct keywords found case-insensitively, each counted once, so it lies in 0..17 |
| Summarizer.ScoreSentences | app.py:66-69 | the scored list pairs each candidate, in order, with its keyword score |
| StableSort.SortDesc | app.py:71 | the sorted list is a permutation of the input in non-increasing score order, and for every score the elements with that score keep their input order |
| StableSort.PrefixDominates | news_digest_agent.py:47-48 | no element left out of a prefix of the sorted list scores higher than one inside it |
| Summarizer.TopSentencesCount | app.py:72 | min(num_sentences, #candidates) sentences are chosen |
| Summarizer.TopSentencesPrefix | app.py:71-72 | the chosen sentences are a prefix of the sorted candidates, best first |
| Summarizer.TopSentencesAreScoredCandidates | app.py:66-72 | each chosen sentence is a candidate paired with its own score |
| Summarizer.TopSentencesDominate | news_digest_agent.py:47-48 | no candidate left out scores higher than a chosen one |
| Summarizer.TopSentencesStable | news_digest_agent.py:47 | for each score, the chosen sentences with that score are the first candidates with that score, in text order |
| Summarizer.SummaryJoinsBullets | app.py:74 | with candidates, the summary is the bullet lines joined by newlines |
| Summarizer.BulletsHoldSentencesVerbatim | news_digest_agent.py:51 | each line is the bullet followed by a chosen sentence exactly as it stands |
| Summarizer.SummaryIsExtractive | news_digest_agent.py:48-51 | every chosen sentence occurs verbatim in the article text |
| Digest.ByUrlSpec | app.py:160 | the url dict has unique keys, exactly the input urls, in order of first occurrence, each bound to the last article with that url |
| Digest.DedupSpec | news_digest_agent.py:89 | the de-duplicated list holds no url twice, every input url, in first-occurrence order, each with its last article |
| Digest.SelectArticlesSpec | app.py:161 | the selection is the first min(max_articles, n) de-duplicated articles |
| Digest.FullText | news_digest_agent.py:110 | the text is empty iff neither description nor content is non-empty |
| Digest.FullTextParts | news_digest_agent.py:100-110 | the text is description, one space, content: two strings give `d + " " + c`; an absent field contributes nothing and a `null` one the word "None", in each of the five non-empty cases |
| Digest.EmptyArticleSummary | news_digest_agent.py:110-113 | an article with neither description nor content gets "- Article content too short to summarize" |
| OrderedDict.PutGet | app.py:160 | after a dict write the key is bound to the new value and every other key to its old value |
| OrderedDict.PutKeys | app.py:160 | a dict write keeps an existing key in its place and appends a new key last, so no key is stored twice |
| Digest.ByUrlKeys | news_digest_agent.py:89 | the url dict stores each url once, and its keys are exactly the input urls |
| Digest.ByUrlOrder | news_digest_agent.py:89 | the dict's urls stand in order of their first occurrence in the input |
| Digest.ByUrlValues | news_digest_agent.py:89 | each url is bound to the last article that carries it |

## Left out

- File I/O, JSON parsing and serialisation, and the file-existence check are left out. The file's contents come in as a `StoredFile` parameter: a structured record, or the legacy lines, each parsed or not.
- Feedback.FeedbackTracker.constructor: a `LineDelimited` file stands for a file that `json.load` rejects (user_feedback.py:27-31). A legacy file whose whole text is a single JSON value, such as one record with blank lines around it, is loaded as-is by the source rather than migrated, and later operations then raise `KeyError`. That case is not modelled: the model migrates every `LineDelimited` file.
- A structured file is assumed to hold the record's shape, with distinct keys in each object as JSON parsing guarantees.
- Each source call to `datetime.now()` is replaced by one `now` parameter per operation. The `read_date` and `timestamp` of one click are therefore the same string.
- Output is left out: every `print`, the report's exact text (frames, emoji, padding, bars), the Streamlit UI, HTML assembly, e-mail, NewsAPI fetching, environment loading, and the demo function.
- `log_article_click` takes its url, topic, source and sentiment as strings. Python would also accept other values.
- `Feedback.FeedbackTracker.RankArticles` and `Preferences.Ranked` sort with a stable insertion-sort function on a sequence, not with the in-place `list.sort`. Only the order of the result is modelled.
- `Feedback.FeedbackTracker.ShouldIncludeArticle` leaves out the default `True` branch of `should_include_article`. The ranking of one article always has exactly one entry, so that branch never runs.
- `Feedback.FeedbackTracker.RankArticles` requires that no title is `null`. `article.get('title', '').lower()` raises on a `null` title. A missing title counts as `""`.
- `Feedback.FeedbackTracker.GenerateInsightsReport` requires a non-`null` last_updated and non-`null` timestamps in the last three interactions. The source raises otherwise, for example on a fresh state.
- `Text.Lower` folds only ASCII letters. Python's `str.lower` folds all of Unicode.
- `Text.IsSpace` is the whitespace set of Python's `str.isspace`.
- The regular-expression split is modelled directly as a split on runs of `.`, `!` and `?`.
- `Digest.ByUrl` requires that every article has a url key. `art['url']` raises `KeyError` otherwise.
- A bullet line is counted as one line of the summary. A sentence with an embedded newline still yields one bullet.
- Concurrency is not modelled. The source has none.
- A legacy line that parses as JSON but not as an object (`3`, `null`, a list) is not modelled. user_feedback.py:54 keeps such a value and :73 then raises on `.get`; `Option<Interaction>` holds only records.
- Interaction fields are strings, `null` or absent. A non-string `source` or `topic` (a number, a list), which migration would tally as a key or reject, is not modelled. Article fields are likewise strings, `null` or absent, and `source` is a dict or a string: an article whose `title`, `url` or `source` is a number or a list, which user_feedback.py:205-211 would look up in `source_scores` (usually scoring 0) or fail on, is not modelled.
- Default arguments are not modelled as defaults; callers pass every argument. These are `sentiment='neutral'` (user_feedback.py:94), `max_count=5` (:236), `threshold=0` (:307) and `num_sentences=3` (app.py:51, news_digest_agent.py:21).

## Findings

| source | as written | input that shows it | evidently intended | confidence | as-written member | corrected member |
|---|---|---|---|---|---|---|
| user_feedback.py:152-173 | the feedback record is appended before the backward scan for the article's source and topic, so the scan stops at that record, which has neither, and no score changes | click on url "u" (source "S", topic "T"), then like "u": the score of "S" stays 1 | the scan passes over records that name neither source nor topic and finds the article's newest click, adjusting its source and topic by +2 (like) or -1 (dislike), on every later feedback as well | high (not executed) | Preferences.FeedbackAfterClickIgnored | Preferences.IntendedFeedbackAfterClick |
