# News relevance engine — a Dafny model

This project models the core of a personal news reader. RSS feeds are fetched into an
article store. Readers rate articles, and each rating moves the weights of the profile
topics the article matches. An agent reads the store through a layer of tools: tiered
listings, analysis write-back, trending topics and source suggestions. A Slack front end
rewrites the agent's markdown.

The store has three tables (articles, feedback, reader profile). It is one object,
`Schema.Database`, whose fields are sequences of rows. Its `Valid()` invariant carries the
schema constraints:
- article urls are unique;
- article ids lie below the next id to hand out;
- ratings lie in 1..5;
- one profile row per topic, with a weight in [0, 1].

Each manager of the original is a module. Its operations that write are methods that
modify the store and keep `Valid()`. Its queries are functions of the tables, with lemmas
about them. Where the source runs a loop (tiering, trending counts, suggestion
de-duplication, learning, seeding, ingestion, source scans), the model runs the same loop
as a `while` loop. That loop is proved equal to a function of the inputs, and the
properties are proved about that function.

Modules, one per file:
- `Common`, `Text`, `Sorting`: shared helpers. They cover Python's `split`, `strip` and
  slicing, Python's `lower` on ASCII and Latin-1 letters, SQLite `LIKE` and `LIMIT`, a
  stable sort, and filtering and de-duplication.
- `Schema`: the tables and their constraints.
- `ArticleOrder`: the sort keys.
- `ArticleManager`, `ArticleQuery`, `ArticleQueryProperties`: the article operations and
  the advanced query.
- `ProfileManager`: the topic profile and learning.
- `FeedbackManager`: ratings and their aggregates.
- `McpTools`: the agent's tool logic.
- `FeedFetcher`: ingestion.
- `SourceManagement`: the RSS source list.
- `ChatSlack`: the Slack text handling.

Timestamps are integers (seconds). ISO 8601 strings of the one format the program
writes order the same way. Scores and weights are `real`. The clock is a `now`
parameter.

Behaviour the model keeps as the code has it:
- `date_desc` and `date_asc` are not keys of the query's sort map (agents/mcp_tools.py:888
  against core/article_manager.py:287-299). Both fall back to newest-published-first
  (`ArticleQueryProperties.DateSortKeysFallBack`).
- The default column list of the query leaves out `deep_analysis`. So the deep-analysis
  lift in the tiering never applies through `get_articles_tool`
  (`McpTools.ToolNeverSeesDeepAnalysis`).
- An OFFSET without a LIMIT is invalid SQL. The tool reports a failure with no articles
  (`McpTools.OffsetWithoutLimitFails`).
- `adjust_topic_weight` on a new topic returns the unclamped `0.5 + delta` but stores the
  clamped value (`ProfileManager.AdjustNewTopicReturnsUnclamped`).
- An upsert of an existing topic never changes its provenance.
- Topic keywords come from `split()`, which does not split at hyphens.
- `remove_source` matches names exactly, although the tool's description promises
  case-insensitive partial matching (agents/mcp_tools.py:734, 1070).
- When the file write fails, `add_source` reports failure but keeps the new source in
  memory.
- Suggestion keys match anywhere inside a topic's name: "Ukraina" contains "ai"
  (`McpTools.KeyMatchesInsideWord`).
- The header pattern of the Slack formatter lets `\s+` cross a line break. A bare `##`
  line swallows the next line as its title (`ChatSlack.HeaderSwallowsLineBreak`).
- `_clean_content` takes the first value of a content list. An empty first value hides
  the summary (`FeedFetcher.EmptyContentHidesSummary`).
- A discrepancy in the learning stats is counted per feedback row, not per article
  (`FeedbackManager.DiscrepanciesArePerRow`).

The free-text search of the advanced query uses `LIKE`, which SQLite matches without
regard to ASCII case.

## Model

| member | source | states |
|---|---|---|
| Schema.Database.constructor | core/database.py:42-81 | a fresh store has empty tables and satisfies every schema constraint |
| ArticleOrder.LeIsPreorder | core/article_manager.py:287-299 | every key of the sort map (NULLS LAST for score and publication date) is a total, transitive order, so sorting by it is well defined |
| ArticleManager.GetArticle | core/article_manager.py:34-40 | the result is a stored article with the id, and None only when no article has that id |
| ArticleManager.GetArticlesSpec | core/article_manager.py:42-77 | every listed article is stored and passes every supplied filter; newest publication first; a positive limit gives min(limit, number of matches) articles and no limit every match; no matching article left out was published after a listed one |
| ArticleManager.GetUnanalyzedArticlesSpec | core/article_manager.py:353-369 | exactly the articles lacking a summary or a score, most recently fetched first |
| ArticleManager.MarkAsRead | core/article_manager.py:79-83 | only the article with that id becomes read; every other row and table is unchanged; constraints kept |
| ArticleManager.MarkAllAsRead | core/article_manager.py:85-95 | afterwards every article is read and otherwise unchanged; the count returned is the number unread before |
| ArticleManager.MarkAllCountsUnreadListing | core/article_manager.py:85-95 | that count equals the length of the unread-only listing before the update |
| ArticleManager.CleanupOldArticles | core/article_manager.py:97-105 | exactly the articles fetched on or after the cut-off day remain, in order; the count returned is the number deleted; constraints kept |
| ArticleManager.FilterKeepsValid | core/article_manager.py:97-105 | deleting any set of rows keeps urls unique and ids below the next id |
| ArticleManager.SaveAnalysis | core/article_manager.py:426-445 | true iff the id exists; that row gets the summary and score, all other rows are unchanged |
| ArticleManager.SaveDeepAnalysis | core/article_manager.py:406-424 | true iff the id exists; that row gets the analysis text, all other rows are unchanged |
| ArticleQuery.FeedbackOf | core/article_manager.py:164-165 | exactly the feedback rows whose article id matches |
| ArticleQuery.JoinOne | core/article_manager.py:164-165 | left join: one row without feedback for an article with none, otherwise one row per feedback row |
| ArticleQuery.Page | core/article_manager.py:302-308 | an offset without a truthy limit is an error; the page is a prefix of the rows after the offset, of length min(limit, rows remaining) for a positive limit, and all of them otherwise |
| ArticleQuery.Project | core/article_manager.py:153-158 | without `include_content` the content and deep analysis are dropped and every other column is kept |
| ArticleQuery.SourceKeys | core/article_manager.py:340-347 | the grouping keys are exactly the source names of the rows, each once |
| ArticleQuery.QueryArticlesAdvanced | core/article_manager.py:109-349 | an error iff offset > 0 with no limit outside `stats_only`; `stats_only` gives the count of selected rows; a listing's total is its length, bounded by a positive limit, grouped iff `group_by` is "source", with feedback attached iff requested |
| ArticleQuery.QueryStore | core/article_manager.py:149-349 | the query against the store returns the outcome of the pure query; it modifies nothing |
| ArticleQueryProperties.JoinSound | core/article_manager.py:164-165 | each join row carries a stored article and, when joined, one of that article's feedback rows |
| ArticleQueryProperties.JoinWithoutFeedback | core/article_manager.py:164-165 | without a feedback join there is exactly one row per article |
| ArticleQueryProperties.JoinRowsPerArticle | core/article_manager.py:164-165 | a joined article yields one row per feedback row of it, or one row when it has none |
| ArticleQueryProperties.JoinRowCount | core/article_manager.py:164-165 | the join holds max(1, k) rows for an article with k feedback rows, so without GROUP BY it can be listed that often |
| ArticleQueryProperties.ListingWindow | core/article_manager.py:287-308 | the returned rows are the ordered rows from position `offset` on: `limit` of them (or as many as remain) for a positive limit, all the rest otherwise |
| ArticleQueryProperties.ListedComeFromSelected | core/article_manager.py:168-274 | every returned row comes from a join row that passed the WHERE clause |
| ArticleQueryProperties.ResultSound | core/article_manager.py:168-274 | every returned article is a stored article (projected) that satisfies every supplied condition |
| ArticleQueryProperties.RelevanceBoundsExcludeNull | core/article_manager.py:192-198 | with a relevance bound no article without a score is returned, and every score returned lies within the bounds |
| ArticleQueryProperties.ResultComplete | core/article_manager.py:168-308 | without feedback join, paging or grouping, every stored article that passes all conditions is returned |
| ArticleQueryProperties.ResultCompleteJoined | core/article_manager.py:163-270 | with the feedback join and without paging or grouping, a stored article meeting the article conditions is returned with each of its feedback rows that meets `with_feedback`, `min_rating` and `controversial`, and with its bare row when it has no feedback |
| ArticleQueryProperties.NegativeDaysSelectNothing | core/article_manager.py:207-209 | a negative `last_n_days` gives an unreadable date modifier, so no row is selected |
| ArticleQueryProperties.ResultOrdered | core/article_manager.py:287-299 | the rows follow the requested sort key, unknown keys falling back to newest publication first |
| ArticleQueryProperties.GroupedRowsDistinct | core/article_manager.py:283-284 | with GROUP BY no article is returned twice |
| ArticleQueryProperties.SameConditionsSameRows | core/article_manager.py:168-274 | two queries that join alike and whose conditions agree on every row select the same rows |
| ArticleQueryProperties.SameConditionsSameOutcome | core/article_manager.py:149-349 | two queries agreeing on the conditions and on every other parameter give the same outcome |
| ArticleQueryProperties.SourceOverridesAllowList | core/article_manager.py:178-189 | when `source` is given the `sources` allow-list is ignored |
| ArticleQueryProperties.UnknownSearchScopeIgnored | core/article_manager.py:228-241 | a `search_in` other than all/title/content/summary imposes no condition |
| ArticleQueryProperties.ControversialFalseAddsNothing | core/article_manager.py:248-270 | `controversial = False` adds no condition beyond the join another feedback filter would make |
| ArticleQueryProperties.ControversialSpread | core/article_manager.py:248-270 | the controversial sub-query holds iff the article has at least three ratings and two of them differ by at least 3 |
| ArticleQueryProperties.DateSortKeysFallBack | core/article_manager.py:287-299 | `date_desc` and `date_asc` give the same outcome as the default newest-first order |
| ArticleQueryProperties.StatsCountMatchesListing | core/article_manager.py:277-280 | without join, grouping or paging, the `stats_only` count equals the length of the listing |
| ArticleQueryProperties.GroupPartition | core/article_manager.py:340-347 | grouping by source puts every returned article in exactly the group of its source, in result order |
| ArticleQueryProperties.NewestFirstEntries | core/article_manager.py:315-337 | an article's attached entries are exactly its feedback rows, newest first |
| ArticleQueryProperties.FeedbackAttached | core/article_manager.py:315-337 | with `include_feedback` each returned article carries exactly its own feedback, newest first |
| ProfileManager.Upsert | core/profile_manager.py:92-108 | the topic is present afterwards; a new topic is appended with the clamped weight, the given provenance and one sample; an existing one keeps its place and provenance, gets the clamped weight and one more sample; the table stays valid |
| ProfileManager.UpdateTopic | core/profile_manager.py:92-108 | the profile becomes the upsert of the topic; the result is always true; other tables unchanged |
| ProfileManager.UpsertThenLookup | core/profile_manager.py:94-108 | looking up an upserted topic gives the clamped weight, with sample count and provenance as above |
| ProfileManager.LookupOtherTopic | core/profile_manager.py:94-108 | an upsert, with any provenance, does not change the lookup of any other topic |
| ProfileManager.AdjustTopicWeight | core/profile_manager.py:110-124 | stores the clamped current weight plus delta (0.5 for a new topic, provenance learned when new and kept otherwise) and returns the adjusted weight |
| ProfileManager.AdjustedWeightVersusStored | core/profile_manager.py:110-124 | for an existing topic the returned weight is the stored one; for a new topic the stored weight is the clamp of the returned one |
| ProfileManager.AdjustNewTopicReturnsUnclamped | core/profile_manager.py:114-118 | a new topic adjusted by 0.6 returns 1.1 while 1.0 is stored |
| ProfileManager.RemoveTopic | core/profile_manager.py:126-141 | true iff the topic existed; afterwards it is absent and every other row is kept in order |
| ProfileManager.GetProfileSpec | core/profile_manager.py:58-77 | the listing is a permutation of the table, heaviest first |
| ProfileManager.GetTopTopicsSpec | core/profile_manager.py:79-88 | min(limit, size) pairs of stored topic and weight, in non-increasing weight; no topic left out is heavier than a listed one; no topic listed twice |
| ProfileManager.Keywords | core/profile_manager.py:156-163 | the keywords are exactly the whitespace-separated words of the lower-cased topic that are not stop words and are longer than two characters |
| ProfileManager.MatchingTopicsSpec | core/profile_manager.py:165-172 | the matching loop keeps exactly the topics one of whose keywords occurs in the text, each once |
| ProfileManager.ExtractTopicsSpec | core/profile_manager.py:145-172 | a topic is returned iff it is in the profile and one of its keywords occurs in the lower-cased title and text; no duplicates |
| ProfileManager.NoKeywordsNeverMatch | core/profile_manager.py:156-172 | a topic whose name yields no keyword never matches |
| ProfileManager.RatingDelta | core/profile_manager.py:199-200 | the delta lies in [-0.1, 0.1]; it is positive iff the rating is 4 or 5 and negative iff it is 1 or 2 |
| ProfileManager.LearnedWeights | core/profile_manager.py:202-208 | one (topic, clamped stored weight plus delta) pair per matched topic, in order |
| ProfileManager.AdjustAll | core/profile_manager.py:202-208 | the loop returns those pairs and moves every listed topic by the delta, leaving the rest of the profile as it was |
| ProfileManager.LearnFromFeedback | core/profile_manager.py:176-208 | nothing changes and nothing is returned when the article is missing or matches no topic; otherwise every matched topic moves by the rating's delta and the pairs are returned |
| ProfileManager.PriorityWeight | core/profile_manager.py:44-52 | 0.8 for a high-priority topic, else 0.6 for medium, else 0.5 for low, else 0.7 |
| ProfileManager.InitDefaultTopics | core/profile_manager.py:26-54 | a non-empty profile is left alone; an empty one receives every configured topic as an explicit interest with its priority weight |
| ProfileManager.CountByProvenance | core/profile_manager.py:212-230 | the three provenance counts add up to the number of topics |
| ProfileManager.EvolutionSpec | core/profile_manager.py:212-230 | explicit and learned topics are counted apart, agent-updated ones only in the total; at most five top topics; emerging topics are exactly the learned ones weighing at least 0.6 |
| FeedbackManager.AddFeedback | core/feedback_manager.py:29-38 | a rating in 1..5 appends exactly one row with the next id; any other rating is refused by the CHECK and nothing is written |
| FeedbackManager.GetArticleFeedbackSpec | core/feedback_manager.py:40-50 | exactly the article's feedback rows, newest first |
| FeedbackManager.FeedbackStatsSpec | core/feedback_manager.py:52-68 | the total is the row count; the aggregates are NULL exactly on an empty table; the average lies in [1, 5]; positive plus negative never exceeds the total |
| FeedbackManager.RatingSumBounds | core/feedback_manager.py:52-68 | the sum of valid ratings lies between the row count and five times it |
| FeedbackManager.JoinedFeedback | core/feedback_manager.py:82-88 | each joined pair is a feedback row with its stored article, and every feedback row whose article exists is joined |
| FeedbackManager.FeedbackSummarySpec | core/feedback_manager.py:70-100 | rows built from a feedback row and its article, newest first; a limit of zero or more gives min(limit, joined rows) of them and a negative one all; no row left out is newer than a listed one |
| FeedbackManager.SourcePreferencesSpec | core/feedback_manager.py:102-131 | a source is listed iff it has at least two joined feedback rows, with its true average and count |
| FeedbackManager.SourcePreferencesOrdered | core/feedback_manager.py:102-131 | each source once, highest average first |
| FeedbackManager.SourceNamesSpec | core/feedback_manager.py:135-181 | the distinct source names are exactly those of the table, each once |
| FeedbackManager.StatsSpec | core/feedback_manager.py:135-181 | the total is the table size; unread and relevant counts never exceed it and are NULL exactly on an empty table; `source_count` is the number of distinct sources |
| FeedbackManager.ArticlesBySourceSpec | core/feedback_manager.py:135-181 | every source of the table is listed with its true count, which is at least one |
| FeedbackManager.ArticlesBySourceOrdered | core/feedback_manager.py:135-181 | each source once, most articles first |
| FeedbackManager.AccuracySpec | core/feedback_manager.py:210-230 | discrepancies never exceed scored rows, so the rate lies in [0, 1]; it is 1 iff nothing disagrees and 0 iff every scored row does |
| FeedbackManager.DiscrepanciesArePerRow | core/feedback_manager.py:221-228 | two disagreeing ratings of one article count twice |
| FeedbackManager.LearningStatsSpec | core/feedback_manager.py:185-243 | the report agrees with its aggregates: totals, bounds, the configured threshold, a rate in [0, 1], only sources with at least two rows |
| FeedbackManager.Config.constructor | core/feedback_manager.py:17-25 | the configuration holds the loaded threshold, or none |
| FeedbackManager.Config.SetRelevanceThreshold | core/feedback_manager.py:251-276 | a value outside [0, 1] is refused and nothing changes; otherwise the new value is held iff the file write succeeds, and the result reports that |
| McpTools.TierMonotone | agents/mcp_tools.py:220-231 | a higher score never lands in a lower tier |
| McpTools.DeepAnalysisIsHigh | agents/mcp_tools.py:213-218 | an article with a deep analysis is always high tier and flagged so |
| McpTools.PlaceArticle | agents/mcp_tools.py:208-231 | one article goes to exactly the list of its tier (score raised to 0.75 with a deep analysis), the other two lists unchanged |
| McpTools.TierArticles | agents/mcp_tools.py:203-249 | the tier loop computes the three tiers, or fails on a NULL score |
| McpTools.TieredPartition | agents/mcp_tools.py:203-249 | tiering fails iff some score is NULL; otherwise each article is in exactly the list of its tier, nothing else is listed and the three counts add up to the total |
| McpTools.CountThreeTiers | agents/mcp_tools.py:242-247 | the three tier counts add up to the number of articles |
| McpTools.HoursFor | agents/mcp_tools.py:182-185 | the window is 24, 168 or 720 hours; an unknown filter gives 24 |
| McpTools.ToolQuery | agents/mcp_tools.py:188-197 | the tool's query never asks for content, feedback or a bare count |
| McpTools.GetArticlesTool | agents/mcp_tools.py:163-268 | fails iff the query is invalid or a grouped listing holds a NULL score; otherwise returns the query's rows, with their tiers when grouped, and the total |
| McpTools.ToolNeverSeesDeepAnalysis | agents/mcp_tools.py:213-215 | no listed article has a deep analysis, so none is lifted by one |
| McpTools.OffsetWithoutLimitFails | agents/mcp_tools.py:259-268 | an offset without a limit always makes the query fail |
| McpTools.AlignmentMonotone | agents/mcp_tools.py:104 | a larger difference never gives a better alignment |
| McpTools.CompareSpec | agents/mcp_tools.py:81-105 | fails with the matching error iff the article is missing, has no feedback or has no score; otherwise the stored score, the newest rating over 5, their absolute difference, and an alignment that is good iff the difference is below 0.2 and poor iff it is at least 0.4 |
| McpTools.SaveFeedbackTool | agents/mcp_tools.py:26-47 | a rating outside 1..5 fails with nothing written; otherwise the feedback is appended, the article marked read, and the profile learns, returning its updates |
| McpTools.MarkKeepsLearningTopics | agents/mcp_tools.py:36-40 | marking the article read before learning does not change the topics learning touches |
| McpTools.SaveArticleAnalysisTool | agents/mcp_tools.py:415-469 | succeeds iff the stripped summary is non-empty, the score lies in [0, 1] and the article exists; only then is that row written |
| McpTools.SaveDeepAnalysisTool | agents/mcp_tools.py:365-412 | succeeds iff the stripped text is non-empty and the article exists; only then is that row written |
| McpTools.AdjustRelevanceThresholdTool | agents/mcp_tools.py:552-566 | a value outside [0, 1] fails with nothing changed; otherwise reports the old threshold, and the new one is held iff the write succeeds |
| McpTools.InterestWeight | agents/mcp_tools.py:527-528 | high 0.8, low 0.4, anything else 0.6 |
| McpTools.AddInterestTool | agents/mcp_tools.py:521-537 | the topic is upserted as an explicit interest with its priority's weight (medium by default) |
| McpTools.MarkArticlesReadTool | agents/mcp_tools.py:144-160 | an empty list fails; otherwise every listed article is read, no other row changes, and the count is the list's length |
| McpTools.CountPairs | agents/mcp_tools.py:610-617 | each distinct topic once, in first-seen order, with its number of occurrences |
| McpTools.CountOne | agents/mcp_tools.py:616-617 | after one more topic the keys are still each distinct topic once, in first-seen order, each with its true count |
| McpTools.CountTopics | agents/mcp_tools.py:610-617 | the counting loop keys each distinct topic once, in first-seen order, with its true count |
| McpTools.IdentifyTrendingTopics | agents/mcp_tools.py:602-627 | the result is the trending list of the topics matched in the articles published in the window |
| McpTools.TrendingEntries | agents/mcp_tools.py:619 | each entry is a topic that occurs, with its true count, each topic once |
| McpTools.TrendingSorted | agents/mcp_tools.py:619 | the counts are sorted most frequent first |
| McpTools.TrendingTop | agents/mcp_tools.py:619 | at most ten entries, most frequent first; a topic left out occurs no more often than the last entry |
| McpTools.FeedsFor | agents/mcp_tools.py:654-657 | exactly the feeds of the table keys contained in the lower-cased topic |
| McpTools.KeyMatchesInsideWord | agents/mcp_tools.py:654-657 | "Ukraina" draws the feeds of the "ai" key |
| McpTools.CollectSuggestions | agents/mcp_tools.py:652-657 | the collecting loop gathers the feeds of every topic in order |
| McpTools.CandidatesFromTopics | agents/mcp_tools.py:652-657 | every candidate is a feed of a key found in one of the topics |
| McpTools.UniqueByUrlSpec | agents/mcp_tools.py:660-665 | only input suggestions are kept, no url is lost, no url repeats |
| McpTools.UniqueByUrlFirst | agents/mcp_tools.py:660-665 | each kept suggestion is the first one in the input with its url |
| McpTools.DedupByUrl | agents/mcp_tools.py:660-665 | the `seen`-set loop computes the url de-duplication |
| McpTools.SuggestNewSources | agents/mcp_tools.py:630-670 | the first five de-duplicated feeds of the three heaviest topics, with those topics' names |
| McpTools.SuggestionsSpec | agents/mcp_tools.py:630-670 | at most five suggestions with distinct urls, each a feed of a key found in one of the three heaviest topics and the first candidate with its url |
| SourceManagement.SourceManager.constructor | core/source_manager.py:14-26 | the list holds the loaded sources, or none when the file is missing or unreadable |
| SourceManagement.SourceManager.AddSource | core/source_manager.py:28-49 | a known url (or an entry without one) fails with the list unchanged; otherwise the source is appended at the end, the result is the write's success, and distinct urls stay distinct |
| SourceManagement.SourceManager.RemoveSource | core/source_manager.py:51-70 | every source with exactly that name is dropped, the rest keep their order; the result is true iff one matched and the write succeeded; distinct urls stay distinct |
| SourceManagement.RemainingCount | core/source_manager.py:55-59 | fewer sources remain iff some source had the name |
| SourceManagement.RemoveKeepsUrlsDistinct | core/source_manager.py:55 | removing sources keeps urls distinct |
| FeedFetcher.NormalizeUrlSpec | core/feed_fetcher.py:22-45 | the result is a prefix of the url with no query, fragment or last-segment parameters, cut only at a delimiter; it keeps the path up to its last slash, and everything before the query when the last segment has no `;` |
| FeedFetcher.NormalizeClean | core/feed_fetcher.py:32-42 | a url with nothing to drop is unchanged, the empty url included |
| FeedFetcher.NormalizeIdempotent | core/feed_fetcher.py:32-42 | normalising twice is normalising once |
| FeedFetcher.QueryIgnored | core/feed_fetcher.py:23-26 | whatever follows the first `?` or `#` does not change the result |
| FeedFetcher.SameUpToQuery | core/feed_fetcher.py:23-26 | urls differing only after their first `?` or `#` normalise alike |
| FeedFetcher.CleanContent | core/feed_fetcher.py:62-74 | the first value of a non-empty content, else a non-empty summary, else a non-empty description, else ""; empty only when nothing has text or a content list starts empty |
| FeedFetcher.EmptyContentHidesSummary | core/feed_fetcher.py:65-66 | a content list with an empty first value gives "" even when a summary exists |
| FeedFetcher.FetchFeed | core/feed_fetcher.py:76-111 | the loop computes the source's articles: none without a url, else the first `max_articles` entries with a non-empty normalised url |
| FeedFetcher.FeedArticlesSpec | core/feed_fetcher.py:77-104 | nothing for a source without a url; otherwise at most `max_articles` articles, each built from an entry of the window with a non-empty normalised url and the source's name, and every such entry is returned |
| FeedFetcher.IngestedSpec | core/feed_fetcher.py:128-142 | stored rows are kept; at most one row per fetched article; urls stay unique; every fetched url ends up stored; each new row has a url not stored before |
| FeedFetcher.RepeatInBatchSavedOnce | core/feed_fetcher.py:128-142 | a url repeated within one batch is saved once |
| FeedFetcher.InsertKeepsValid | core/feed_fetcher.py:128-139 | inserting a fresh url keeps the table's constraints |
| FeedFetcher.InsertArticle | core/feed_fetcher.py:129-142 | one insert: a url already stored is skipped (the UNIQUE constraint), otherwise the article is appended with the next id; inserted exactly when the url was new; the constraints hold after |
| FeedFetcher.SaveOne | core/feed_fetcher.py:128-142 | one turn of the insert loop moves the table one article further through the ingestion of the batch |
| FeedFetcher.SaveArticles | core/feed_fetcher.py:128-142 | the insert loop appends exactly the not-yet-stored articles and counts them |
| FeedFetcher.FetchAll | core/feed_fetcher.py:113-165 | the table becomes the ingestion of all fetched articles; `total_fetched` counts them, `total_new` counts the rows added and never exceeds it, `total_sources` is the number of sources |
| ChatSlack.LinkRewritten | interfaces/chat_slack.py:42 | `[t](u)`, with no `]` in t and no `)` in u, becomes the Slack link of url u with text t |
| ChatSlack.BoldRewritten | interfaces/chat_slack.py:45 | `**x**`, with no `*` in x, becomes `*x*` |
| ChatSlack.HeaderRewritten | interfaces/chat_slack.py:48-49 | a one-line `## Title` or `# Title` becomes `*Title*` |
| ChatSlack.TripleHashUntouched | interfaces/chat_slack.py:48-49 | a `###` line matches neither header pattern |
| ChatSlack.HeaderSwallowsLineBreak | interfaces/chat_slack.py:48-49 | a bare `##` line takes the next line as its title |
| ChatSlack.LinksPlain | interfaces/chat_slack.py:42 | text without `[` is left alone by the link rewrite |
| ChatSlack.BoldPlain | interfaces/chat_slack.py:45 | text without `*` is left alone by the bold rewrite |
| ChatSlack.HeadersPlain | interfaces/chat_slack.py:48-49 | text without `#` is left alone by the header rewrites |
| ChatSlack.PlainTextUnchanged | interfaces/chat_slack.py:32-51 | text without markup is sent unchanged |
| ChatSlack.IsUserAuthorized | interfaces/chat_slack.py:66-71 | nobody is authorised when no id is configured; otherwise exactly the configured user |
| ChatSlack.StripMention | interfaces/chat_slack.py:92 | the message has no leading or trailing white space |
| ChatSlack.MentionStripped | interfaces/chat_slack.py:92 | the bot tag up to the first `>` is cut and the rest trimmed |

## Left out

- SQLite connections, transactions and SQL text: the tables are sequences in one object,
  and the schema constraints are its invariant.
- Reads and writes of the JSON configuration and of `sources.json`: a loaded value is a
  parameter, and a write's success is a boolean parameter.
- The foreign key from feedback to articles is declared but SQLite does not enforce it,
  so the model does not either.
- NOT NULL failures on the title and source name are not modelled. The model's rows always
  carry both.
- Network fetching and feed parsing: the parsed entries of each source are a function
  parameter of `FeedFetcher.FetchAll`.
- `fetch_feed`'s exception path and `fetch_all`'s `errors` list and timestamp are left out.
  The fetched entries are given, so nothing can raise.
- `_parse_date`: the published date of an entry is taken as already parsed, or absent.
  The `time_struct` conversion and the `str` fallback are string formatting.
- FeedFetcher.NormalizeUrlSpec: `urlparse` is modelled as cutting at the first `?` or `#`
  and at a `;` in the last path segment. `urlparse` splits off `;params` only for the
  schemes in its `uses_params` list; the model cuts at that `;` for every scheme. Scheme
  lower-casing, `;` inside the network location, whitespace stripping and the fallback on
  a parse error are not modelled.
- The clock: `now` is a parameter everywhere.
- Floating point: scores and weights are reals, so rounding near the 0.4/0.6/0.7 bounds
  is not reproduced.
- Python's `str.lower()` lowers every Unicode capital. `Text.PyLower` lowers ASCII and
  Latin-1 capitals only and keeps other capitals (`Ł`, `Š`, Cyrillic) as they are. For
  text with such letters, `ProfileManager.Keywords`, `ProfileManager.ExtractTopicsSpec`
  and `McpTools.FeedsFor` can match differently from the source.
- SQLite `LIKE` treats `%` and `_` in a search term as wildcards. The model treats them
  as plain characters, with ASCII case folding.
- SQL leaves the order of rows with equal sort keys open. The model sorts stably, in
  table order.
- The `articles_by_source` dictionary of `get_stats` is kept as a sequence of (source,
  count) pairs in its order.
- `list_sources` is the `sources` field of `SourceManagement.SourceManager`, read
  directly.
- `get_deep_analysis_prompt` is prompt templating, not decision logic.
- The agent SDK, the MCP server wrappers, the chat and analysis loops, the Slack event
  handlers and the command-line entry points are left out. They are foreign calls and
  user interface.
- Concurrent writers to the profile are out of scope. Every operation is one sequential
  step.
- ArticleManager.CleanupOldArticles: `days` is a natural number. A negative value would
  give SQLite an invalid date modifier.
- McpTools.UniqueByUrlSpec: the relative order of the kept suggestions is not stated as
  a separate property. `McpTools.UniqueByUrlFirst` states that each kept suggestion is
  the first with its url.
- ChatSlack.StripMention: the contract states only that the result is trimmed. The exact
  result is stated for a tagged message by `ChatSlack.MentionStripped`.
