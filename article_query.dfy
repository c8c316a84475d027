/** The advanced article query: a conjunction of optional filters over the
    articles left-joined to their feedback, an ordering by one of eight named
    keys, LIMIT/OFFSET pagination, and the optional per-article feedback
    lists and per-source grouping of the returned rows. The query is a
    function of the store's tables, so it cannot change them. */
module ArticleQuery {

  import opened Common
  import opened Schema
  import opened Sorting
  import opened Text
  import opened ArticleOrder

  /** Every parameter of the query. An optional string or list that Python
      treats as false (None, "" or []) imposes no condition. */
  datatype Query = Query(
    readStatus: string,
    limit: Option<int>,
    offset: int,
    source: Option<string>,
    sources: Option<seq<string>>,
    excludeSources: Option<seq<string>>,
    minRelevance: Option<real>,
    maxRelevance: Option<real>,
    hasSummary: Option<bool>,
    publishedAfter: Option<Timestamp>,
    publishedBefore: Option<Timestamp>,
    fetchedAfter: Option<Timestamp>,
    fetchedBefore: Option<Timestamp>,
    lastNDays: Option<int>,
    searchQuery: Option<string>,
    searchIn: string,
    excludeQuery: Option<string>,
    withFeedback: Option<bool>,
    minRating: Option<real>,
    controversial: Option<bool>,
    sortBy: string,
    groupBy: Option<string>,
    includeContent: bool,
    includeFeedback: bool,
    statsOnly: bool)

  /** The parameters' default values. */
  function DefaultQuery(): Query
  {
    Query("all", None, 0, None, None, None, None, None, None, None, None, None, None, None,
          None, "all", None, None, None, None, "relevance_desc", None, false, false, false)
  }

  /** Python truthiness of an optional string. */
  predicate Given(s: Option<string>)
  {
    s.Some? && s.value != ""
  }

  /** Python truthiness of an optional list. */
  predicate GivenList(s: Option<seq<string>>)
  {
    s.Some? && s.value != []
  }

  /** Python truthiness of the optional limit. */
  predicate HasLimit(q: Query)
  {
    q.limit.Some? && q.limit.value != 0
  }

  /** The feedback table is left-joined when any feedback parameter is
      present, even `False`. */
  predicate JoinsFeedback(q: Query)
  {
    q.withFeedback.Some? || q.minRating.Some? || q.controversial.Some? || q.includeFeedback
  }

  /** `GROUP BY a.id` is added. */
  predicate GroupsByArticle(q: Query)
  {
    q.includeFeedback || q.groupBy == Some("article")
  }

  /** One row of `articles a LEFT JOIN feedback f`; `fb` is None when the
      article has no feedback or no join was made. */
  datatype JoinRow = JoinRow(article: Article, fb: Option<Feedback>)

  /** The feedback rows of one article, in table order. */
  function FeedbackOf(feedback: seq<Feedback>, id: int): (r: seq<Feedback>)
    ensures forall f :: f in r <==> f in feedback && f.articleId == id
  {
    Filter(feedback, (f: Feedback) => f.articleId == id)
  }

  /** The left-join rows of one article. */
  function JoinOne(a: Article, feedback: seq<Feedback>): (rows: seq<JoinRow>)
    ensures FeedbackOf(feedback, a.id) == [] ==> rows == [JoinRow(a, None)]
    ensures FeedbackOf(feedback, a.id) != [] ==>
      |rows| == |FeedbackOf(feedback, a.id)|
      && forall i :: 0 <= i < |rows| ==> rows[i] == JoinRow(a, Some(FeedbackOf(feedback, a.id)[i]))
  {
    var fs := FeedbackOf(feedback, a.id);
    if fs == [] then [JoinRow(a, None)]
    else seq(|fs|, i requires 0 <= i < |fs| => JoinRow(a, Some(fs[i])))
  }

  /** The rows the FROM clause produces, articles in table order. */
  function Join(articles: seq<Article>, feedback: seq<Feedback>, joined: bool): seq<JoinRow>
  {
    if articles == [] then []
    else
      var last := articles[|articles| - 1];
      Join(articles[..|articles| - 1], feedback, joined)
        + (if joined then JoinOne(last, feedback) else [JoinRow(last, None)])
  }

  predicate ReadStatusOk(q: Query, a: Article)
  {
    && (q.readStatus == "unread" ==> !a.isRead)
    && (q.readStatus == "read" ==> a.isRead)
  }

  /** `source` is a case-insensitive substring test and, when given, the
      `sources` allow-list is not consulted; `exclude_sources` always applies. */
  predicate SourceOk(q: Query, a: Article)
  {
    && (if Given(q.source) then LikeContains(a.sourceName, q.source.value)
        else GivenList(q.sources) ==> a.sourceName in q.sources.value)
    && (GivenList(q.excludeSources) ==> a.sourceName !in q.excludeSources.value)
  }

  /** A comparison with a NULL score is not true, so either bound excludes
      unscored articles. */
  predicate RelevanceOk(q: Query, a: Article)
  {
    && (q.minRelevance.Some? ==> a.relevance.Some? && a.relevance.value >= q.minRelevance.value)
    && (q.maxRelevance.Some? ==> a.relevance.Some? && a.relevance.value <= q.maxRelevance.value)
  }

  predicate SummaryOk(q: Query, a: Article)
  {
    q.hasSummary.Some? ==> (a.summary.Some? <==> q.hasSummary.value)
  }

  /** The published and fetched bounds; a NULL publication date fails every
      published bound. `last_n_days` compares calendar days; a negative
      count makes the modifier `'--n days'`, which SQLite cannot read, so
      the bound is NULL and no row passes. */
  predicate TemporalOk(q: Query, a: Article, now: Timestamp)
  {
    && (q.lastNDays.Some? ==>
          q.lastNDays.value >= 0 && a.published.Some?
          && Day(a.published.value) >= Day(now - q.lastNDays.value * SecondsPerDay))
    && (q.publishedAfter.Some? ==> a.published.Some? && a.published.value >= q.publishedAfter.value)
    && (q.publishedBefore.Some? ==> a.published.Some? && a.published.value <= q.publishedBefore.value)
    && (q.fetchedAfter.Some? ==> a.fetched >= q.fetchedAfter.value)
    && (q.fetchedBefore.Some? ==> a.fetched <= q.fetchedBefore.value)
  }

  /** A LIKE test of an optional column: NULL never matches. */
  predicate FieldContains(field: Option<string>, term: string)
  {
    field.Some? && LikeContains(field.value, term)
  }

  /** The search term must occur in one of the fields `search_in` selects;
      a `search_in` outside the four known values selects none and so adds
      no condition at all. */
  predicate SearchOk(q: Query, a: Article)
  {
    Given(q.searchQuery) && q.searchIn in ["all", "title", "content", "summary"] ==>
      var t := q.searchQuery.value;
      || (q.searchIn in ["all", "title"] && LikeContains(a.title, t))
      || (q.searchIn in ["all", "content"] && FieldContains(a.content, t))
      || (q.searchIn in ["all", "summary"] && FieldContains(a.summary, t))
  }

  /** The excluded term may occur neither in the title nor in a non-null
      content. */
  predicate ExcludeQueryOk(q: Query, a: Article)
  {
    Given(q.excludeQuery) ==>
      !LikeContains(a.title, q.excludeQuery.value) && !FieldContains(a.content, q.excludeQuery.value)
  }

  /** The conditions on the article's own columns. */
  predicate ArticleMatches(q: Query, a: Article, now: Timestamp)
  {
    && ReadStatusOk(q, a)
    && SourceOk(q, a)
    && RelevanceOk(q, a)
    && SummaryOk(q, a)
    && TemporalOk(q, a, now)
    && SearchOk(q, a)
    && ExcludeQueryOk(q, a)
  }

  function MaxRating(fs: seq<Feedback>): (m: int)
    requires fs != []
    ensures forall f :: f in fs ==> f.rating <= m
    ensures exists f :: f in fs && f.rating == m
  {
    if |fs| == 1 then fs[0].rating
    else
      var m := MaxRating(fs[..|fs| - 1]);
      assert forall f :: f in fs ==> f in fs[..|fs| - 1] || f == fs[|fs| - 1];
      if fs[|fs| - 1].rating > m then fs[|fs| - 1].rating else m
  }

  function MinRating(fs: seq<Feedback>): (m: int)
    requires fs != []
    ensures forall f :: f in fs ==> m <= f.rating
    ensures exists f :: f in fs && f.rating == m
  {
    if |fs| == 1 then fs[0].rating
    else
      var m := MinRating(fs[..|fs| - 1]);
      assert forall f :: f in fs ==> f in fs[..|fs| - 1] || f == fs[|fs| - 1];
      if fs[|fs| - 1].rating < m then fs[|fs| - 1].rating else m
  }

  /** The sub-query of `controversial`: at least three ratings whose spread
      is at least three, over all of the article's feedback. */
  predicate Controversial(feedback: seq<Feedback>, id: int)
  {
    var fs := FeedbackOf(feedback, id);
    |fs| >= 3 && MaxRating(fs) - MinRating(fs) >= 3
  }

  /** The conditions on the joined feedback row. `min_rating` tests this
      row; `controversial = False` adds nothing. */
  predicate FeedbackMatches(q: Query, feedback: seq<Feedback>, r: JoinRow)
  {
    && (q.withFeedback.Some? ==> (r.fb.Some? <==> q.withFeedback.value))
    && (q.minRating.Some? ==> r.fb.Some? && r.fb.value.rating as real >= q.minRating.value)
    && (q.controversial == Some(true) ==> Controversial(feedback, r.article.id))
  }

  predicate RowMatches(q: Query, feedback: seq<Feedback>, now: Timestamp, r: JoinRow)
  {
    ArticleMatches(q, r.article, now) && FeedbackMatches(q, feedback, r)
  }

  /** The joined rows the WHERE clause keeps, in table order. */
  function Selected(articles: seq<Article>, feedback: seq<Feedback>, q: Query, now: Timestamp): seq<JoinRow>
  {
    Filter(Join(articles, feedback, JoinsFeedback(q)), (r: JoinRow) => RowMatches(q, feedback, now, r))
  }

  function ArticlesOf(rows: seq<JoinRow>): (r: seq<Article>)
    ensures |r| == |rows|
    ensures forall i :: 0 <= i < |rows| ==> r[i] == rows[i].article
  {
    seq(|rows|, i requires 0 <= i < |rows| => rows[i].article)
  }

  predicate HasId(s: seq<Article>, id: int)
  {
    exists k :: 0 <= k < |s| && s[k].id == id
  }

  /** `GROUP BY a.id`: the first row of every article id. */
  function FirstPerId(s: seq<Article>): (r: seq<Article>)
    ensures |r| <= |s|
    ensures forall a :: a in r ==> a in s
    ensures forall a :: a in s ==> HasId(r, a.id)
    ensures DistinctBy(r, (a: Article) => a.id)
  {
    if s == [] then []
    else
      var init := FirstPerId(s[..|s| - 1]);
      var last := s[|s| - 1];
      assert forall a :: a in s ==> a in s[..|s| - 1] || a == last;
      if HasId(init, last.id) then init
      else
        assert forall a: Article :: HasId(init, a.id) ==> HasId(init + [last], a.id) by {
          forall a: Article | HasId(init, a.id) ensures HasId(init + [last], a.id) {
            var k :| 0 <= k < |init| && init[k].id == a.id;
            assert (init + [last])[k] == init[k];
          }
        }
        assert (init + [last])[|init|] == last;
        init + [last]
  }

  /** The rows before ORDER BY. */
  function Candidates(rows: seq<JoinRow>, q: Query): seq<Article>
  {
    if GroupsByArticle(q) then FirstPerId(ArticlesOf(rows)) else ArticlesOf(rows)
  }

  /** `LIMIT`, added when the limit is truthy (a negative one bounds
      nothing), and `OFFSET`, added when positive. An OFFSET without a LIMIT
      is a syntax error in SQLite, reported as None. */
  function Page<T>(s: seq<T>, limit: Option<int>, offset: int): (r: Option<seq<T>>)
    ensures r.None? <==> !(limit.Some? && limit.value != 0) && offset > 0
    ensures r.Some? ==> r.value <= s[Min(Max(offset, 0), |s|)..]
    ensures r.Some? && limit.Some? && limit.value > 0 ==>
      |r.value| == Min(limit.value, |s| - Min(Max(offset, 0), |s|))
    ensures r.Some? && (limit.None? || limit.value <= 0) ==> r.value == s[Min(Max(offset, 0), |s|)..]
  {
    var hasLimit := limit.Some? && limit.value != 0;
    if !hasLimit && offset > 0 then None
    else
      var rest := if offset > 0 then s[Min(offset, |s|)..] else s;
      Some(if hasLimit then SqlLimit(rest, limit.value) else rest)
  }

  /** The selected columns: without `include_content` the content and deep
      analysis are not fetched, which a reader of the row sees as null. */
  function Project(a: Article, includeContent: bool): (p: Article)
    ensures p.id == a.id && p.url == a.url && p.title == a.title && p.sourceName == a.sourceName
    ensures p.published == a.published && p.fetched == a.fetched && p.relevance == a.relevance
    ensures p.isRead == a.isRead && p.summary == a.summary
    ensures includeContent ==> p == a
    ensures !includeContent ==> p.content.None? && p.deepAnalysis.None?
  {
    if includeContent then a else a.(content := None, deepAnalysis := None)
  }

  /** The three feedback columns attached to a returned article. */
  datatype FeedbackEntry = FeedbackEntry(rating: int, note: Option<string>, createdAt: Timestamp)

  function EntryOf(f: Feedback): FeedbackEntry
  {
    FeedbackEntry(f.rating, f.note, f.createdAt)
  }

  function Entries(fs: seq<Feedback>): (es: seq<FeedbackEntry>)
    ensures |es| == |fs|
    ensures forall i :: 0 <= i < |fs| ==> es[i] == EntryOf(fs[i])
  {
    seq(|fs|, i requires 0 <= i < |fs| => EntryOf(fs[i]))
  }

  function NewerOrSame(): (Feedback, Feedback) -> bool
  {
    (f: Feedback, g: Feedback) => f.createdAt >= g.createdAt
  }

  /** `ORDER BY created_at DESC` over one article's feedback. */
  function NewestFirst(feedback: seq<Feedback>, id: int): seq<Feedback>
  {
    SortBy(FeedbackOf(feedback, id), NewerOrSame())
  }

  datatype ArticleView = ArticleView(article: Article, feedback: Option<seq<FeedbackEntry>>)

  function View(a: Article, q: Query, feedback: seq<Feedback>): ArticleView
  {
    ArticleView(Project(a, q.includeContent),
                if q.includeFeedback then Some(Entries(NewestFirst(feedback, a.id))) else None)
  }

  function Views(page: seq<Article>, q: Query, feedback: seq<Feedback>): (vs: seq<ArticleView>)
    ensures |vs| == |page|
    ensures forall i :: 0 <= i < |page| ==> vs[i] == View(page[i], q, feedback)
  {
    seq(|page|, i requires 0 <= i < |page| => View(page[i], q, feedback))
  }

  datatype SourceGroup = SourceGroup(source: string, members: seq<ArticleView>)

  /** The distinct source names of `vs`, in order of first appearance (the
      key order of the Python dict). */
  function SourceKeys(vs: seq<ArticleView>): (keys: seq<string>)
    ensures forall k :: k in keys <==> exists v :: v in vs && v.article.sourceName == k
    ensures forall i, j :: 0 <= i < j < |keys| ==> keys[i] != keys[j]
  {
    if vs == [] then []
    else
      var init := SourceKeys(vs[..|vs| - 1]);
      var last := vs[|vs| - 1];
      assert forall v :: v in vs ==> v in vs[..|vs| - 1] || v == last;
      if last.article.sourceName in init then init else init + [last.article.sourceName]
  }

  function OfSource(vs: seq<ArticleView>, source: string): seq<ArticleView>
  {
    Filter(vs, (v: ArticleView) => v.article.sourceName == source)
  }

  /** The `grouped` dictionary of `group_by = "source"`. */
  function GroupBySource(vs: seq<ArticleView>): seq<SourceGroup>
  {
    var keys := SourceKeys(vs);
    seq(|keys|, i requires 0 <= i < |keys| => SourceGroup(keys[i], OfSource(vs, keys[i])))
  }

  /** What the query returns: a SQL error, the `stats_only` count, or the
      rows with their optional grouping and their number. */
  datatype Outcome =
    | SqlError
    | Count(totalCount: nat)
    | Listing(articles: seq<ArticleView>, grouped: Option<seq<SourceGroup>>, total: nat)

  /** The rows after GROUP BY and ORDER BY. */
  function Ordered(articles: seq<Article>, feedback: seq<Feedback>, q: Query, now: Timestamp): seq<Article>
  {
    SortBy(Candidates(Selected(articles, feedback, q, now), q), Le(SortKeyOf(q.sortBy)))
  }

  function QueryArticlesAdvanced(articles: seq<Article>, feedback: seq<Feedback>, q: Query, now: Timestamp): (r: Outcome)
    ensures r.SqlError? <==> !q.statsOnly && q.offset > 0 && !HasLimit(q)
    ensures r.Count? <==> q.statsOnly
    ensures r.Count? ==> r.totalCount == |Selected(articles, feedback, q, now)|
    ensures r.Listing? ==> r.total == |r.articles|
    ensures r.Listing? && q.limit.Some? && q.limit.value > 0 ==> r.total <= q.limit.value
    ensures r.Listing? ==> (r.grouped.Some? <==> q.groupBy == Some("source"))
    ensures r.Listing? ==> forall v :: v in r.articles ==> (v.feedback.Some? <==> q.includeFeedback)
  {
    if q.statsOnly then Count(|Selected(articles, feedback, q, now)|)
    else
      match Page(Ordered(articles, feedback, q, now), q.limit, q.offset)
      case None => SqlError
      case Some(page) =>
        var vs := Views(page, q, feedback);
        Listing(vs, if q.groupBy == Some("source") then Some(GroupBySource(vs)) else None, |vs|)
  }

  /** The query run against the store. It has no `modifies` clause: it
      leaves every table, and every read flag, as it was. */
  method QueryStore(db: Database, q: Query, now: Timestamp) returns (r: Outcome)
    ensures r == QueryArticlesAdvanced(db.articles, db.feedback, q, now)
  {
    r := QueryArticlesAdvanced(db.articles, db.feedback, q, now);
  }
}
