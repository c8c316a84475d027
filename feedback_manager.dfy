/** Reader feedback: writing a rating, the per-article history, and the
    aggregates the learning report is built from (rating counts, per-source
    preferences, the agreement between the scorer and the reader), plus the
    relevance threshold kept in the configuration. */
module FeedbackManager {

  import opened Common
  import opened Schema
  import opened Sorting
  import opened ArticleManager
  import opened ArticleQuery

  /** `add_feedback`: one row is inserted with the next id. A rating outside
      1..5 violates the CHECK constraint, the insert raises and nothing is
      written. The article id is not checked: the foreign key is declared
      but the store does not enforce it. */
  method AddFeedback(db: Database, articleId: int, rating: int, note: Option<string>, now: Timestamp)
    returns (id: Option<int>)
    requires db.Valid()
    modifies db
    ensures db.Valid()
    ensures id.None? <==> !ValidRating(rating)
    ensures id.None? ==> db.feedback == old(db.feedback) && db.nextFeedbackId == old(db.nextFeedbackId)
    ensures id.Some? ==>
      && id.value == old(db.nextFeedbackId)
      && db.feedback == old(db.feedback) + [Feedback(id.value, articleId, rating, note, now)]
      && db.nextFeedbackId == old(db.nextFeedbackId) + 1
    ensures db.articles == old(db.articles) && db.profile == old(db.profile)
    ensures db.nextArticleId == old(db.nextArticleId)
  {
    if !ValidRating(rating) {
      return None;
    }
    id := Some(db.nextFeedbackId);
    db.feedback := db.feedback + [Feedback(db.nextFeedbackId, articleId, rating, note, now)];
    db.nextFeedbackId := db.nextFeedbackId + 1;
  }

  /** `get_article_feedback`: the article's rows, newest first. */
  function GetArticleFeedback(feedback: seq<Feedback>, articleId: int): seq<Feedback>
  {
    NewestFirst(feedback, articleId)
  }

  lemma GetArticleFeedbackSpec(feedback: seq<Feedback>, articleId: int)
    ensures var r := GetArticleFeedback(feedback, articleId);
      && multiset(r) == multiset(FeedbackOf(feedback, articleId))
      && (forall f :: f in r <==> f in feedback && f.articleId == articleId)
      && forall i, j :: 0 <= i < j < |r| ==> r[i].createdAt >= r[j].createdAt
  {
    var fs := FeedbackOf(feedback, articleId);
    var r := GetArticleFeedback(feedback, articleId);
    assert Total(NewerOrSame()) && Transitive(NewerOrSame());
    SortBySorted(fs, NewerOrSame());
    forall i, j | 0 <= i < j < |r| ensures r[i].createdAt >= r[j].createdAt {
      assert NewerOrSame()(r[i], r[j]);
    }
    forall f ensures f in r <==> f in fs {
      SortByMembers(fs, NewerOrSame(), f);
    }
  }

  // ----- rating aggregates -----

  function SumRatings(fs: seq<Feedback>): int
  {
    if fs == [] then 0 else SumRatings(fs[..|fs| - 1]) + fs[|fs| - 1].rating
  }

  /** `AVG(rating)`: NULL over no rows. */
  function AverageRating(fs: seq<Feedback>): Option<real>
  {
    if fs == [] then None else Some(SumRatings(fs) as real / |fs| as real)
  }

  predicate IsPositive(f: Feedback) { f.rating >= 4 }
  predicate IsNegative(f: Feedback) { f.rating <= 2 }

  /** `SUM(CASE WHEN ... THEN 1 ELSE 0 END)`: NULL over no rows. */
  function SumOfFlags(fs: seq<Feedback>, p: Feedback -> bool): Option<nat>
  {
    if fs == [] then None else Some(CountWhere(fs, p))
  }

  datatype FeedbackStats = FeedbackStats(
    totalFeedback: nat,
    avgRating: Option<real>,
    positiveCount: Option<nat>,
    negativeCount: Option<nat>)

  /** `get_feedback_stats`. */
  function GetFeedbackStats(feedback: seq<Feedback>): FeedbackStats
  {
    FeedbackStats(|feedback|, AverageRating(feedback), SumOfFlags(feedback, IsPositive), SumOfFlags(feedback, IsNegative))
  }

  lemma {:induction false} RatingSumBounds(fs: seq<Feedback>)
    requires forall f :: f in fs ==> ValidRating(f.rating)
    ensures |fs| <= SumRatings(fs) <= 5 * |fs|
  {
    if fs != [] {
      assert forall f :: f in fs[..|fs| - 1] ==> f in fs;
      RatingSumBounds(fs[..|fs| - 1]);
      assert fs[|fs| - 1] in fs;
    }
  }

  /** Positive and negative ratings never overlap, the three aggregates are
      NULL exactly on an empty table, and the average of CHECKed ratings lies
      in [1, 5]. */
  lemma FeedbackStatsSpec(feedback: seq<Feedback>)
    requires forall f :: f in feedback ==> ValidRating(f.rating)
    ensures var st := GetFeedbackStats(feedback);
      && st.totalFeedback == |feedback|
      && (feedback == [] <==> st.avgRating.None?)
      && (feedback == [] <==> st.positiveCount.None?)
      && (feedback == [] <==> st.negativeCount.None?)
      && (st.avgRating.Some? ==> 1.0 <= st.avgRating.value <= 5.0)
      && (st.positiveCount.Some? && st.negativeCount.Some? ==>
            st.positiveCount.value + st.negativeCount.value <= st.totalFeedback)
  {
    CountWhereDisjoint(feedback, IsPositive, IsNegative);
    RatingSumBounds(feedback);
    if feedback != [] {
      var n := |feedback| as real;
      var sum := SumRatings(feedback) as real;
      DivBetween(sum, n, 1.0, 5.0);
    }
  }

  // ----- feedback joined to its article -----

  /** `feedback f JOIN articles a ON f.article_id = a.id`, in feedback order.
      Article ids are unique, so a row joins at most one article. */
  function JoinedFeedback(articles: seq<Article>, feedback: seq<Feedback>): (r: seq<(Article, Feedback)>)
    ensures forall p :: p in r ==> p.0 in articles && p.1 in feedback && p.0.id == p.1.articleId
    ensures forall f :: f in feedback && GetArticle(articles, f.articleId).Some? ==>
              (GetArticle(articles, f.articleId).value, f) in r
  {
    if feedback == [] then []
    else
      var init := JoinedFeedback(articles, feedback[..|feedback| - 1]);
      var f := feedback[|feedback| - 1];
      assert forall g :: g in feedback ==> g in feedback[..|feedback| - 1] || g == f;
      match GetArticle(articles, f.articleId)
      case None => init
      case Some(a) => init + [(a, f)]
  }

  datatype SummaryRow = SummaryRow(title: string, source: string, rating: int, note: Option<string>, date: Timestamp)

  function SummaryOf(p: (Article, Feedback)): SummaryRow
  {
    SummaryRow(p.0.title, p.0.sourceName, p.1.rating, p.1.note, p.1.createdAt)
  }

  function NewerPairOrSame(): ((Article, Feedback), (Article, Feedback)) -> bool
  {
    (p: (Article, Feedback), q: (Article, Feedback)) => p.1.createdAt >= q.1.createdAt
  }

  /** `get_feedback_summary`: the joined rows newest first, `LIMIT ?`. */
  function GetFeedbackSummary(articles: seq<Article>, feedback: seq<Feedback>, limit: int): seq<SummaryRow>
  {
    var ordered := SortBy(JoinedFeedback(articles, feedback), NewerPairOrSame());
    var rows := SqlLimit(ordered, limit);
    seq(|rows|, i requires 0 <= i < |rows| => SummaryOf(rows[i]))
  }

  /** The rows are built from feedback rows and the articles they refer
      to, newest first; a limit of zero or more gives that many of them (all
      when fewer exist) and a negative one every such row. No row left out
      is newer than a listed one. */
  lemma FeedbackSummarySpec(articles: seq<Article>, feedback: seq<Feedback>, limit: int)
    ensures var r := GetFeedbackSummary(articles, feedback, limit);
      && (limit >= 0 ==>
            |r| == Min(limit, CountWhere(feedback, (f: Feedback) => GetArticle(articles, f.articleId).Some?)))
      && (forall i, j :: 0 <= i < j < |r| ==> r[i].date >= r[j].date)
      && (forall row :: row in r ==>
            exists a, f :: a in articles && f in feedback && a.id == f.articleId && row == SummaryOf((a, f)))
      && (limit < 0 ==> forall f :: f in feedback && GetArticle(articles, f.articleId).Some? ==>
            SummaryOf((GetArticle(articles, f.articleId).value, f)) in r)
      && (forall f :: f in feedback && GetArticle(articles, f.articleId).Some?
                      && SummaryOf((GetArticle(articles, f.articleId).value, f)) !in r ==>
            forall i :: 0 <= i < |r| ==> r[i].date >= f.createdAt)
  {
    var joined := JoinedFeedback(articles, feedback);
    var ordered := SortBy(joined, NewerPairOrSame());
    var rows := SqlLimit(ordered, limit);
    var r := GetFeedbackSummary(articles, feedback, limit);
    JoinedFeedbackCount(articles, feedback);
    assert Total(NewerPairOrSame()) && Transitive(NewerPairOrSame());
    SortBySorted(joined, NewerPairOrSame());
    forall i, j | 0 <= i < j < |r| ensures r[i].date >= r[j].date {
      assert rows[i] == ordered[i] && rows[j] == ordered[j];
      assert NewerPairOrSame()(ordered[i], ordered[j]);
    }
    forall row | row in r
      ensures exists a, f :: a in articles && f in feedback && a.id == f.articleId && row == SummaryOf((a, f))
    {
      var i :| 0 <= i < |r| && r[i] == row;
      assert rows[i] == ordered[i];
      SortByMembers(joined, NewerPairOrSame(), ordered[i]);
    }
    if limit < 0 {
      forall f | f in feedback && GetArticle(articles, f.articleId).Some?
        ensures SummaryOf((GetArticle(articles, f.articleId).value, f)) in r
      {
        var p := (GetArticle(articles, f.articleId).value, f);
        SortByMembers(joined, NewerPairOrSame(), p);
        var i :| 0 <= i < |ordered| && ordered[i] == p;
        assert r[i] == SummaryOf(p);
      }
    }
    forall f | f in feedback && GetArticle(articles, f.articleId).Some?
      ensures SummaryOf((GetArticle(articles, f.articleId).value, f)) in r
              || forall i :: 0 <= i < |r| ==> r[i].date >= f.createdAt
    {
      SummaryLeftOut(articles, feedback, limit, f);
    }
  }

  /** A joined feedback row is summarised, or is no newer than every
      summarised row. */
  lemma SummaryLeftOut(articles: seq<Article>, feedback: seq<Feedback>, limit: int, f: Feedback)
    requires f in feedback && GetArticle(articles, f.articleId).Some?
    ensures var r := GetFeedbackSummary(articles, feedback, limit);
      SummaryOf((GetArticle(articles, f.articleId).value, f)) in r
      || forall i :: 0 <= i < |r| ==> r[i].date >= f.createdAt
  {
    var joined := JoinedFeedback(articles, feedback);
    var ordered := SortBy(joined, NewerPairOrSame());
    var rows := SqlLimit(ordered, limit);
    var r := GetFeedbackSummary(articles, feedback, limit);
    var p := (GetArticle(articles, f.articleId).value, f);
    assert Total(NewerPairOrSame()) && Transitive(NewerPairOrSame());
    SortBySorted(joined, NewerPairOrSame());
    SortByMembers(joined, NewerPairOrSame(), p);
    assert rows == ordered[..|rows|];
    LeftOutComesAfter(ordered, NewerPairOrSame(), |rows|, p);
    if p in rows {
      var i :| 0 <= i < |rows| && rows[i] == p;
      assert r[i] == SummaryOf(p);
    } else {
      forall i | 0 <= i < |r| ensures r[i].date >= f.createdAt {
        assert NewerPairOrSame()(ordered[i], p);
      }
    }
  }

  /** One joined row per feedback row whose article exists. */
  lemma {:induction false} JoinedFeedbackCount(articles: seq<Article>, feedback: seq<Feedback>)
    ensures |JoinedFeedback(articles, feedback)| == CountWhere(feedback, (f: Feedback) => GetArticle(articles, f.articleId).Some?)
  {
    if feedback != [] {
      JoinedFeedbackCount(articles, feedback[..|feedback| - 1]);
    }
  }

  // ----- per-source preferences -----

  datatype SourcePreference = SourcePreference(source: string, avgRating: real, feedbackCount: nat)

  function SourcesOf(joined: seq<(Article, Feedback)>): seq<string>
  {
    seq(|joined|, i requires 0 <= i < |joined| => joined[i].0.sourceName)
  }

  function RowsOfSource(joined: seq<(Article, Feedback)>, source: string): seq<Feedback>
  {
    var rows := Filter(joined, (p: (Article, Feedback)) => p.0.sourceName == source);
    seq(|rows|, i requires 0 <= i < |rows| => rows[i].1)
  }

  /** One group of `GROUP BY a.source_name`: its average and row count. */
  function PreferenceOf(joined: seq<(Article, Feedback)>, source: string): SourcePreference
  {
    var rows := RowsOfSource(joined, source);
    SourcePreference(source, if rows == [] then 0.0 else SumRatings(rows) as real / |rows| as real, |rows|)
  }

  function HigherAverageOrSame(): (SourcePreference, SourcePreference) -> bool
  {
    (p: SourcePreference, q: SourcePreference) => p.avgRating >= q.avgRating
  }

  /** `get_source_preferences`: one entry per source with at least two
      joined feedback rows, highest average first. */
  function GetSourcePreferences(articles: seq<Article>, feedback: seq<Feedback>): seq<SourcePreference>
  {
    var groups := SourceGroups(JoinedFeedback(articles, feedback));
    SortBy(Filter(groups, (g: SourcePreference) => g.feedbackCount >= 2), HigherAverageOrSame())
  }

  /** The groups before the HAVING and ORDER BY clauses: one per source. */
  function SourceGroups(joined: seq<(Article, Feedback)>): (groups: seq<SourcePreference>)
    ensures |groups| == |Dedup(SourcesOf(joined))|
    ensures forall i :: 0 <= i < |groups| ==> groups[i] == PreferenceOf(joined, Dedup(SourcesOf(joined))[i])
  {
    var names := Dedup(SourcesOf(joined));
    seq(|names|, i requires 0 <= i < |names| => PreferenceOf(joined, names[i]))
  }

  /** Every entry is the true group of its source and has at least two rows;
      a source is listed iff it has at least two joined rows. */
  lemma SourcePreferencesSpec(articles: seq<Article>, feedback: seq<Feedback>)
    ensures var joined := JoinedFeedback(articles, feedback);
      var r := GetSourcePreferences(articles, feedback);
      && (forall p :: p in r ==> p == PreferenceOf(joined, p.source) && p.feedbackCount >= 2)
      && (forall s :: |RowsOfSource(joined, s)| >= 2 ==> exists p :: p in r && p.source == s)
  {
    PreferencesSound(articles, feedback);
    PreferencesComplete(articles, feedback);
  }

  lemma PreferencesSound(articles: seq<Article>, feedback: seq<Feedback>)
    ensures var joined := JoinedFeedback(articles, feedback);
      forall p :: p in GetSourcePreferences(articles, feedback) ==>
        p == PreferenceOf(joined, p.source) && p.feedbackCount >= 2
  {
    var joined := JoinedFeedback(articles, feedback);
    var groups := SourceGroups(joined);
    var kept := Filter(groups, (g: SourcePreference) => g.feedbackCount >= 2);
    var r := GetSourcePreferences(articles, feedback);
    assert r == SortBy(kept, HigherAverageOrSame());
    forall p | p in r ensures p == PreferenceOf(joined, p.source) && p.feedbackCount >= 2 {
      SortByMembers(kept, HigherAverageOrSame(), p);
      var i :| 0 <= i < |groups| && groups[i] == p;
    }
  }

  lemma PreferencesComplete(articles: seq<Article>, feedback: seq<Feedback>)
    ensures var joined := JoinedFeedback(articles, feedback);
      forall s :: |RowsOfSource(joined, s)| >= 2 ==>
        exists p :: p in GetSourcePreferences(articles, feedback) && p.source == s
  {
    var joined := JoinedFeedback(articles, feedback);
    var names := Dedup(SourcesOf(joined));
    var groups := SourceGroups(joined);
    var kept := Filter(groups, (g: SourcePreference) => g.feedbackCount >= 2);
    var r := GetSourcePreferences(articles, feedback);
    assert r == SortBy(kept, HigherAverageOrSame());
    forall s | |RowsOfSource(joined, s)| >= 2 ensures exists p :: p in r && p.source == s {
      SourceKeysAreRowSources(joined, s);
      var i :| 0 <= i < |names| && names[i] == s;
      assert groups[i] in kept;
      SortByMembers(kept, HigherAverageOrSame(), groups[i]);
    }
  }

  /** A source has joined rows exactly when it is one of the group keys. */
  lemma SourceKeysAreRowSources(joined: seq<(Article, Feedback)>, s: string)
    ensures |RowsOfSource(joined, s)| > 0 ==> s in Dedup(SourcesOf(joined))
  {
    var rows := Filter(joined, (p: (Article, Feedback)) => p.0.sourceName == s);
    if |rows| > 0 {
      assert rows[0] in joined;
      var k :| 0 <= k < |joined| && joined[k] == rows[0];
      assert SourcesOf(joined)[k] == s;
    }
  }

  /** Sources are listed once each, highest average first. */
  lemma SourcePreferencesOrdered(articles: seq<Article>, feedback: seq<Feedback>)
    ensures var r := GetSourcePreferences(articles, feedback);
      && DistinctBy(r, (p: SourcePreference) => p.source)
      && forall i, j :: 0 <= i < j < |r| ==> r[i].avgRating >= r[j].avgRating
  {
    var joined := JoinedFeedback(articles, feedback);
    var names := Dedup(SourcesOf(joined));
    var groups := SourceGroups(joined);
    assert groups == seq(|names|, i requires 0 <= i < |names| => PreferenceOf(joined, names[i]));
    var keep := (g: SourcePreference) => g.feedbackCount >= 2;
    var kept := Filter(groups, keep);
    var r := GetSourcePreferences(articles, feedback);
    var key := (p: SourcePreference) => p.source;
    assert DistinctBy(groups, key) by {
      forall i, j | 0 <= i < j < |groups| ensures key(groups[i]) != key(groups[j]) {
        assert groups[i].source == names[i] && groups[j].source == names[j];
      }
    }
    FilterDistinct(groups, keep, key);
    SortByDistinct(kept, HigherAverageOrSame(), key);
    assert Total(HigherAverageOrSame()) && Transitive(HigherAverageOrSame());
    SortBySorted(kept, HigherAverageOrSame());
    forall i, j | 0 <= i < j < |r| ensures r[i].avgRating >= r[j].avgRating {
      assert HigherAverageOrSame()(r[i], r[j]);
    }
  }

  // ----- article statistics -----

  predicate IsUnread(a: Article) { !a.isRead }

  /** `relevance_score >= 0.6`; a NULL score is not relevant. */
  predicate IsRelevant(a: Article) { a.relevance.Some? && a.relevance.value >= 0.6 }

  function ArticleFlags(articles: seq<Article>, p: Article -> bool): Option<nat>
  {
    if articles == [] then None else Some(CountWhere(articles, p))
  }

  function CountOfSource(articles: seq<Article>, source: string): nat
  {
    CountWhere(articles, (a: Article) => a.sourceName == source)
  }

  function SourceNames(articles: seq<Article>): seq<string>
  {
    Dedup(seq(|articles|, i requires 0 <= i < |articles| => articles[i].sourceName))
  }

  function HigherCountOrSame(): ((string, nat), (string, nat)) -> bool
  {
    (p: (string, nat), q: (string, nat)) => p.1 >= q.1
  }

  datatype Stats = Stats(
    totalArticles: nat,
    unreadCount: Option<nat>,
    relevantCount: Option<nat>,
    totalFeedback: nat,
    avgRating: Option<real>,
    sourceCount: nat,
    articlesBySource: seq<(string, nat)>)

  /** `get_stats`; `articles_by_source` is kept as the (source, count) pairs
      in the order of the dict, most articles first. */
  function GetStats(articles: seq<Article>, feedback: seq<Feedback>): Stats
  {
    Stats(|articles|, ArticleFlags(articles, IsUnread), ArticleFlags(articles, IsRelevant),
          |feedback|, AverageRating(feedback), |SourceNames(articles)|, ArticlesBySource(articles))
  }

  /** The source names are exactly those of the table, each once. */
  lemma SourceNamesSpec(articles: seq<Article>)
    ensures forall s :: s in SourceNames(articles) <==> exists a :: a in articles && a.sourceName == s
    ensures |SourceNames(articles)| == |set a | a in articles :: a.sourceName|
  {
    var all := seq(|articles|, i requires 0 <= i < |articles| => articles[i].sourceName);
    var names := SourceNames(articles);
    forall x | x in names ensures exists a :: a in articles && a.sourceName == x {
      var k :| 0 <= k < |all| && all[k] == x;
      assert articles[k] in articles;
    }
    forall a | a in articles ensures a.sourceName in names {
      var k :| 0 <= k < |articles| && articles[k] == a;
      assert all[k] == a.sourceName;
    }
    DistinctCard(names);
    assert (set x | x in names) == (set a | a in articles :: a.sourceName);
  }

  /** The counts are bounded by the table size and `source_count` is the
      number of distinct source names. */
  lemma StatsSpec(articles: seq<Article>, feedback: seq<Feedback>)
    ensures var st := GetStats(articles, feedback);
      && st.totalArticles == |articles|
      && (articles == [] <==> st.unreadCount.None?)
      && (articles == [] <==> st.relevantCount.None?)
      && (st.unreadCount.Some? ==> st.unreadCount.value <= st.totalArticles)
      && (st.relevantCount.Some? ==> st.relevantCount.value <= st.totalArticles)
      && st.sourceCount == |set a | a in articles :: a.sourceName|
      && |st.articlesBySource| == st.sourceCount
  {
    SourceNamesSpec(articles);
    CountWhereImplies(articles, IsUnread, (a: Article) => true);
    CountWhereImplies(articles, IsRelevant, (a: Article) => true);
    CountAll(articles);
  }

  /** (source, count) pairs before the ORDER BY. */
  function SourceCounts(articles: seq<Article>): (counts: seq<(string, nat)>)
    ensures |counts| == |SourceNames(articles)|
    ensures forall i :: 0 <= i < |counts| ==>
              counts[i] == (SourceNames(articles)[i], CountOfSource(articles, SourceNames(articles)[i]))
  {
    var names := SourceNames(articles);
    seq(|names|, i requires 0 <= i < |names| => (names[i], CountOfSource(articles, names[i])))
  }

  /** `GROUP BY source_name ORDER BY count DESC`. */
  function ArticlesBySource(articles: seq<Article>): seq<(string, nat)>
  {
    SortBy(SourceCounts(articles), HigherCountOrSame())
  }

  /** `articles_by_source` holds every source of the table with its true
      count, which is at least one. */
  lemma ArticlesBySourceSpec(articles: seq<Article>)
    ensures var bySource := ArticlesBySource(articles);
      && (forall p :: p in bySource ==>
            && p.1 == CountOfSource(articles, p.0) && p.1 >= 1
            && exists a :: a in articles && a.sourceName == p.0)
      && forall a :: a in articles ==> exists p :: p in bySource && p.0 == a.sourceName
  {
    var names := SourceNames(articles);
    var counts := SourceCounts(articles);
    var bySource := ArticlesBySource(articles);
    SourceNamesSpec(articles);
    forall p | p in bySource
      ensures p.1 == CountOfSource(articles, p.0) && p.1 >= 1 && exists a :: a in articles && a.sourceName == p.0
    {
      SortByMembers(counts, HigherCountOrSame(), p);
      var i :| 0 <= i < |counts| && counts[i] == p;
      assert names[i] in names;
      var a :| a in articles && a.sourceName == names[i];
      var k :| 0 <= k < |articles| && articles[k] == a;
      SourceCounted(articles, k);
    }
    forall a | a in articles ensures exists p :: p in bySource && p.0 == a.sourceName {
      assert a.sourceName in names;
      var i :| 0 <= i < |names| && names[i] == a.sourceName;
      SortByMembers(counts, HigherCountOrSame(), counts[i]);
    }
  }

  /** Each source is listed once, most articles first. */
  lemma ArticlesBySourceOrdered(articles: seq<Article>)
    ensures var bySource := ArticlesBySource(articles);
      && DistinctBy(bySource, (p: (string, nat)) => p.0)
      && forall i, j :: 0 <= i < j < |bySource| ==> bySource[i].1 >= bySource[j].1
  {
    var counts := SourceCounts(articles);
    var bySource := ArticlesBySource(articles);
    var key := (p: (string, nat)) => p.0;
    assert DistinctBy(counts, key) by {
      forall i, j | 0 <= i < j < |counts| ensures key(counts[i]) != key(counts[j]) {
      }
    }
    SortByDistinct(counts, HigherCountOrSame(), key);
    assert Total(HigherCountOrSame()) && Transitive(HigherCountOrSame());
    SortBySorted(counts, HigherCountOrSame());
    forall i, j | 0 <= i < j < |bySource| ensures bySource[i].1 >= bySource[j].1 {
      assert HigherCountOrSame()(bySource[i], bySource[j]);
    }
  }

  lemma {:induction false} CountAll(articles: seq<Article>)
    ensures CountWhere(articles, (a: Article) => true) == |articles|
  {
    if articles != [] {
      CountAll(articles[..|articles| - 1]);
    }
  }

  /** The source of the `k`-th article is counted at least once. */
  lemma {:induction false} SourceCounted(articles: seq<Article>, k: nat)
    requires k < |articles|
    ensures CountOfSource(articles, articles[k].sourceName) >= 1
  {
    var s := articles[k].sourceName;
    var init := articles[..|articles| - 1];
    if k < |articles| - 1 {
      assert init[k] == articles[k];
      SourceCounted(init, k);
    }
  }

  // ----- agreement between the scorer and the reader -----

  /** A joined row whose article has a score. */
  predicate Scored(p: (Article, Feedback))
  {
    p.0.relevance.Some?
  }

  /** The score and the rating read as a fraction of 5 differ by more than
      0.3; judged per feedback row. */
  predicate Discrepant(p: (Article, Feedback))
  {
    p.0.relevance.Some? && AbsReal(p.0.relevance.value - p.1.rating as real / 5.0) > 0.3
  }

  datatype Accuracy = Accuracy(totalWithScores: nat, totalDiscrepancies: nat, accuracyRate: real)

  function AccuracyRate(total: nat, discrepancies: nat): real
  {
    if total == 0 then 1.0 else 1.0 - discrepancies as real / total as real
  }

  /** The `ai_accuracy` part of `get_learning_stats`. */
  function GetAccuracy(articles: seq<Article>, feedback: seq<Feedback>): Accuracy
  {
    var joined := JoinedFeedback(articles, feedback);
    var total := CountWhere(joined, Scored);
    var discrepancies := CountWhere(joined, Discrepant);
    Accuracy(total, discrepancies, AccuracyRate(total, discrepancies))
  }

  /** Discrepancies are among the scored rows, so the rate lies in [0, 1];
      it is 1 exactly when nothing disagrees and 0 exactly when every scored
      row does. */
  lemma AccuracySpec(articles: seq<Article>, feedback: seq<Feedback>)
    ensures var acc := GetAccuracy(articles, feedback);
      && acc.totalDiscrepancies <= acc.totalWithScores
      && 0.0 <= acc.accuracyRate <= 1.0
      && (acc.accuracyRate == 1.0 <==> acc.totalDiscrepancies == 0)
      && (acc.totalWithScores > 0 ==> (acc.accuracyRate == 0.0 <==> acc.totalDiscrepancies == acc.totalWithScores))
  {
    var joined := JoinedFeedback(articles, feedback);
    CountWhereImplies(joined, Discrepant, Scored);
    var acc := GetAccuracy(articles, feedback);
    if acc.totalWithScores > 0 {
      var d := acc.totalDiscrepancies as real;
      var t := acc.totalWithScores as real;
      DivBetween(d, t, 0.0, 1.0);
      DivZeroOne(d, t);
    }
  }

  /** Two ratings of one article both count: one article scored 1.0 and
      rated 1 twice gives two discrepancies and a rate of 0. */
  lemma DiscrepanciesArePerRow()
    ensures var a := Article(1, "u", "t", None, None, None, "s", None, 0, Some(1.0), false);
      var fs := [Feedback(1, 1, 1, None, 0), Feedback(2, 1, 1, None, 1)];
      GetAccuracy([a], fs) == Accuracy(2, 2, 0.0)
  {
    var a := Article(1, "u", "t", None, None, None, "s", None, 0, Some(1.0), false);
    var fs := [Feedback(1, 1, 1, None, 0), Feedback(2, 1, 1, None, 1)];
    assert GetArticle([a], 1) == Some(a);
    assert fs[..1][..0] == [];
    assert JoinedFeedback([a], fs[..1][..0]) == [];
    assert JoinedFeedback([a], fs[..1]) == [(a, fs[0])];
    assert JoinedFeedback([a], fs) == [(a, fs[0]), (a, fs[1])];
  }

  // ----- the learning report -----

  datatype LearningStats = LearningStats(
    totalFeedbackGiven: nat,
    averageRating: Option<real>,
    positiveFeedback: Option<nat>,
    negativeFeedback: Option<nat>,
    currentThreshold: real,
    sourcePreferences: seq<(string, real)>,
    aiAccuracy: Accuracy)

  /** `get_learning_stats`: the rating aggregates, the configured threshold,
      the per-source averages (as the dict's (source, average) pairs) and
      the accuracy. */
  function GetLearningStats(articles: seq<Article>, feedback: seq<Feedback>, threshold: real): (r: LearningStats)
  {
    var st := GetFeedbackStats(feedback);
    var prefs := GetSourcePreferences(articles, feedback);
    LearningStats(st.totalFeedback, st.avgRating, st.positiveCount, st.negativeCount, threshold,
                  seq(|prefs|, i requires 0 <= i < |prefs| => (prefs[i].source, prefs[i].avgRating)),
                  GetAccuracy(articles, feedback))
  }

  /** The report agrees with the aggregates it is assembled from. */
  lemma LearningStatsSpec(articles: seq<Article>, feedback: seq<Feedback>, threshold: real)
    requires forall f :: f in feedback ==> ValidRating(f.rating)
    ensures var r := GetLearningStats(articles, feedback, threshold);
      && r.totalFeedbackGiven == |feedback|
      && (r.positiveFeedback.Some? && r.negativeFeedback.Some? ==>
            r.positiveFeedback.value + r.negativeFeedback.value <= r.totalFeedbackGiven)
      && (r.averageRating.Some? ==> 1.0 <= r.averageRating.value <= 5.0)
      && r.currentThreshold == threshold
      && 0.0 <= r.aiAccuracy.accuracyRate <= 1.0
      && forall i :: 0 <= i < |r.sourcePreferences| ==>
           |RowsOfSource(JoinedFeedback(articles, feedback), r.sourcePreferences[i].0)| >= 2
  {
    FeedbackStatsSpec(feedback);
    AccuracySpec(articles, feedback);
    SourcePreferencesSpec(articles, feedback);
    var prefs := GetSourcePreferences(articles, feedback);
    var r := GetLearningStats(articles, feedback, threshold);
    forall i | 0 <= i < |r.sourcePreferences|
      ensures |RowsOfSource(JoinedFeedback(articles, feedback), r.sourcePreferences[i].0)| >= 2
    {
      assert prefs[i] in prefs;
    }
  }

  // ----- configuration -----

  /** The in-memory configuration of the feedback manager; the file it is
      loaded from and saved to is not modelled. */
  class Config {
    var relevanceThreshold: Option<real>

    constructor (initial: Option<real>)
      ensures relevanceThreshold == initial
    {
      relevanceThreshold := initial;
    }

    /** `get_relevance_threshold`: the configured value, 0.6 when absent. */
    function RelevanceThreshold(): (t: real)
      reads this
    {
      if relevanceThreshold.Some? then relevanceThreshold.value else 0.6
    }

    /** `set_relevance_threshold`: a value outside [0, 1] is refused without
        touching the configuration; otherwise the value is kept iff the file
        could be read and written (`saved`). */
    method SetRelevanceThreshold(threshold: real, saved: bool) returns (ok: bool)
      modifies this
      ensures ok <==> 0.0 <= threshold <= 1.0 && saved
      ensures ok ==> relevanceThreshold == Some(threshold) && RelevanceThreshold() == threshold
      ensures !ok ==> relevanceThreshold == old(relevanceThreshold)
    {
      if !(0.0 <= threshold <= 1.0) {
        return false;
      }
      if !saved {
        return false;
      }
      relevanceThreshold := Some(threshold);
      ok := true;
    }
  }
}
