/** What the advanced query guarantees: every returned row satisfies every
    supplied condition and, without a join or pagination, every matching
    article is returned; the rows follow the requested order; the sources
    allow-list, an unknown search scope, an unknown sort key and
    `controversial = False` make no difference; grouping partitions the rows;
    attached feedback is exactly the article's own, newest first. */
module ArticleQueryProperties {

  import opened Common
  import opened Schema
  import opened Sorting
  import opened ArticleOrder
  import opened ArticleQuery

  /** A row of the join carries one of the articles and, when joined, one of
      that article's own feedback rows or none when it has no feedback. */
  lemma {:induction false} JoinSound(articles: seq<Article>, feedback: seq<Feedback>, joined: bool, r: JoinRow)
    requires r in Join(articles, feedback, joined)
    ensures r.article in articles
    ensures r.fb.Some? ==> joined && r.fb.value in feedback && r.fb.value.articleId == r.article.id
    ensures joined && r.fb.None? ==> FeedbackOf(feedback, r.article.id) == []
  {
    if articles != [] {
      var init := articles[..|articles| - 1];
      var last := articles[|articles| - 1];
      var tail := if joined then JoinOne(last, feedback) else [JoinRow(last, None)];
      if r in Join(init, feedback, joined) {
        JoinSound(init, feedback, joined, r);
      } else {
        assert r in tail;
        if joined && FeedbackOf(feedback, last.id) != [] {
          var i :| 0 <= i < |tail| && tail[i] == r;
          assert FeedbackOf(feedback, last.id)[i] in FeedbackOf(feedback, last.id);
        }
      }
    }
  }

  /** Without a join every article gives exactly one row. */
  lemma {:induction false} JoinWithoutFeedback(articles: seq<Article>, feedback: seq<Feedback>)
    ensures ArticlesOf(Join(articles, feedback, false)) == articles
  {
    if articles != [] {
      var init := articles[..|articles| - 1];
      JoinWithoutFeedback(init, feedback);
      assert articles == init + [articles[|articles| - 1]];
    }
  }

  /** The returned rows are the views of a window of the ordered rows: it
      starts after the first `offset` rows and, with a positive limit, holds
      `limit` rows or as many as remain; otherwise it runs to the end. */
  lemma ListingWindow(articles: seq<Article>, feedback: seq<Feedback>, q: Query, now: Timestamp)
    requires QueryArticlesAdvanced(articles, feedback, q, now).Listing?
    ensures var ordered := Ordered(articles, feedback, q, now);
      var off := Min(Max(q.offset, 0), |ordered|);
      var vs := QueryArticlesAdvanced(articles, feedback, q, now).articles;
      && (q.limit.Some? && q.limit.value > 0 ==>
            vs == Views(ordered[off..off + Min(q.limit.value, |ordered| - off)], q, feedback))
      && (q.limit.None? || q.limit.value <= 0 ==> vs == Views(ordered[off..], q, feedback))
  {
    if q.limit.Some? && q.limit.value > 0 {
      ListingWindowLimited(articles, feedback, q, now);
    } else {
      ListingWindowUnlimited(articles, feedback, q, now);
    }
  }

  lemma ListingWindowLimited(articles: seq<Article>, feedback: seq<Feedback>, q: Query, now: Timestamp)
    requires QueryArticlesAdvanced(articles, feedback, q, now).Listing?
    requires q.limit.Some? && q.limit.value > 0
    ensures var ordered := Ordered(articles, feedback, q, now);
      var off := Min(Max(q.offset, 0), |ordered|);
      QueryArticlesAdvanced(articles, feedback, q, now).articles
        == Views(ordered[off..off + Min(q.limit.value, |ordered| - off)], q, feedback)
  {
    ListingIsPage(articles, feedback, q, now);
    ViewsOfPage(QueryArticlesAdvanced(articles, feedback, q, now).articles, Ordered(articles, feedback, q, now), q, feedback);
  }

  lemma ListingWindowUnlimited(articles: seq<Article>, feedback: seq<Feedback>, q: Query, now: Timestamp)
    requires QueryArticlesAdvanced(articles, feedback, q, now).Listing?
    requires q.limit.None? || q.limit.value <= 0
    ensures var ordered := Ordered(articles, feedback, q, now);
      QueryArticlesAdvanced(articles, feedback, q, now).articles
        == Views(ordered[Min(Max(q.offset, 0), |ordered|)..], q, feedback)
  {
    ListingIsPage(articles, feedback, q, now);
    ViewsOfPage(QueryArticlesAdvanced(articles, feedback, q, now).articles, Ordered(articles, feedback, q, now), q, feedback);
  }

  /** The views of a page are the views of its window. */
  lemma ViewsOfPage(vs: seq<ArticleView>, ordered: seq<Article>, q: Query, feedback: seq<Feedback>)
    requires Page(ordered, q.limit, q.offset).Some?
    requires vs == Views(Page(ordered, q.limit, q.offset).value, q, feedback)
    ensures var off := Min(Max(q.offset, 0), |ordered|);
      && (q.limit.Some? && q.limit.value > 0 ==> vs == Views(ordered[off..off + Min(q.limit.value, |ordered| - off)], q, feedback))
      && (q.limit.None? || q.limit.value <= 0 ==> vs == Views(ordered[off..], q, feedback))
  {
    PageWindow(ordered, q.limit, q.offset);
  }

  /** A page is a window of the sequence. */
  lemma PageWindow<T>(s: seq<T>, limit: Option<int>, offset: int)
    requires Page(s, limit, offset).Some?
    ensures var off := Min(Max(offset, 0), |s|);
      && (limit.Some? && limit.value > 0 ==> Page(s, limit, offset).value == s[off..off + Min(limit.value, |s| - off)])
      && (limit.None? || limit.value <= 0 ==> Page(s, limit, offset).value == s[off..])
  {
    var off := Min(Max(offset, 0), |s|);
    if limit.Some? && limit.value > 0 {
      var m := Min(limit.value, |s| - off);
      assert s[off..][..m] == s[off..off + m];
    }
  }

  /** The returned rows are the page of the ordered rows, as views. */
  lemma ListingIsPage(articles: seq<Article>, feedback: seq<Feedback>, q: Query, now: Timestamp)
    requires QueryArticlesAdvanced(articles, feedback, q, now).Listing?
    ensures Page(Ordered(articles, feedback, q, now), q.limit, q.offset).Some?
    ensures QueryArticlesAdvanced(articles, feedback, q, now).articles
         == Views(Page(Ordered(articles, feedback, q, now), q.limit, q.offset).value, q, feedback)
  {
  }

  lemma PageAt<T>(s: seq<T>, limit: Option<int>, offset: int, i: int)
    requires Page(s, limit, offset).Some? && 0 <= i < |Page(s, limit, offset).value|
    ensures Min(Max(offset, 0), |s|) + i < |s|
    ensures Page(s, limit, offset).value[i] == s[Min(Max(offset, 0), |s|) + i]
  {
    var off := Min(Max(offset, 0), |s|);
    assert Page(s, limit, offset).value[i] == s[off..][i];
  }

  /** Every returned row comes from a selected row of the join. */
  lemma ListedComeFromSelected(articles: seq<Article>, feedback: seq<Feedback>, q: Query, now: Timestamp, v: ArticleView)
    requires QueryArticlesAdvanced(articles, feedback, q, now).Listing?
    requires v in QueryArticlesAdvanced(articles, feedback, q, now).articles
    ensures exists r :: r in Selected(articles, feedback, q, now) && v == View(r.article, q, feedback)
  {
    var a := ListedFromOrdered(articles, feedback, q, now, v);
    var r := OrderedFromSelected(articles, feedback, q, now, a);
  }

  /** A returned row is the view of an ordered candidate. */
  lemma ListedFromOrdered(articles: seq<Article>, feedback: seq<Feedback>, q: Query, now: Timestamp, v: ArticleView)
    returns (a: Article)
    requires QueryArticlesAdvanced(articles, feedback, q, now).Listing?
    requires v in QueryArticlesAdvanced(articles, feedback, q, now).articles
    ensures a in Ordered(articles, feedback, q, now) && v == View(a, q, feedback)
  {
    var ordered := Ordered(articles, feedback, q, now);
    ListingIsPage(articles, feedback, q, now);
    var page := Page(ordered, q.limit, q.offset).value;
    var vs := Views(page, q, feedback);
    var i :| 0 <= i < |vs| && vs[i] == v;
    PageAt(ordered, q.limit, q.offset, i);
    a := page[i];
  }

  /** An ordered candidate is the article of a selected row. */
  lemma OrderedFromSelected(articles: seq<Article>, feedback: seq<Feedback>, q: Query, now: Timestamp, a: Article)
    returns (r: JoinRow)
    requires a in Ordered(articles, feedback, q, now)
    ensures r in Selected(articles, feedback, q, now) && r.article == a
  {
    var rows := Selected(articles, feedback, q, now);
    SortByMembers(Candidates(rows, q), Le(SortKeyOf(q.sortBy)), a);
    assert a in ArticlesOf(rows);
    var k :| 0 <= k < |rows| && ArticlesOf(rows)[k] == a;
    r := rows[k];
  }

  /** Every returned row is one of the store's articles (projected to the
      selected columns) that satisfies every supplied condition; the feedback
      conditions hold of its feedback rows. */
  lemma ResultSound(articles: seq<Article>, feedback: seq<Feedback>, q: Query, now: Timestamp, v: ArticleView)
    requires QueryArticlesAdvanced(articles, feedback, q, now).Listing?
    requires v in QueryArticlesAdvanced(articles, feedback, q, now).articles
    ensures exists a ::
              && a in articles && v.article == Project(a, q.includeContent)
              && ArticleMatches(q, a, now)
              && (q.withFeedback == Some(true) ==> FeedbackOf(feedback, a.id) != [])
              && (q.withFeedback == Some(false) ==> FeedbackOf(feedback, a.id) == [])
              && (q.minRating.Some? ==>
                    exists f :: f in feedback && f.articleId == a.id && f.rating as real >= q.minRating.value)
              && (q.controversial == Some(true) ==> Controversial(feedback, a.id))
  {
    ListedComeFromSelected(articles, feedback, q, now, v);
    var r :| r in Selected(articles, feedback, q, now) && v == View(r.article, q, feedback);
    SelectedRowSound(articles, feedback, q, now, r);
    assert v.article == Project(r.article, q.includeContent);
  }

  /** A row the WHERE clause keeps comes from a stored article that meets
      the article and feedback conditions. */
  lemma SelectedRowSound(articles: seq<Article>, feedback: seq<Feedback>, q: Query, now: Timestamp, r: JoinRow)
    requires r in Selected(articles, feedback, q, now)
    ensures r.article in articles && ArticleMatches(q, r.article, now)
    ensures q.withFeedback == Some(true) ==> FeedbackOf(feedback, r.article.id) != []
    ensures q.withFeedback == Some(false) ==> FeedbackOf(feedback, r.article.id) == []
    ensures q.minRating.Some? ==>
      exists f :: f in feedback && f.articleId == r.article.id && f.rating as real >= q.minRating.value
    ensures q.controversial == Some(true) ==> Controversial(feedback, r.article.id)
  {
    JoinSound(articles, feedback, JoinsFeedback(q), r);
    if r.fb.Some? {
      assert r.fb.value in FeedbackOf(feedback, r.article.id);
    }
  }

  /** A relevance bound excludes every article without a score. */
  lemma RelevanceBoundsExcludeNull(articles: seq<Article>, feedback: seq<Feedback>, q: Query, now: Timestamp, v: ArticleView)
    requires QueryArticlesAdvanced(articles, feedback, q, now).Listing?
    requires v in QueryArticlesAdvanced(articles, feedback, q, now).articles
    requires q.minRelevance.Some? || q.maxRelevance.Some?
    ensures v.article.relevance.Some?
    ensures q.minRelevance.Some? ==> v.article.relevance.value >= q.minRelevance.value
    ensures q.maxRelevance.Some? ==> v.article.relevance.value <= q.maxRelevance.value
  {
    ResultSound(articles, feedback, q, now, v);
  }

  /** Without a feedback join, pagination or de-duplication, every article
      that satisfies the conditions is returned. */
  lemma ResultComplete(articles: seq<Article>, feedback: seq<Feedback>, q: Query, now: Timestamp, a: Article)
    requires !JoinsFeedback(q) && q.groupBy != Some("article")
    requires !HasLimit(q) && q.offset <= 0 && !q.statsOnly
    requires a in articles && ArticleMatches(q, a, now)
    ensures exists v ::
              v in QueryArticlesAdvanced(articles, feedback, q, now).articles && v == View(a, q, feedback)
  {
    var rows := Selected(articles, feedback, q, now);
    assert a in ArticlesOf(rows) by {
      SelectedWithoutJoin(articles, feedback, q, now, a);
    }
    assert Candidates(rows, q) == ArticlesOf(rows);
    var ordered := Ordered(articles, feedback, q, now);
    SortByMembers(Candidates(rows, q), Le(SortKeyOf(q.sortBy)), a);
    assert a in ordered;
    assert QueryArticlesAdvanced(articles, feedback, q, now).Listing?;
    ListingIsPage(articles, feedback, q, now);
    assert Page(ordered, q.limit, q.offset).value == ordered;
    var j :| 0 <= j < |ordered| && ordered[j] == a;
    var vs := Views(ordered, q, feedback);
    assert vs == QueryArticlesAdvanced(articles, feedback, q, now).articles;
    assert vs[j] == View(a, q, feedback) && vs[j] in vs;
  }

  /** With the feedback join and without pagination or de-duplication, a
      stored article that meets the article conditions is returned once for
      each of its feedback rows that meets the feedback conditions, and once
      when it has no feedback and the bare row meets them. */
  lemma ResultCompleteJoined(articles: seq<Article>, feedback: seq<Feedback>, q: Query, now: Timestamp,
                             a: Article, fb: Option<Feedback>)
    requires JoinsFeedback(q) && !GroupsByArticle(q)
    requires !HasLimit(q) && q.offset <= 0 && !q.statsOnly
    requires a in articles && ArticleMatches(q, a, now)
    requires fb.Some? ==> fb.value in feedback && fb.value.articleId == a.id
    requires fb.None? ==> FeedbackOf(feedback, a.id) == []
    requires FeedbackMatches(q, feedback, JoinRow(a, fb))
    ensures View(a, q, feedback) in QueryArticlesAdvanced(articles, feedback, q, now).articles
  {
    var rows := Selected(articles, feedback, q, now);
    JoinHas(articles, feedback, a, fb);
    assert JoinRow(a, fb) in rows;
    var k :| 0 <= k < |rows| && rows[k] == JoinRow(a, fb);
    assert ArticlesOf(rows)[k] == a;
    var ordered := Ordered(articles, feedback, q, now);
    SortByMembers(Candidates(rows, q), Le(SortKeyOf(q.sortBy)), a);
    ListingIsPage(articles, feedback, q, now);
    assert Page(ordered, q.limit, q.offset).value == ordered;
    var j :| 0 <= j < |ordered| && ordered[j] == a;
    var vs := Views(ordered, q, feedback);
    assert vs[j] == View(a, q, feedback) && vs[j] in vs;
  }

  /** The left join has the row of an article with each of its feedback
      rows, and its bare row when it has none. */
  lemma {:induction false} JoinHas(articles: seq<Article>, feedback: seq<Feedback>, a: Article, fb: Option<Feedback>)
    requires a in articles
    requires fb.Some? ==> fb.value in feedback && fb.value.articleId == a.id
    requires fb.None? ==> FeedbackOf(feedback, a.id) == []
    ensures JoinRow(a, fb) in Join(articles, feedback, true)
  {
    var init := articles[..|articles| - 1];
    var last := articles[|articles| - 1];
    var rows := JoinOne(last, feedback);
    assert Join(articles, feedback, true) == Join(init, feedback, true) + rows;
    if last == a {
      var fs := FeedbackOf(feedback, a.id);
      if fb.Some? {
        assert fb.value in fs;
        var i :| 0 <= i < |fs| && fs[i] == fb.value;
        assert rows[i] == JoinRow(a, fb);
      } else {
        assert rows[0] == JoinRow(a, fb);
      }
    } else {
      assert a in init;
      JoinHas(init, feedback, a, fb);
    }
  }

  /** A negative `last_n_days` leaves no row. */
  lemma NegativeDaysSelectNothing(articles: seq<Article>, feedback: seq<Feedback>, q: Query, now: Timestamp)
    requires q.lastNDays.Some? && q.lastNDays.value < 0
    ensures Selected(articles, feedback, q, now) == []
  {
    FilterNone(Join(articles, feedback, JoinsFeedback(q)), (r: JoinRow) => RowMatches(q, feedback, now, r));
  }

  lemma SelectedWithoutJoin(articles: seq<Article>, feedback: seq<Feedback>, q: Query, now: Timestamp, a: Article)
    requires !JoinsFeedback(q)
    requires a in articles && ArticleMatches(q, a, now)
    ensures a in ArticlesOf(Selected(articles, feedback, q, now))
  {
    var rows := Selected(articles, feedback, q, now);
    JoinWithoutFeedback(articles, feedback);
    var all := Join(articles, feedback, false);
    var i :| 0 <= i < |articles| && articles[i] == a;
    assert ArticlesOf(all)[i] == a;
    assert all[i] in all;
    JoinSound(articles, feedback, false, all[i]);
    assert all[i] == JoinRow(a, None);
    assert RowMatches(q, feedback, now, all[i]);
    assert all[i] in rows;
    var k :| 0 <= k < |rows| && rows[k] == all[i];
    assert ArticlesOf(rows)[k] == a;
  }

  /** The returned rows follow the requested order (the fall-back for an
      unknown key being newest published first). */
  lemma ResultOrdered(articles: seq<Article>, feedback: seq<Feedback>, q: Query, now: Timestamp)
    requires QueryArticlesAdvanced(articles, feedback, q, now).Listing?
    ensures var vs := QueryArticlesAdvanced(articles, feedback, q, now).articles;
      forall i, j :: 0 <= i < j < |vs| ==> ArticleLe(SortKeyOf(q.sortBy), vs[i].article, vs[j].article)
  {
    var rows := Selected(articles, feedback, q, now);
    var k := SortKeyOf(q.sortBy);
    var ordered := Ordered(articles, feedback, q, now);
    LeIsPreorder(k);
    SortBySorted(Candidates(rows, q), Le(k));
    ListingIsPage(articles, feedback, q, now);
    var page := Page(ordered, q.limit, q.offset).value;
    var off := Min(Max(q.offset, 0), |ordered|);
    var vs := Views(page, q, feedback);
    forall i, j | 0 <= i < j < |vs| ensures ArticleLe(k, vs[i].article, vs[j].article) {
      PageAt(ordered, q.limit, q.offset, i);
      PageAt(ordered, q.limit, q.offset, j);
      assert Le(k)(ordered[off + i], ordered[off + j]);
    }
  }

  /** With `GROUP BY a.id` no article is returned twice. */
  lemma GroupedRowsDistinct(articles: seq<Article>, feedback: seq<Feedback>, q: Query, now: Timestamp)
    requires QueryArticlesAdvanced(articles, feedback, q, now).Listing?
    requires GroupsByArticle(q)
    ensures var vs := QueryArticlesAdvanced(articles, feedback, q, now).articles;
      forall i, j :: 0 <= i < j < |vs| ==> vs[i].article.id != vs[j].article.id
  {
    var rows := Selected(articles, feedback, q, now);
    var cands := Candidates(rows, q);
    var ordered := Ordered(articles, feedback, q, now);
    SortByDistinct(cands, Le(SortKeyOf(q.sortBy)), (a: Article) => a.id);
    ListingIsPage(articles, feedback, q, now);
    var page := Page(ordered, q.limit, q.offset).value;
    var off := Min(Max(q.offset, 0), |ordered|);
    var vs := Views(page, q, feedback);
    forall i, j | 0 <= i < j < |vs| ensures vs[i].article.id != vs[j].article.id {
      PageAt(ordered, q.limit, q.offset, i);
      PageAt(ordered, q.limit, q.offset, j);
    }
  }

  /** Queries whose conditions agree on every row select the same rows. */
  lemma SameConditionsSameRows(articles: seq<Article>, feedback: seq<Feedback>, q1: Query, q2: Query, now: Timestamp)
    requires JoinsFeedback(q1) == JoinsFeedback(q2)
    requires forall r :: RowMatches(q1, feedback, now, r) == RowMatches(q2, feedback, now, r)
    ensures Selected(articles, feedback, q1, now) == Selected(articles, feedback, q2, now)
  {
    FilterSamePredicate(Join(articles, feedback, JoinsFeedback(q1)),
                        (r: JoinRow) => RowMatches(q1, feedback, now, r), (r: JoinRow) => RowMatches(q2, feedback, now, r));
  }

  /** Two queries whose conditions agree on every row and whose other
      parameters are equal, or name the same order, return the same thing. */
  lemma SameConditionsSameOutcome(articles: seq<Article>, feedback: seq<Feedback>, q1: Query, q2: Query, now: Timestamp)
    requires JoinsFeedback(q1) == JoinsFeedback(q2)
    requires forall r :: RowMatches(q1, feedback, now, r) == RowMatches(q2, feedback, now, r)
    requires q1.statsOnly == q2.statsOnly && q1.limit == q2.limit && q1.offset == q2.offset
    requires SortKeyOf(q1.sortBy) == SortKeyOf(q2.sortBy) && q1.groupBy == q2.groupBy
    requires q1.includeContent == q2.includeContent && q1.includeFeedback == q2.includeFeedback
    ensures QueryArticlesAdvanced(articles, feedback, q1, now) == QueryArticlesAdvanced(articles, feedback, q2, now)
  {
    SameConditionsSameRows(articles, feedback, q1, q2, now);
    OrderedAgree(articles, feedback, q1, q2, now);
    var pg := Page(Ordered(articles, feedback, q1, now), q1.limit, q1.offset);
    if pg.Some? {
      ViewsAgree(pg.value, q1, q2, feedback);
    }
  }

  lemma OrderedAgree(articles: seq<Article>, feedback: seq<Feedback>, q1: Query, q2: Query, now: Timestamp)
    requires Selected(articles, feedback, q1, now) == Selected(articles, feedback, q2, now)
    requires GroupsByArticle(q1) == GroupsByArticle(q2) && SortKeyOf(q1.sortBy) == SortKeyOf(q2.sortBy)
    ensures Ordered(articles, feedback, q1, now) == Ordered(articles, feedback, q2, now)
  {
    var rows := Selected(articles, feedback, q1, now);
    assert Candidates(rows, q1) == Candidates(rows, q2);
  }

  lemma ViewsAgree(page: seq<Article>, q1: Query, q2: Query, feedback: seq<Feedback>)
    requires q1.includeContent == q2.includeContent && q1.includeFeedback == q2.includeFeedback
    ensures Views(page, q1, feedback) == Views(page, q2, feedback)
  {
  }

  /** When `source` is given, the `sources` allow-list is not consulted. */
  lemma SourceOverridesAllowList(articles: seq<Article>, feedback: seq<Feedback>, q: Query, now: Timestamp,
                                 other: Option<seq<string>>)
    requires Given(q.source)
    ensures QueryArticlesAdvanced(articles, feedback, q, now)
         == QueryArticlesAdvanced(articles, feedback, q.(sources := other), now)
  {
    SameConditionsSameOutcome(articles, feedback, q, q.(sources := other), now);
  }

  /** A `search_in` other than all/title/content/summary makes the search
      term irrelevant. */
  lemma UnknownSearchScopeIgnored(articles: seq<Article>, feedback: seq<Feedback>, q: Query, now: Timestamp)
    requires q.searchIn !in ["all", "title", "content", "summary"]
    ensures QueryArticlesAdvanced(articles, feedback, q, now)
         == QueryArticlesAdvanced(articles, feedback, q.(searchQuery := None), now)
  {
    SameConditionsSameOutcome(articles, feedback, q, q.(searchQuery := None), now);
  }

  /** `controversial = False` only forces the join, which another feedback
      parameter already does. */
  lemma ControversialFalseAddsNothing(articles: seq<Article>, feedback: seq<Feedback>, q: Query, now: Timestamp)
    requires q.controversial.None? && JoinsFeedback(q)
    ensures QueryArticlesAdvanced(articles, feedback, q.(controversial := Some(false)), now)
         == QueryArticlesAdvanced(articles, feedback, q, now)
  {
    SameConditionsSameOutcome(articles, feedback, q.(controversial := Some(false)), q, now);
  }

  /** `date_desc` and `date_asc` are not keys of the sort map: both give the
      newest-published-first order. */
  lemma DateSortKeysFallBack(articles: seq<Article>, feedback: seq<Feedback>, q: Query, now: Timestamp)
    ensures QueryArticlesAdvanced(articles, feedback, q.(sortBy := "date_desc"), now)
         == QueryArticlesAdvanced(articles, feedback, q.(sortBy := "published_desc"), now)
    ensures QueryArticlesAdvanced(articles, feedback, q.(sortBy := "date_asc"), now)
         == QueryArticlesAdvanced(articles, feedback, q.(sortBy := "published_desc"), now)
  {
    var q3 := q.(sortBy := "published_desc");
    SortKeyNotACondition(feedback, q.(sortBy := "date_desc"), "published_desc", now);
    SameConditionsSameOutcome(articles, feedback, q.(sortBy := "date_desc"), q3, now);
    SortKeyNotACondition(feedback, q.(sortBy := "date_asc"), "published_desc", now);
    SameConditionsSameOutcome(articles, feedback, q.(sortBy := "date_asc"), q3, now);
  }

  lemma SortKeyNotACondition(feedback: seq<Feedback>, q: Query, sortBy: string, now: Timestamp)
    ensures forall r :: RowMatches(q, feedback, now, r) == RowMatches(q.(sortBy := sortBy), feedback, now, r)
  {
    var q2 := q.(sortBy := sortBy);
    forall r ensures RowMatches(q, feedback, now, r) == RowMatches(q2, feedback, now, r) {
      assert ArticleMatches(q, r.article, now) == ArticleMatches(q2, r.article, now);
    }
  }

  /** Without a join, de-duplication or pagination, `stats_only` counts
      exactly the rows the listing returns. */
  lemma StatsCountMatchesListing(articles: seq<Article>, feedback: seq<Feedback>, q: Query, now: Timestamp)
    requires !JoinsFeedback(q) && q.groupBy != Some("article")
    requires !HasLimit(q) && q.offset <= 0
    ensures QueryArticlesAdvanced(articles, feedback, q.(statsOnly := true), now).totalCount
         == QueryArticlesAdvanced(articles, feedback, q.(statsOnly := false), now).total
  {
    var q1 := q.(statsOnly := true);
    var q2 := q.(statsOnly := false);
    SameConditionsSameRows(articles, feedback, q1, q2, now);
    var ordered := Ordered(articles, feedback, q2, now);
    assert |ordered| == |Selected(articles, feedback, q2, now)|;
    assert Page(ordered, q2.limit, q2.offset).value == ordered;
  }

  /** A left join yields one row per feedback row of an article (one row
      when it has none), so without `GROUP BY` an article with k feedback
      rows can be returned k times. */
  lemma {:induction false} JoinRowsPerArticle(articles: seq<Article>, feedback: seq<Feedback>, a: Article)
    requires forall i, j :: 0 <= i < j < |articles| ==> articles[i].id != articles[j].id
    requires a in articles
    ensures Filter(Join(articles, feedback, true), (r: JoinRow) => r.article == a) == JoinOne(a, feedback)
  {
    var init := articles[..|articles| - 1];
    JoinLastFiltered(articles, feedback, a);
    LastArticleFresh(articles);
    if articles[|articles| - 1] == a {
      JoinNone(init, feedback, a);
    } else {
      assert a in init;
      JoinRowsPerArticle(init, feedback, a);
    }
  }

  /** With distinct ids, the last article is not among the others, whose
      ids stay distinct. */
  lemma LastArticleFresh(articles: seq<Article>)
    requires articles != []
    requires forall i, j :: 0 <= i < j < |articles| ==> articles[i].id != articles[j].id
    ensures var init := articles[..|articles| - 1];
      && articles[|articles| - 1] !in init
      && forall i, j :: 0 <= i < j < |init| ==> init[i].id != init[j].id
  {
    var init := articles[..|articles| - 1];
    forall k | 0 <= k < |init| ensures init[k] != articles[|articles| - 1] {
      assert articles[k].id != articles[|articles| - 1].id;
    }
  }

  /** The rows of `a` in a join are those of all articles but the last,
      plus the last article's own rows when it is `a`. */
  lemma JoinLastFiltered(articles: seq<Article>, feedback: seq<Feedback>, a: Article)
    requires articles != []
    ensures var last := articles[|articles| - 1];
      Filter(Join(articles, feedback, true), (r: JoinRow) => r.article == a)
        == Filter(Join(articles[..|articles| - 1], feedback, true), (r: JoinRow) => r.article == a)
           + (if last == a then JoinOne(a, feedback) else [])
  {
    var last := articles[|articles| - 1];
    var before := Join(articles[..|articles| - 1], feedback, true);
    var rows := JoinOne(last, feedback);
    assert Join(articles, feedback, true) == before + rows;
    JoinOneOf(last, feedback);
    FilterRowsOf(before, rows, last, a);
  }

  /** Every row of `JoinOne(b, _)` carries `b`. */
  lemma JoinOneOf(b: Article, feedback: seq<Feedback>)
    ensures forall r :: r in JoinOne(b, feedback) ==> r.article == b
  {
    var rows := JoinOne(b, feedback);
    forall r | r in rows ensures r.article == b {
      var i :| 0 <= i < |rows| && rows[i] == r;
    }
  }

  /** Appending rows that all carry `b` adds them to the rows of `a`
      exactly when `b` is `a`. */
  lemma FilterRowsOf(before: seq<JoinRow>, rows: seq<JoinRow>, b: Article, a: Article)
    requires forall r :: r in rows ==> r.article == b
    ensures Filter(before + rows, (r: JoinRow) => r.article == a)
         == Filter(before, (r: JoinRow) => r.article == a) + (if b == a then rows else [])
  {
    var p := (r: JoinRow) => r.article == a;
    FilterAppend(before, rows, p);
    if b == a {
      FilterAll(rows, p);
    } else {
      FilterNone(rows, p);
    }
  }

  /** So an article with k feedback rows is returned max(1, k) times. */
  lemma JoinRowCount(articles: seq<Article>, feedback: seq<Feedback>, a: Article)
    requires forall i, j :: 0 <= i < j < |articles| ==> articles[i].id != articles[j].id
    requires a in articles
    ensures |Filter(Join(articles, feedback, true), (r: JoinRow) => r.article == a)|
         == Max(1, |FeedbackOf(feedback, a.id)|)
  {
    JoinRowsPerArticle(articles, feedback, a);
  }

  lemma {:induction false} JoinNone(articles: seq<Article>, feedback: seq<Feedback>, a: Article)
    requires a !in articles
    ensures Filter(Join(articles, feedback, true), (r: JoinRow) => r.article == a) == []
  {
    var p := (r: JoinRow) => r.article == a;
    forall r | r in Join(articles, feedback, true) ensures !p(r) {
      JoinSound(articles, feedback, true, r);
    }
    FilterNone(Join(articles, feedback, true), p);
  }

  lemma {:induction false} FilterAll<T(!new)>(s: seq<T>, p: T -> bool)
    requires forall x :: x in s ==> p(x)
    ensures Filter(s, p) == s
  {
    if s != [] {
      FilterAll(s[..|s| - 1], p);
      assert s == s[..|s| - 1] + [s[|s| - 1]];
    }
  }

  lemma FilterNone<T(!new)>(s: seq<T>, p: T -> bool)
    requires forall x :: x in s ==> !p(x)
    ensures Filter(s, p) == []
  {
    if Filter(s, p) != [] {
      assert Filter(s, p)[0] in Filter(s, p);
    }
  }

  /** `group_by = "source"` partitions the returned rows: groups have
      distinct source names, each row is in the group of its own source,
      a group holds exactly the rows of its source in result order, and no
      group is empty. */
  lemma GroupPartition(vs: seq<ArticleView>)
    ensures var g := GroupBySource(vs);
      && (forall i, j :: 0 <= i < j < |g| ==> g[i].source != g[j].source)
      && (forall v :: v in vs ==> exists i :: 0 <= i < |g| && g[i].source == v.article.sourceName && v in g[i].members)
      && (forall i, v :: 0 <= i < |g| && v in g[i].members ==> v in vs && v.article.sourceName == g[i].source)
      && (forall i :: 0 <= i < |g| ==> g[i].members == OfSource(vs, g[i].source) && g[i].members != [])
  {
    var g := GroupBySource(vs);
    var keys := SourceKeys(vs);
    forall v | v in vs
      ensures exists i :: 0 <= i < |g| && g[i].source == v.article.sourceName && v in g[i].members
    {
      assert v.article.sourceName in keys;
      var i :| 0 <= i < |keys| && keys[i] == v.article.sourceName;
      assert v in g[i].members;
    }
    forall i | 0 <= i < |g| ensures g[i].members != [] {
      assert keys[i] in keys;
      var v :| v in vs && v.article.sourceName == keys[i];
      assert v in g[i].members;
    }
  }

  /** An article's attached entries: exactly its feedback rows, newest
      first. */
  lemma NewestFirstEntries(feedback: seq<Feedback>, id: int)
    ensures var es := Entries(NewestFirst(feedback, id));
      && |es| == |FeedbackOf(feedback, id)|
      && (forall e :: e in es <==> exists f :: f in feedback && f.articleId == id && e == EntryOf(f))
      && (forall i, j :: 0 <= i < j < |es| ==> es[i].createdAt >= es[j].createdAt)
  {
    var fs := FeedbackOf(feedback, id);
    var sorted := NewestFirst(feedback, id);
    var es := Entries(sorted);
    assert Total(NewerOrSame()) && Transitive(NewerOrSame());
    SortBySorted(fs, NewerOrSame());
    forall i, j | 0 <= i < j < |es| ensures es[i].createdAt >= es[j].createdAt {
      assert NewerOrSame()(sorted[i], sorted[j]);
    }
    forall e ensures e in es <==> exists f :: f in feedback && f.articleId == id && e == EntryOf(f) {
      if e in es {
        var i :| 0 <= i < |es| && es[i] == e;
        SortByMembers(fs, NewerOrSame(), sorted[i]);
      }
      if exists f :: f in feedback && f.articleId == id && e == EntryOf(f) {
        var f :| f in feedback && f.articleId == id && e == EntryOf(f);
        SortByMembers(fs, NewerOrSame(), f);
        var i :| 0 <= i < |sorted| && sorted[i] == f;
        assert es[i] == e;
      }
    }
  }

  /** With `include_feedback`, each returned row carries exactly the entries
      of its article's feedback rows, newest first. */
  lemma FeedbackAttached(articles: seq<Article>, feedback: seq<Feedback>, q: Query, now: Timestamp, v: ArticleView)
    requires QueryArticlesAdvanced(articles, feedback, q, now).Listing?
    requires v in QueryArticlesAdvanced(articles, feedback, q, now).articles
    requires q.includeFeedback
    ensures v.feedback.Some?
    ensures |v.feedback.value| == |FeedbackOf(feedback, v.article.id)|
    ensures forall e :: e in v.feedback.value <==>
      exists f :: f in feedback && f.articleId == v.article.id && e == EntryOf(f)
    ensures forall i, j :: 0 <= i < j < |v.feedback.value| ==> v.feedback.value[i].createdAt >= v.feedback.value[j].createdAt
  {
    ListedComeFromSelected(articles, feedback, q, now, v);
    var r :| r in Selected(articles, feedback, q, now) && v == View(r.article, q, feedback);
    NewestFirstEntries(feedback, r.article.id);
  }

  /** The sub-query's MAX − MIN test is the same as the existence of two
      ratings at least three apart. */
  lemma ControversialSpread(feedback: seq<Feedback>, id: int)
    ensures Controversial(feedback, id) <==>
      |FeedbackOf(feedback, id)| >= 3
      && exists f, g :: f in FeedbackOf(feedback, id) && g in FeedbackOf(feedback, id) && f.rating - g.rating >= 3
  {
    var fs := FeedbackOf(feedback, id);
    if |fs| >= 3 {
      if exists f, g :: f in fs && g in fs && f.rating - g.rating >= 3 {
        var f, g :| f in fs && g in fs && f.rating - g.rating >= 3;
        assert MaxRating(fs) >= f.rating && MinRating(fs) <= g.rating;
      }
    }
  }
}
