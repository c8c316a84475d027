/** Article reads and the in-place updates of article rows: look-up by id,
    the simple filtered listing, the unanalysed backlog, the read flag, the
    age-based purge and the writes of the external scorer. */
module ArticleManager {

  import opened Common
  import opened Schema
  import opened Sorting
  import opened ArticleOrder

  /** `SELECT * FROM articles WHERE id = ?`. */
  function GetArticle(articles: seq<Article>, id: int): (r: Option<Article>)
    ensures r.Some? ==> r.value in articles && r.value.id == id
    ensures r.None? ==> forall a :: a in articles ==> a.id != id
  {
    if articles == [] then None
    else if articles[0].id == id then Some(articles[0])
    else GetArticle(articles[1..], id)
  }

  /** The filters of `get_articles`, all conjunctive. */
  predicate ListingMatches(a: Article, minRelevance: Option<real>, unreadOnly: bool,
                           sourceName: Option<string>, sinceDate: Option<Timestamp>)
  {
    && (minRelevance.Some? ==> a.relevance.Some? && a.relevance.value >= minRelevance.value)
    && (unreadOnly ==> !a.isRead)
    && (sourceName.Some? && sourceName.value != "" ==> a.sourceName == sourceName.value)
    && (sinceDate.Some? ==> a.published.Some? && a.published.value >= sinceDate.value)
  }

  /** The articles passing the filters, newest published first. */
  function NewestMatching(articles: seq<Article>, minRelevance: Option<real>, unreadOnly: bool,
                          sourceName: Option<string>, sinceDate: Option<Timestamp>): seq<Article>
  {
    SortBy(Filter(articles, (a: Article) => ListingMatches(a, minRelevance, unreadOnly, sourceName, sinceDate)),
           Le(PublishedDesc))
  }

  /** `get_articles`: filter, newest published first, then `LIMIT` when the
      limit is truthy. */
  function GetArticles(articles: seq<Article>, limit: Option<int>, minRelevance: Option<real>,
                       unreadOnly: bool, sourceName: Option<string>, sinceDate: Option<Timestamp>): seq<Article>
  {
    var ordered := NewestMatching(articles, minRelevance, unreadOnly, sourceName, sinceDate);
    if limit.Some? && limit.value != 0 then SqlLimit(ordered, limit.value) else ordered
  }

  /** The listing holds matching articles only, newest published first;
      with a positive limit it holds the first `limit` of them (all when
      fewer match), and otherwise every one. No matching article left out
      was published after a listed one. */
  lemma GetArticlesSpec(articles: seq<Article>, limit: Option<int>, minRelevance: Option<real>,
                        unreadOnly: bool, sourceName: Option<string>, sinceDate: Option<Timestamp>)
    ensures var r := GetArticles(articles, limit, minRelevance, unreadOnly, sourceName, sinceDate);
      && (forall a :: a in r ==> a in articles && ListingMatches(a, minRelevance, unreadOnly, sourceName, sinceDate))
      && Sorted(r, Le(PublishedDesc))
      && (limit.Some? && limit.value > 0 ==>
            |r| == Min(limit.value, CountWhere(articles, (a: Article) => ListingMatches(a, minRelevance, unreadOnly, sourceName, sinceDate))))
      && ((limit.None? || limit.value <= 0) ==>
            forall a :: a in articles && ListingMatches(a, minRelevance, unreadOnly, sourceName, sinceDate) ==> a in r)
      && (forall a :: a in articles && ListingMatches(a, minRelevance, unreadOnly, sourceName, sinceDate) && a !in r ==>
            forall i :: 0 <= i < |r| ==> Le(PublishedDesc)(r[i], a))
  {
    var ordered := NewestMatching(articles, minRelevance, unreadOnly, sourceName, sinceDate);
    var r := GetArticles(articles, limit, minRelevance, unreadOnly, sourceName, sinceDate);
    NewestMatchingSpec(articles, minRelevance, unreadOnly, sourceName, sinceDate);
    assert r == ordered[..|r|];
    forall i, j | 0 <= i < j < |r| ensures Le(PublishedDesc)(r[i], r[j]) {
      assert r[i] == ordered[i] && r[j] == ordered[j];
    }
    forall a | a in r ensures a in ordered {
      var k :| 0 <= k < |r| && r[k] == a;
      assert ordered[k] == a;
    }
    forall a | a in ordered ensures a in r || forall i :: 0 <= i < |r| ==> Le(PublishedDesc)(r[i], a) {
      LeftOutComesAfter(ordered, Le(PublishedDesc), |r|, a);
    }
  }

  /** The matching articles, each kept, sorted, and as many as match. */
  lemma NewestMatchingSpec(articles: seq<Article>, minRelevance: Option<real>, unreadOnly: bool,
                           sourceName: Option<string>, sinceDate: Option<Timestamp>)
    ensures var ordered := NewestMatching(articles, minRelevance, unreadOnly, sourceName, sinceDate);
      && Sorted(ordered, Le(PublishedDesc))
      && (forall a :: a in ordered <==> a in articles && ListingMatches(a, minRelevance, unreadOnly, sourceName, sinceDate))
      && |ordered| == CountWhere(articles, (a: Article) => ListingMatches(a, minRelevance, unreadOnly, sourceName, sinceDate))
  {
    var p := (a: Article) => ListingMatches(a, minRelevance, unreadOnly, sourceName, sinceDate);
    var kept := Filter(articles, p);
    FilterCount(articles, p);
    LeIsPreorder(PublishedDesc);
    SortBySorted(kept, Le(PublishedDesc));
    forall a ensures a in SortBy(kept, Le(PublishedDesc)) <==> a in kept {
      SortByMembers(kept, Le(PublishedDesc), a);
    }
  }

  predicate Unanalyzed(a: Article)
  {
    a.summary.None? || a.relevance.None?
  }

  /** `get_unanalyzed_articles`: rows lacking a summary or a score, most
      recently fetched first. */
  function GetUnanalyzedArticles(articles: seq<Article>): seq<Article>
  {
    SortBy(Filter(articles, Unanalyzed), Le(FetchedDesc))
  }

  lemma GetUnanalyzedArticlesSpec(articles: seq<Article>)
    ensures var r := GetUnanalyzedArticles(articles);
      && (forall a :: a in r <==> a in articles && (a.summary.None? || a.relevance.None?))
      && (forall i, j :: 0 <= i < j < |r| ==> r[i].fetched >= r[j].fetched)
  {
    var kept := Filter(articles, Unanalyzed);
    LeIsPreorder(FetchedDesc);
    SortBySorted(kept, Le(FetchedDesc));
    forall a ensures a in GetUnanalyzedArticles(articles) <==> a in kept {
      SortByMembers(kept, Le(FetchedDesc), a);
    }
  }

  /** `UPDATE articles SET is_read = 1 WHERE id = ?`. */
  method MarkAsRead(db: Database, id: int)
    requires db.Valid()
    modifies db
    ensures db.Valid()
    ensures |db.articles| == |old(db.articles)|
    ensures forall i :: 0 <= i < |db.articles| ==>
      db.articles[i] == (if old(db.articles[i]).id == id then old(db.articles[i]).(isRead := true) else old(db.articles[i]))
    ensures db.feedback == old(db.feedback) && db.profile == old(db.profile)
    ensures db.nextArticleId == old(db.nextArticleId) && db.nextFeedbackId == old(db.nextFeedbackId)
  {
    var i := 0;
    while i < |db.articles|
      invariant 0 <= i <= |db.articles| == |old(db.articles)|
      invariant forall k :: 0 <= k < i ==>
        db.articles[k] == (if old(db.articles[k]).id == id then old(db.articles[k]).(isRead := true) else old(db.articles[k]))
      invariant forall k :: i <= k < |db.articles| ==> db.articles[k] == old(db.articles[k])
      invariant db.feedback == old(db.feedback) && db.profile == old(db.profile)
      invariant db.nextArticleId == old(db.nextArticleId) && db.nextFeedbackId == old(db.nextFeedbackId)
    {
      if db.articles[i].id == id {
        db.articles := db.articles[i := db.articles[i].(isRead := true)];
      }
      i := i + 1;
    }
    KeysKeptValid(old(db.articles), db.articles, db.nextArticleId);
  }

  /** `UPDATE articles SET is_read = 1 WHERE is_read = 0`, returning the
      number of rows it changed. */
  method MarkAllAsRead(db: Database) returns (count: nat)
    requires db.Valid()
    modifies db
    ensures db.Valid()
    ensures count == CountWhere(old(db.articles), (a: Article) => !a.isRead)
    ensures |db.articles| == |old(db.articles)|
    ensures forall i :: 0 <= i < |db.articles| ==> db.articles[i] == old(db.articles[i]).(isRead := true)
    ensures db.feedback == old(db.feedback) && db.profile == old(db.profile)
    ensures db.nextArticleId == old(db.nextArticleId) && db.nextFeedbackId == old(db.nextFeedbackId)
  {
    ghost var before := db.articles;
    var unread := (a: Article) => !a.isRead;
    count := 0;
    var i := 0;
    while i < |db.articles|
      invariant 0 <= i <= |db.articles| == |before|
      invariant count == CountWhere(before[..i], unread)
      invariant forall k :: 0 <= k < i ==> db.articles[k] == before[k].(isRead := true)
      invariant forall k :: i <= k < |db.articles| ==> db.articles[k] == before[k]
      invariant db.feedback == old(db.feedback) && db.profile == old(db.profile)
      invariant db.nextArticleId == old(db.nextArticleId) && db.nextFeedbackId == old(db.nextFeedbackId)
    {
      assert before[..i + 1][..i] == before[..i];
      if !db.articles[i].isRead {
        db.articles := db.articles[i := db.articles[i].(isRead := true)];
        count := count + 1;
      }
      i := i + 1;
    }
    KeysKeptValid(old(db.articles), db.articles, db.nextArticleId);
    assert before[..i] == before;
  }

  /** Whether `cleanup_old_articles(days)` keeps an article: its fetch day is
      not before the day `days` days ago. */
  predicate Recent(a: Article, days: nat, now: Timestamp)
  {
    Day(a.fetched) >= Day(now - days * SecondsPerDay)
  }

  /** `DELETE FROM articles WHERE date(fetched_date) < date('now', '-N days')`,
      returning the number of rows deleted. Feedback rows are not deleted. */
  method CleanupOldArticles(db: Database, days: nat, now: Timestamp) returns (deleted: nat)
    requires db.Valid()
    modifies db
    ensures db.Valid()
    ensures db.articles == Filter(old(db.articles), (a: Article) => Recent(a, days, now))
    ensures deleted == |old(db.articles)| - |db.articles|
    ensures db.feedback == old(db.feedback) && db.profile == old(db.profile)
    ensures db.nextArticleId == old(db.nextArticleId) && db.nextFeedbackId == old(db.nextFeedbackId)
  {
    var before := db.articles;
    var keep := (a: Article) => Recent(a, days, now);
    var kept := Filter(before, keep);
    FilterKeepsValid(before, db.nextArticleId, keep);
    deleted := |before| - |kept|;
    db.articles := kept;
  }

  /** `UPDATE articles SET summary = ?, relevance_score = ? WHERE id = ?`:
      true iff some row had that id. The score is not range-checked here. */
  method SaveAnalysis(db: Database, id: int, summary: string, score: real) returns (saved: bool)
    requires db.Valid()
    modifies db
    ensures db.Valid()
    ensures saved <==> exists a :: a in old(db.articles) && a.id == id
    ensures |db.articles| == |old(db.articles)|
    ensures forall i :: 0 <= i < |db.articles| ==>
      db.articles[i] == (if old(db.articles[i]).id == id
                         then old(db.articles[i]).(summary := Some(summary), relevance := Some(score))
                         else old(db.articles[i]))
    ensures db.feedback == old(db.feedback) && db.profile == old(db.profile)
    ensures db.nextArticleId == old(db.nextArticleId) && db.nextFeedbackId == old(db.nextFeedbackId)
  {
    ghost var before := db.articles;
    saved := false;
    var i := 0;
    while i < |db.articles|
      invariant 0 <= i <= |db.articles| == |before|
      invariant saved <==> exists k :: 0 <= k < i && before[k].id == id
      invariant forall k :: 0 <= k < i ==>
        db.articles[k] == (if before[k].id == id then before[k].(summary := Some(summary), relevance := Some(score)) else before[k])
      invariant forall k :: i <= k < |db.articles| ==> db.articles[k] == before[k]
      invariant db.feedback == old(db.feedback) && db.profile == old(db.profile)
      invariant db.nextArticleId == old(db.nextArticleId) && db.nextFeedbackId == old(db.nextFeedbackId)
    {
      if db.articles[i].id == id {
        db.articles := db.articles[i := db.articles[i].(summary := Some(summary), relevance := Some(score))];
        saved := true;
      }
      i := i + 1;
    }
    KeysKeptValid(old(db.articles), db.articles, db.nextArticleId);
  }

  /** `UPDATE articles SET deep_analysis = ? WHERE id = ?`: true iff some row
      had that id. */
  method SaveDeepAnalysis(db: Database, id: int, text: string) returns (saved: bool)
    requires db.Valid()
    modifies db
    ensures db.Valid()
    ensures saved <==> exists a :: a in old(db.articles) && a.id == id
    ensures |db.articles| == |old(db.articles)|
    ensures forall i :: 0 <= i < |db.articles| ==>
      db.articles[i] == (if old(db.articles[i]).id == id then old(db.articles[i]).(deepAnalysis := Some(text)) else old(db.articles[i]))
    ensures db.feedback == old(db.feedback) && db.profile == old(db.profile)
    ensures db.nextArticleId == old(db.nextArticleId) && db.nextFeedbackId == old(db.nextFeedbackId)
  {
    ghost var before := db.articles;
    saved := false;
    var i := 0;
    while i < |db.articles|
      invariant 0 <= i <= |db.articles| == |before|
      invariant saved <==> exists k :: 0 <= k < i && before[k].id == id
      invariant forall k :: 0 <= k < i ==>
        db.articles[k] == (if before[k].id == id then before[k].(deepAnalysis := Some(text)) else before[k])
      invariant forall k :: i <= k < |db.articles| ==> db.articles[k] == before[k]
      invariant db.feedback == old(db.feedback) && db.profile == old(db.profile)
      invariant db.nextArticleId == old(db.nextArticleId) && db.nextFeedbackId == old(db.nextFeedbackId)
    {
      if db.articles[i].id == id {
        db.articles := db.articles[i := db.articles[i].(deepAnalysis := Some(text))];
        saved := true;
      }
      i := i + 1;
    }
    KeysKeptValid(old(db.articles), db.articles, db.nextArticleId);
  }

  /** Deleting rows keeps the URLs unique and the ids increasing. */
  lemma {:induction false} FilterKeepsValid(s: seq<Article>, next: int, p: Article -> bool)
    requires UrlsUnique(s) && ArticleIdsBelow(s, next)
    ensures UrlsUnique(Filter(s, p)) && ArticleIdsBelow(Filter(s, p), next)
  {
    if s != [] {
      var init := s[..|s| - 1];
      var last := s[|s| - 1];
      FilterKeepsValid(init, next, p);
      var f := Filter(init, p);
      forall a | a in f ensures a.id < last.id && a.url != last.url {
        var k :| 0 <= k < |init| && init[k] == a;
        assert s[k] == a;
      }
      if p(last) {
        SnocKeepsValid(f, last, next);
      }
    }
  }

  /** A row with a new url and a larger id than every row can follow them. */
  lemma SnocKeepsValid(f: seq<Article>, last: Article, next: int)
    requires UrlsUnique(f) && ArticleIdsBelow(f, next) && last.id < next
    requires forall a :: a in f ==> a.id < last.id && a.url != last.url
    ensures UrlsUnique(f + [last]) && ArticleIdsBelow(f + [last], next)
  {
    var r := f + [last];
    forall i, j | 0 <= i < j < |r| ensures r[i].url != r[j].url && r[i].id < r[j].id {
      if j == |r| - 1 {
        assert r[i] in f;
      }
    }
  }

  /** Updating columns other than `id` and `url` keeps the constraints. */
  lemma KeysKeptValid(before: seq<Article>, after: seq<Article>, next: int)
    requires UrlsUnique(before) && ArticleIdsBelow(before, next)
    requires |after| == |before|
    requires forall i :: 0 <= i < |after| ==> after[i].id == before[i].id && after[i].url == before[i].url
    ensures UrlsUnique(after) && ArticleIdsBelow(after, next)
  {
  }

  /** Marking every article read leaves no unread article, and what was
      counted is what the listing of unread articles showed before. */
  lemma {:induction false} MarkAllCountsUnreadListing(articles: seq<Article>)
    ensures CountWhere(articles, (a: Article) => !a.isRead)
         == |GetArticles(articles, None, None, true, None, None)|
  {
    var unread := (a: Article) => !a.isRead;
    var p := (a: Article) => ListingMatches(a, None, true, None, None);
    FilterCount(articles, unread);
    assert Filter(articles, p) == Filter(articles, unread) by {
      FilterSamePredicate(articles, p, unread);
    }
  }
}
