/** The decision logic of the agent's tools: the three relevance tiers of
    the article listing, the checks each writing tool makes before it
    writes, the comparison of the scorer's relevance with the reader's
    rating, the lookup tables, the trending-topic count and the source
    suggestions. The tool wrappers' argument parsing and messages are not
    modelled. */
module McpTools {

  import opened Common
  import opened Schema
  import opened Sorting
  import opened Text
  import opened ArticleManager
  import opened ArticleQuery
  import opened ProfileManager
  import opened FeedbackManager

  // ----- relevance tiers of `get_articles_tool` -----

  datatype Tier = High | Medium | Low

  function PresentationHint(t: Tier): string
  {
    match t
    case High => "full"
    case Medium => "compact"
    case Low => "minimal"
  }

  /** 0 for the top tier, 2 for the bottom one. */
  function Rank(t: Tier): nat
  {
    match t
    case High => 0
    case Medium => 1
    case Low => 2
  }

  /** A score of exactly 0.7 or 0.4 belongs to the upper tier. */
  function TierOf(score: real): Tier
  {
    if score >= 0.7 then High else if score >= 0.4 then Medium else Low
  }

  /** A higher score never lands in a lower tier. */
  lemma TierMonotone(s1: real, s2: real)
    requires s1 <= s2
    ensures Rank(TierOf(s2)) <= Rank(TierOf(s1))
  {
  }

  /** `bool(article.get('deep_analysis'))`. */
  predicate HasDeepAnalysis(a: Article)
  {
    a.deepAnalysis.Some? && a.deepAnalysis.value != ""
  }

  /** The score the tier is decided on: a deep analysis lifts it to at
      least 0.75. */
  function EffectiveScore(a: Article): real
    requires a.relevance.Some?
  {
    if HasDeepAnalysis(a) then (if a.relevance.value >= 0.75 then a.relevance.value else 0.75)
    else a.relevance.value
  }

  /** An article as a tier lists it, with its hints. */
  datatype Hinted = Hinted(article: Article, hasDeepAnalysis: bool, tier: Tier)

  function HintOf(a: Article): Hinted
    requires a.relevance.Some?
  {
    Hinted(a, HasDeepAnalysis(a), TierOf(EffectiveScore(a)))
  }

  /** A NULL score makes the comparison raise, so tiering needs them all. */
  predicate AllScored(articles: seq<Article>)
  {
    forall a :: a in articles ==> a.relevance.Some?
  }

  function Hints(articles: seq<Article>): (hs: seq<Hinted>)
    requires AllScored(articles)
    ensures |hs| == |articles|
    ensures forall i :: 0 <= i < |articles| ==> hs[i] == HintOf(articles[i])
  {
    if articles == [] then []
    else
      assert forall a :: a in articles[..|articles| - 1] ==> a in articles;
      Hints(articles[..|articles| - 1]) + [HintOf(articles[|articles| - 1])]
  }

  function InTier(t: Tier): Hinted -> bool
  {
    (h: Hinted) => h.tier == t
  }

  datatype Tiers = Tiers(high: seq<Hinted>, medium: seq<Hinted>, low: seq<Hinted>)

  /** The three lists of the grouped listing, or None when the loop raises. */
  function Tiered(articles: seq<Article>): Option<Tiers>
  {
    if !AllScored(articles) then None
    else
      var hs := Hints(articles);
      Some(Tiers(Filter(hs, InTier(High)), Filter(hs, InTier(Medium)), Filter(hs, InTier(Low))))
  }

  /** The tier loop of `get_articles_tool`: each article is appended to the
      list of its tier; the first NULL score raises. */
  method TierArticles(articles: seq<Article>) returns (r: Option<Tiers>)
    ensures r == Tiered(articles)
  {
    var high: seq<Hinted> := [];
    var medium: seq<Hinted> := [];
    var low: seq<Hinted> := [];
    var i := 0;
    while i < |articles|
      invariant 0 <= i <= |articles|
      invariant AllScored(articles[..i])
      invariant high == Filter(Hints(articles[..i]), InTier(High))
      invariant medium == Filter(Hints(articles[..i]), InTier(Medium))
      invariant low == Filter(Hints(articles[..i]), InTier(Low))
    {
      var a := articles[i];
      if a.relevance.None? {
        assert a in articles;
        return None;
      }
      TierStep(articles, i);
      high, medium, low := PlaceArticle(high, medium, low, a);
      i := i + 1;
    }
    assert articles[..i] == articles;
    r := Some(Tiers(high, medium, low));
  }

  /** One turn of the tier loop: the article, with its deep-analysis flag,
      is appended to the list of its effective score's tier. */
  method PlaceArticle(high0: seq<Hinted>, medium0: seq<Hinted>, low0: seq<Hinted>, a: Article)
    returns (high: seq<Hinted>, medium: seq<Hinted>, low: seq<Hinted>)
    requires a.relevance.Some?
    ensures high == high0 + (if HintOf(a).tier == High then [HintOf(a)] else [])
    ensures medium == medium0 + (if HintOf(a).tier == Medium then [HintOf(a)] else [])
    ensures low == low0 + (if HintOf(a).tier == Low then [HintOf(a)] else [])
  {
    high, medium, low := high0, medium0, low0;
    var score := a.relevance.value;
    var deep := a.deepAnalysis.Some? && a.deepAnalysis.value != "";
    if deep {
      score := if score >= 0.75 then score else 0.75;
    }
    assert HintOf(a) == Hinted(a, deep, TierOf(score));
    if score >= 0.7 {
      high := high + [Hinted(a, deep, High)];
    } else if score >= 0.4 {
      medium := medium + [Hinted(a, deep, Medium)];
    } else {
      low := low + [Hinted(a, deep, Low)];
    }
  }

  /** One more article extends exactly the list of its own tier. */
  lemma TierStep(articles: seq<Article>, i: nat)
    requires i < |articles| && AllScored(articles[..i]) && articles[i].relevance.Some?
    ensures AllScored(articles[..i + 1])
    ensures forall t :: Filter(Hints(articles[..i + 1]), InTier(t))
                      == Filter(Hints(articles[..i]), InTier(t)) + (if HintOf(articles[i]).tier == t then [HintOf(articles[i])] else [])
  {
    var a := articles[i];
    assert articles[..i + 1] == articles[..i] + [a];
    assert forall b :: b in articles[..i + 1] ==> b in articles[..i] || b == a;
    var hs := Hints(articles[..i + 1]);
    assert hs[..|hs| - 1] == Hints(articles[..i]) by {
      assert articles[..i + 1][..i] == articles[..i];
    }
  }

  /** Tiering fails exactly when some score is NULL; otherwise it is a
      partition: every article is in the list of its own tier, nothing else
      is listed, and the three counts add up to the total. */
  lemma TieredPartition(articles: seq<Article>)
    ensures Tiered(articles).None? <==> exists a :: a in articles && a.relevance.None?
    ensures Tiered(articles).Some? ==>
      var ts := Tiered(articles).value;
      && |ts.high| + |ts.medium| + |ts.low| == |articles|
      && (forall h :: h in ts.high ==> h.tier == High && h.article in articles && h == HintOf(h.article))
      && (forall h :: h in ts.medium ==> h.tier == Medium && h.article in articles && h == HintOf(h.article))
      && (forall h :: h in ts.low ==> h.tier == Low && h.article in articles && h == HintOf(h.article))
      && (forall a :: a in articles ==>
            (HintOf(a) in ts.high <==> HintOf(a).tier == High)
            && (HintOf(a) in ts.medium <==> HintOf(a).tier == Medium)
            && (HintOf(a) in ts.low <==> HintOf(a).tier == Low))
  {
    if AllScored(articles) {
      var hs := Hints(articles);
      FilterCount(hs, InTier(High));
      FilterCount(hs, InTier(Medium));
      FilterCount(hs, InTier(Low));
      CountThreeTiers(hs);
      forall h | h in hs ensures h.article in articles && h == HintOf(h.article) {
        var i :| 0 <= i < |hs| && hs[i] == h;
      }
      forall a | a in articles ensures HintOf(a) in hs {
        var i :| 0 <= i < |articles| && articles[i] == a;
      }
    }
  }

  lemma {:induction false} CountThreeTiers(hs: seq<Hinted>)
    ensures CountWhere(hs, InTier(High)) + CountWhere(hs, InTier(Medium)) + CountWhere(hs, InTier(Low)) == |hs|
  {
    if hs != [] {
      CountThreeTiers(hs[..|hs| - 1]);
    }
  }

  /** An article with a deep analysis is always in the top tier, whatever
      its own score. */
  lemma DeepAnalysisIsHigh(a: Article)
    requires a.relevance.Some? && HasDeepAnalysis(a)
    ensures HintOf(a).tier == High && HintOf(a).hasDeepAnalysis
  {
  }

  /** `hours_map.get(time_filter, 24)`. */
  function HoursFor(timeFilter: string): (h: nat)
    ensures h in {24, 168, 720}
    ensures timeFilter !in {"last_24h", "last_week", "last_month"} ==> h == 24
  {
    if timeFilter == "last_week" then 168
    else if timeFilter == "last_month" then 720
    else 24
  }

  /** The arguments of `get_articles_tool`; `sortBy` defaults to
      "relevance_desc" and `offset` to 0 in the caller. */
  datatype ArticlesArgs = ArticlesArgs(
    readStatus: string,
    source: Option<string>,
    minRelevance: Option<real>,
    timeFilter: Option<string>,
    fetchedSince: Option<Timestamp>,
    publishedSince: Option<Timestamp>,
    limit: Option<int>,
    offset: int,
    sortBy: string,
    grouped: bool)

  /** The lower bound on the fetch time: a truthy time filter replaces
      `fetched_since` by `now` minus its hours. */
  function FetchedBound(args: ArticlesArgs, now: Timestamp): Option<Timestamp>
  {
    if args.timeFilter.Some? && args.timeFilter.value != "" then Some(now - HoursFor(args.timeFilter.value) * SecondsPerHour)
    else args.fetchedSince
  }

  /** The query the tool runs: every other parameter keeps its default, so
      neither content nor deep analysis is selected. */
  function ToolQuery(args: ArticlesArgs, now: Timestamp): (q: Query)
    ensures !q.includeContent && !q.includeFeedback && !q.statsOnly
  {
    DefaultQuery().(readStatus := args.readStatus, source := args.source, minRelevance := args.minRelevance,
                    fetchedAfter := FetchedBound(args, now), publishedAfter := args.publishedSince,
                    limit := args.limit, offset := args.offset, sortBy := args.sortBy)
  }

  function ArticlesOfViews(vs: seq<ArticleView>): (r: seq<Article>)
    ensures |r| == |vs|
    ensures forall i :: 0 <= i < |vs| ==> r[i] == vs[i].article
  {
    seq(|vs|, i requires 0 <= i < |vs| => vs[i].article)
  }

  datatype ArticlesToolResult =
    | ToolFailed
    | FlatList(articles: seq<ArticleView>, total: nat)
    | TierList(articles: seq<ArticleView>, tiers: Tiers, total: nat)

  /** `get_articles_tool`: the query's rows, also split into tiers when
      `grouped`; an OFFSET without LIMIT or a NULL score in grouped mode is
      caught and reported as a failure with no articles. The store is only
      read. */
  method GetArticlesTool(db: Database, args: ArticlesArgs, now: Timestamp) returns (r: ArticlesToolResult)
    ensures var out := QueryArticlesAdvanced(db.articles, db.feedback, ToolQuery(args, now), now);
      && (r.ToolFailed? <==> out.SqlError? || (args.grouped && out.Listing? && Tiered(ArticlesOfViews(out.articles)).None?))
      && (r.FlatList? ==> !args.grouped && r.articles == out.articles && r.total == |r.articles|)
      && (r.TierList? ==>
            && args.grouped && r.articles == out.articles && r.total == |r.articles|
            && Tiered(ArticlesOfViews(r.articles)) == Some(r.tiers))
  {
    var q := ToolQuery(args, now);
    var out := QueryStore(db, q, now);
    if out.SqlError? {
      return ToolFailed;
    }
    var arts := ArticlesOfViews(out.articles);
    if args.grouped {
      var tiers := TierArticles(arts);
      if tiers.None? {
        return ToolFailed;
      }
      return TierList(out.articles, tiers.value, |out.articles|);
    }
    return FlatList(out.articles, |out.articles|);
  }

  /** The listing never carries a deep analysis, since the default columns
      leave it out; so through this tool no article is lifted by one. */
  lemma ToolNeverSeesDeepAnalysis(articles: seq<Article>, feedback: seq<Feedback>, args: ArticlesArgs, now: Timestamp)
    ensures var out := QueryArticlesAdvanced(articles, feedback, ToolQuery(args, now), now);
      out.Listing? ==>
        (forall v :: v in out.articles ==> !HasDeepAnalysis(v.article))
        && (Tiered(ArticlesOfViews(out.articles)).Some? ==>
              forall a :: a in ArticlesOfViews(out.articles) ==> !HintOf(a).hasDeepAnalysis)
  {
    var q := ToolQuery(args, now);
    var out := QueryArticlesAdvanced(articles, feedback, q, now);
    if out.Listing? {
      var page := Page(Ordered(articles, feedback, q, now), q.limit, q.offset).value;
      assert out.articles == Views(page, q, feedback);
      forall v | v in out.articles ensures !HasDeepAnalysis(v.article) {
        var i :| 0 <= i < |out.articles| && out.articles[i] == v;
      }
      var arts := ArticlesOfViews(out.articles);
      forall a | a in arts ensures !HasDeepAnalysis(a) {
        var i :| 0 <= i < |arts| && arts[i] == a;
        assert out.articles[i] in out.articles;
      }
    }
  }

  /** With an offset and no limit the tool fails with no articles, however
      the other arguments are set. */
  lemma OffsetWithoutLimitFails(articles: seq<Article>, feedback: seq<Feedback>, args: ArticlesArgs, now: Timestamp)
    requires args.offset > 0 && (args.limit.None? || args.limit.value == 0)
    ensures QueryArticlesAdvanced(articles, feedback, ToolQuery(args, now), now).SqlError?
  {
  }

  // ----- comparison of the scorer and the reader -----

  datatype Alignment = Good | Moderate | Poor

  function AlignmentOf(difference: real): Alignment
  {
    if difference < 0.2 then Good else if difference < 0.4 then Moderate else Poor
  }

  function AlignmentRank(al: Alignment): nat
  {
    match al
    case Good => 0
    case Moderate => 1
    case Poor => 2
  }

  /** A larger difference never gives a better alignment. */
  lemma AlignmentMonotone(d1: real, d2: real)
    requires d1 <= d2
    ensures AlignmentRank(AlignmentOf(d1)) <= AlignmentRank(AlignmentOf(d2))
  {
  }

  datatype Comparison =
    | ArticleNotFound
    | NoFeedback
    /** `abs(None - x)` raises: the article has no score. */
    | ScoreMissing
    | Compared(title: string, aiRelevance: real, userRatingNormalized: real, userRatingRaw: int,
               difference: real, alignment: Alignment)

  /** `compare_ai_vs_user_rating_tool`: the newest rating, read as a
      fraction of 5, against the stored score. */
  function CompareAiVsUser(articles: seq<Article>, feedback: seq<Feedback>, articleId: int): Comparison
  {
    match GetArticle(articles, articleId)
    case None => ArticleNotFound
    case Some(a) =>
      var fs := GetArticleFeedback(feedback, articleId);
      if fs == [] then NoFeedback
      else if a.relevance.None? then ScoreMissing
      else
        var user := fs[0].rating as real / 5.0;
        var diff := AbsReal(a.relevance.value - user);
        Compared(a.title, a.relevance.value, user, fs[0].rating, diff, AlignmentOf(diff))
  }

  /** The comparison fails exactly when the article is missing, has no
      feedback or has no score; otherwise it sets the stored score against
      a newest feedback row of the article, read as a fraction of 5, and the
      alignment follows the thresholds of their distance. */
  lemma CompareSpec(articles: seq<Article>, feedback: seq<Feedback>, articleId: int)
    ensures var c := CompareAiVsUser(articles, feedback, articleId);
      && (c.ArticleNotFound? <==> forall a :: a in articles ==> a.id != articleId)
      && (c.NoFeedback? <==> GetArticle(articles, articleId).Some? && forall f :: f in feedback ==> f.articleId != articleId)
      && (c.ScoreMissing? <==>
            && GetArticle(articles, articleId).Some?
            && (exists f :: f in feedback && f.articleId == articleId)
            && GetArticle(articles, articleId).value.relevance.None?)
      && (c.Compared? ==>
            && GetArticle(articles, articleId).Some?
            && GetArticle(articles, articleId).value.relevance == Some(c.aiRelevance)
            && c.title == GetArticle(articles, articleId).value.title
            && c.difference == AbsReal(c.aiRelevance - c.userRatingNormalized))
      && (c.Compared? ==>
            && (exists f :: f in feedback && f.articleId == articleId && c.userRatingRaw == f.rating
                 && (forall g :: g in feedback && g.articleId == articleId ==> g.createdAt <= f.createdAt))
            && c.userRatingNormalized == c.userRatingRaw as real / 5.0
            && c.difference >= 0.0
            && (c.alignment == Good <==> c.difference < 0.2)
            && (c.alignment == Poor <==> c.difference >= 0.4))
  {
    CompareFailures(articles, feedback, articleId);
    CompareNewest(articles, feedback, articleId);
  }

  /** The three ways the comparison fails. */
  lemma CompareFailures(articles: seq<Article>, feedback: seq<Feedback>, articleId: int)
    ensures var c := CompareAiVsUser(articles, feedback, articleId);
      && (c.ArticleNotFound? <==> forall a :: a in articles ==> a.id != articleId)
      && (c.NoFeedback? <==> GetArticle(articles, articleId).Some? && forall f :: f in feedback ==> f.articleId != articleId)
      && (c.ScoreMissing? <==>
            && GetArticle(articles, articleId).Some?
            && (exists f :: f in feedback && f.articleId == articleId)
            && GetArticle(articles, articleId).value.relevance.None?)
  {
    var fs := GetArticleFeedback(feedback, articleId);
    GetArticleFeedbackSpec(feedback, articleId);
    if fs != [] {
      assert fs[0] in fs;
    }
  }

  /** A comparison uses a newest feedback row of the article. */
  lemma CompareNewest(articles: seq<Article>, feedback: seq<Feedback>, articleId: int)
    ensures var c := CompareAiVsUser(articles, feedback, articleId);
      c.Compared? ==>
        exists f :: f in feedback && f.articleId == articleId && c.userRatingRaw == f.rating
          && (forall g :: g in feedback && g.articleId == articleId ==> g.createdAt <= f.createdAt)
  {
    var fs := GetArticleFeedback(feedback, articleId);
    GetArticleFeedbackSpec(feedback, articleId);
    if fs != [] {
      var f := fs[0];
      assert f in fs;
      forall g | g in feedback && g.articleId == articleId ensures g.createdAt <= f.createdAt {
        assert g in fs;
        var j :| 0 <= j < |fs| && fs[j] == g;
      }
    }
  }

  // ----- the writing tools -----

  datatype ToolStatus = Success | Failure(error: string)

  /** `save_feedback_tool`: a rating outside 1..5 is refused before any
      write; otherwise the feedback is stored, the article marked read and
      the profile learns from the rating. */
  method SaveFeedbackTool(db: Database, articleId: int, rating: int, note: Option<string>, now: Timestamp)
    returns (status: ToolStatus, feedbackId: int, profileUpdates: seq<(string, real)>)
    requires db.Valid()
    modifies db
    ensures db.Valid()
    ensures status.Success? <==> ValidRating(rating)
    ensures !ValidRating(rating) ==>
      && db.articles == old(db.articles) && db.feedback == old(db.feedback) && db.profile == old(db.profile)
      && db.nextFeedbackId == old(db.nextFeedbackId)
    ensures ValidRating(rating) ==>
      && feedbackId == old(db.nextFeedbackId)
      && db.feedback == old(db.feedback) + [Feedback(feedbackId, articleId, rating, note, now)]
      && |db.articles| == |old(db.articles)|
      && (forall i :: 0 <= i < |db.articles| ==>
            db.articles[i] == (if old(db.articles[i]).id == articleId then old(db.articles[i]).(isRead := true)
                               else old(db.articles[i])))
      && var topics := LearningTopics(old(db.profile), old(db.articles), articleId);
         && profileUpdates == LearnedWeights(old(db.profile), topics, RatingDelta(rating))
         && LearnedSoFar(old(db.profile), db.profile, topics, RatingDelta(rating), now)
    ensures db.nextArticleId == old(db.nextArticleId)
  {
    profileUpdates := [];
    feedbackId := 0;
    if !(1 <= rating <= 5) {
      status := Failure("Rating must be between 1-5");
      return;
    }
    var id := AddFeedback(db, articleId, rating, note, now);
    feedbackId := id.value;
    ghost var beforeMark := db.articles;
    MarkAsRead(db, articleId);
    MarkKeepsLearningTopics(beforeMark, db.articles, articleId, db.profile);
    var updates := LearnFromFeedback(db, articleId, rating, now);
    if updates.Some? {
      profileUpdates := updates.value;
    }
    status := Success;
  }

  /** The read flag does not take part in topic matching: marking the
      article read leaves the topics learning touches as they were. */
  lemma MarkKeepsLearningTopics(before: seq<Article>, after: seq<Article>, id: int, profile: seq<ProfileTopic>)
    requires |after| == |before|
    requires forall i :: 0 <= i < |after| ==>
      after[i] == (if before[i].id == id then before[i].(isRead := true) else before[i])
    ensures LearningTopics(profile, after, id) == LearningTopics(profile, before, id)
  {
    MarkedLookup(before, after, id);
  }

  lemma {:induction false} MarkedLookup(before: seq<Article>, after: seq<Article>, id: int)
    requires |after| == |before|
    requires forall i :: 0 <= i < |after| ==>
      after[i] == (if before[i].id == id then before[i].(isRead := true) else before[i])
    ensures GetArticle(before, id).None? <==> GetArticle(after, id).None?
    ensures GetArticle(before, id).Some? ==> GetArticle(after, id) == Some(GetArticle(before, id).value.(isRead := true))
  {
    if before != [] && before[0].id != id {
      MarkedLookup(before[1..], after[1..], id);
    }
  }

  /** `save_article_analysis_tool`: an empty (after stripping) summary, a
      score outside [0, 1] or an unknown article is refused before any
      write; otherwise the stripped summary and the score are stored. */
  method SaveArticleAnalysisTool(db: Database, articleId: int, summary: string, score: real) returns (status: ToolStatus)
    requires db.Valid()
    modifies db
    ensures db.Valid()
    ensures status.Success? <==>
      Strip(summary) != "" && 0.0 <= score <= 1.0 && exists a :: a in old(db.articles) && a.id == articleId
    ensures status.Failure? ==> db.articles == old(db.articles)
    ensures status.Success? ==>
      && |db.articles| == |old(db.articles)|
      && forall i :: 0 <= i < |db.articles| ==>
           db.articles[i] == (if old(db.articles[i]).id == articleId
                              then old(db.articles[i]).(summary := Some(Strip(summary)), relevance := Some(score))
                              else old(db.articles[i]))
    ensures db.feedback == old(db.feedback) && db.profile == old(db.profile)
    ensures db.nextArticleId == old(db.nextArticleId) && db.nextFeedbackId == old(db.nextFeedbackId)
  {
    var text := Strip(summary);
    if text == "" {
      return Failure("summary is required and cannot be empty");
    }
    if !(0.0 <= score <= 1.0) {
      return Failure("relevance_score must be between 0.0 and 1.0");
    }
    var article := GetArticle(db.articles, articleId);
    if article.None? {
      return Failure("article not found");
    }
    var saved := SaveAnalysis(db, articleId, text, score);
    if !saved {
      assert false;
    }
    status := Success;
  }

  /** `save_deep_analysis_tool`: empty text (after stripping) or an unknown
      article is refused before any write; otherwise the stripped text is
      stored. */
  method SaveDeepAnalysisTool(db: Database, articleId: int, analysisText: string) returns (status: ToolStatus, length: nat)
    requires db.Valid()
    modifies db
    ensures db.Valid()
    ensures status.Success? <==> Strip(analysisText) != "" && exists a :: a in old(db.articles) && a.id == articleId
    ensures status.Failure? ==> db.articles == old(db.articles)
    ensures status.Success? ==>
      && length == |Strip(analysisText)|
      && |db.articles| == |old(db.articles)|
      && forall i :: 0 <= i < |db.articles| ==>
           db.articles[i] == (if old(db.articles[i]).id == articleId
                              then old(db.articles[i]).(deepAnalysis := Some(Strip(analysisText)))
                              else old(db.articles[i]))
    ensures db.feedback == old(db.feedback) && db.profile == old(db.profile)
    ensures db.nextArticleId == old(db.nextArticleId) && db.nextFeedbackId == old(db.nextFeedbackId)
  {
    length := 0;
    var text := Strip(analysisText);
    if text == "" {
      return Failure("analysis_text is required and cannot be empty"), 0;
    }
    var article := GetArticle(db.articles, articleId);
    if article.None? {
      return Failure("article not found"), 0;
    }
    var saved := SaveDeepAnalysis(db, articleId, text);
    if !saved {
      assert false;
    }
    status, length := Success, |text|;
  }

  /** `adjust_relevance_threshold_tool`: a value outside [0, 1] is refused
      here already; otherwise the old value is reported and the setter's
      result returned. */
  method AdjustRelevanceThresholdTool(config: Config, threshold: real, saved: bool)
    returns (success: bool, oldThreshold: Option<real>)
    modifies config
    ensures success <==> 0.0 <= threshold <= 1.0 && saved
    ensures !(0.0 <= threshold <= 1.0) ==> oldThreshold.None?
    ensures 0.0 <= threshold <= 1.0 ==> oldThreshold == Some(old(config.RelevanceThreshold()))
    ensures success ==> config.relevanceThreshold == Some(threshold)
    ensures !success ==> config.relevanceThreshold == old(config.relevanceThreshold)
  {
    if !(0.0 <= threshold <= 1.0) {
      return false, None;
    }
    oldThreshold := Some(config.RelevanceThreshold());
    success := config.SetRelevanceThreshold(threshold, saved);
  }

  /** `weight_map.get(priority, 0.6)` of `add_interest_tool`. */
  function InterestWeight(priority: string): (w: real)
    ensures w in {0.8, 0.6, 0.4}
    ensures priority !in {"high", "low"} ==> w == 0.6
  {
    if priority == "high" then 0.8 else if priority == "low" then 0.4 else 0.6
  }

  /** `add_interest_tool`: the topic is written as an explicit interest with
      the priority's weight (priority "medium" when absent). */
  method AddInterestTool(db: Database, topic: string, priority: Option<string>, now: Timestamp)
    returns (success: bool, weight: real)
    requires db.Valid()
    modifies db
    ensures db.Valid()
    ensures success
    ensures weight == InterestWeight(if priority.Some? then priority.value else "medium")
    ensures db.profile == Upsert(old(db.profile), topic, weight, Explicit, now)
    ensures db.articles == old(db.articles) && db.feedback == old(db.feedback)
    ensures db.nextArticleId == old(db.nextArticleId) && db.nextFeedbackId == old(db.nextFeedbackId)
  {
    weight := InterestWeight(if priority.Some? then priority.value else "medium");
    success := UpdateTopic(db, topic, weight, Explicit, now);
  }

  /** `mark_articles_read_tool`: an empty list is refused; otherwise every
      listed id is marked read (missing ids too, silently) and the count is
      the length of the list. */
  method MarkArticlesReadTool(db: Database, ids: seq<int>) returns (markedCount: Option<nat>)
    requires db.Valid()
    modifies db
    ensures db.Valid()
    ensures markedCount.None? <==> ids == []
    ensures markedCount.Some? ==> markedCount.value == |ids|
    ensures |db.articles| == |old(db.articles)|
    ensures forall i :: 0 <= i < |db.articles| ==>
      db.articles[i] == (if old(db.articles[i]).id in ids then old(db.articles[i]).(isRead := true) else old(db.articles[i]))
    ensures db.feedback == old(db.feedback) && db.profile == old(db.profile)
    ensures db.nextArticleId == old(db.nextArticleId) && db.nextFeedbackId == old(db.nextFeedbackId)
  {
    if ids == [] {
      return None;
    }
    var count := 0;
    var j := 0;
    while j < |ids|
      invariant 0 <= j <= |ids| && count == j
      invariant db.Valid()
      invariant |db.articles| == |old(db.articles)|
      invariant forall i :: 0 <= i < |db.articles| ==>
        db.articles[i] == (if old(db.articles[i]).id in ids[..j] then old(db.articles[i]).(isRead := true) else old(db.articles[i]))
      invariant db.feedback == old(db.feedback) && db.profile == old(db.profile)
      invariant db.nextArticleId == old(db.nextArticleId) && db.nextFeedbackId == old(db.nextFeedbackId)
    {
      MarkAsRead(db, ids[j]);
      assert ids[..j + 1] == ids[..j] + [ids[j]];
      count := count + 1;
      j := j + 1;
    }
    assert ids[..j] == ids;
    markedCount := Some(count);
  }

  // ----- trending topics -----

  /** How often `t` occurs in `s`. */
  function Occurrences(s: seq<string>, t: string): nat
  {
    CountWhere(s, (x: string) => x == t)
  }

  /** The lists one after another. */
  function Flatten(lists: seq<seq<string>>): seq<string>
  {
    if lists == [] then [] else Flatten(lists[..|lists| - 1]) + lists[|lists| - 1]
  }

  /** The dict `topic_count` as its keys in insertion order, each with its
      count. */
  function CountPairs(all: seq<string>): (r: seq<(string, nat)>)
    ensures |r| == |Dedup(all)|
    ensures forall i :: 0 <= i < |r| ==> r[i] == (Dedup(all)[i], Occurrences(all, Dedup(all)[i]))
  {
    var keys := Dedup(all);
    seq(|keys|, i requires 0 <= i < |keys| => (keys[i], Occurrences(all, keys[i])))
  }

  /** `sorted(topic_count.items(), key=count, reverse=True)[:10]`. */
  function Trending(all: seq<string>): seq<(string, nat)>
  {
    PyTake(SortBy(CountPairs(all), HigherCountOrSame()), 10)
  }

  /** `counts` (with `keys`, its key order) holds the counts of `done`. */
  ghost predicate Counted(keys: seq<string>, counts: map<string, nat>, done: seq<string>)
  {
    && keys == Dedup(done)
    && (forall k :: k in counts <==> k in keys)
    && forall k :: k in keys ==> counts[k] == Occurrences(done, k)
  }

  /** One more item adds one to its own count and nothing to the others. */
  lemma OccurrencesSnoc(done: seq<string>, t: string, k: string)
    ensures Occurrences(done + [t], k) == Occurrences(done, k) + (if k == t then 1 else 0)
  {
    assert (done + [t])[..|done|] == done;
  }

  /** An item that does not occur has no occurrences. */
  lemma {:induction false} NoOccurrences(done: seq<string>, t: string)
    requires t !in done
    ensures Occurrences(done, t) == 0
  {
    if done != [] {
      assert done[..|done| - 1] <= done;
      NoOccurrences(done[..|done| - 1], t);
    }
  }

  /** Counting another occurrence of a topic already counted. */
  lemma CountAgain(keys: seq<string>, counts: map<string, nat>, done: seq<string>, t: string)
    requires Counted(keys, counts, done) && t in counts
    ensures Counted(keys, counts[t := counts[t] + 1], done + [t])
  {
    assert (done + [t])[..|done|] == done;
    assert t in Dedup(done);
    forall k | k in keys ensures counts[t := counts[t] + 1][k] == Occurrences(done + [t], k) {
      OccurrencesSnoc(done, t, k);
    }
  }

  /** Counting the first occurrence of a topic. */
  lemma CountFirst(keys: seq<string>, counts: map<string, nat>, done: seq<string>, t: string)
    requires Counted(keys, counts, done) && t !in counts
    ensures Counted(keys + [t], counts[t := 1], done + [t])
  {
    assert (done + [t])[..|done|] == done;
    assert t !in Dedup(done);
    NoOccurrences(done, t);
    forall k | k in keys + [t] ensures counts[t := 1][k] == Occurrences(done + [t], k) {
      OccurrencesSnoc(done, t, k);
    }
  }

  lemma FlattenStep(lists: seq<seq<string>>, i: nat)
    requires i < |lists|
    ensures Flatten(lists[..i + 1]) == Flatten(lists[..i]) + lists[i]
  {
    assert lists[..i + 1][..i] == lists[..i];
  }

  /** The inner loop: counts the topics of one article. */
  method CountList(keys0: seq<string>, counts0: map<string, nat>, ghost done: seq<string>, topics: seq<string>)
    returns (keys: seq<string>, counts: map<string, nat>)
    requires Counted(keys0, counts0, done)
    ensures Counted(keys, counts, done + topics)
  {
    keys, counts := keys0, counts0;
    var j := 0;
    assert done + topics[..0] == done;
    while j < |topics|
      invariant 0 <= j <= |topics|
      invariant Counted(keys, counts, done + topics[..j])
    {
      PrefixSnoc(done, topics, j);
      keys, counts := CountOne(keys, counts, done + topics[..j], topics[j]);
      j := j + 1;
    }
    assert topics[..j] == topics;
  }

  /** `topic_count[topic] = topic_count.get(topic, 0) + 1` for one topic. */
  method CountOne(keys0: seq<string>, counts0: map<string, nat>, ghost done: seq<string>, t: string)
    returns (keys: seq<string>, counts: map<string, nat>)
    requires Counted(keys0, counts0, done)
    ensures Counted(keys, counts, done + [t])
  {
    if t in counts0 {
      CountAgain(keys0, counts0, done, t);
      keys, counts := keys0, counts0[t := counts0[t] + 1];
    } else {
      CountFirst(keys0, counts0, done, t);
      keys, counts := keys0 + [t], counts0[t := 1];
    }
  }

  /** The counting loop of `identify_trending_topics_tool`: for each topic
      of each article, `topic_count[topic] = topic_count.get(topic, 0) + 1`. */
  method CountTopics(lists: seq<seq<string>>) returns (keys: seq<string>, counts: map<string, nat>)
    ensures keys == Dedup(Flatten(lists))
    ensures forall k :: k in counts <==> k in keys
    ensures forall k :: k in keys ==> counts[k] == Occurrences(Flatten(lists), k)
  {
    keys, counts := [], map[];
    var i := 0;
    while i < |lists|
      invariant 0 <= i <= |lists|
      invariant Counted(keys, counts, Flatten(lists[..i]))
    {
      keys, counts := CountList(keys, counts, Flatten(lists[..i]), lists[i]);
      FlattenStep(lists, i);
      i := i + 1;
    }
    assert lists[..i] == lists;
  }

  /** The topics matched in each article, as `extract_topics_from_text` sees
      them (a NULL content reads "None"). */
  function ArticleTopics(profile: seq<ProfileTopic>, articles: seq<Article>): (r: seq<seq<string>>)
    ensures |r| == |articles|
    ensures forall i :: 0 <= i < |articles| ==> r[i] == ExtractTopics(profile, ContentText(articles[i]), articles[i].title)
  {
    seq(|articles|, i requires 0 <= i < |articles| => ExtractTopics(profile, ContentText(articles[i]), articles[i].title))
  }

  /** The articles published in the last `days` days, as `get_articles`
      returns them with no limit. */
  function RecentArticles(articles: seq<Article>, days: int, now: Timestamp): seq<Article>
  {
    GetArticles(articles, None, None, false, None, Some(now - days * SecondsPerDay))
  }

  /** `identify_trending_topics_tool`: the ten topics matched most often in
      recent articles. It only reads the store. */
  method IdentifyTrendingTopics(db: Database, days: int, now: Timestamp) returns (trending: seq<(string, nat)>)
    ensures trending == Trending(Flatten(ArticleTopics(db.profile, RecentArticles(db.articles, days, now))))
  {
    var recent := RecentArticles(db.articles, days, now);
    var lists := ArticleTopics(db.profile, recent);
    var keys, counts := CountTopics(lists);
    var pairs := seq(|keys|, i requires 0 <= i < |keys| => (keys[i], counts[keys[i]]));
    assert pairs == CountPairs(Flatten(lists));
    trending := PyTake(SortBy(pairs, HigherCountOrSame()), 10);
  }

  /** A topic that occurs is counted at least once. */
  lemma {:induction false} OccursOnce(all: seq<string>, t: string)
    requires t in all
    ensures Occurrences(all, t) >= 1
  {
    var init := all[..|all| - 1];
    if all[|all| - 1] != t {
      assert t in init;
      OccursOnce(init, t);
    }
  }

  /** Each trending entry is a topic that occurs, with its true count, and
      no topic is listed twice. */
  lemma TrendingEntries(all: seq<string>)
    ensures forall p :: p in Trending(all) ==> p.0 in all && p.1 == Occurrences(all, p.0) && p.1 >= 1
    ensures DistinctBy(Trending(all), (p: (string, nat)) => p.0)
  {
    var pairs := CountPairs(all);
    var sorted := SortBy(pairs, HigherCountOrSame());
    var r := Trending(all);
    var key := (p: (string, nat)) => p.0;
    assert r <= sorted;
    forall p | p in r ensures p.0 in all && p.1 == Occurrences(all, p.0) && p.1 >= 1 {
      SortByMembers(pairs, HigherCountOrSame(), p);
      var i :| 0 <= i < |pairs| && pairs[i] == p;
      assert Dedup(all)[i] in Dedup(all);
      OccursOnce(all, p.0);
    }
    assert DistinctBy(pairs, key) by {
      forall i, j | 0 <= i < j < |pairs| ensures key(pairs[i]) != key(pairs[j]) {
      }
    }
    SortByDistinct(pairs, HigherCountOrSame(), key);
    forall i, j | 0 <= i < j < |r| ensures key(r[i]) != key(r[j]) {
      assert r[i] == sorted[i] && r[j] == sorted[j];
    }
  }

  /** All topic counts, most frequent first. */
  lemma TrendingSorted(all: seq<string>)
    ensures Sorted(SortBy(CountPairs(all), HigherCountOrSame()), HigherCountOrSame())
  {
    assert Total(HigherCountOrSame()) && Transitive(HigherCountOrSame());
    SortBySorted(CountPairs(all), HigherCountOrSame());
  }

  /** At most ten entries, most frequent first; a topic left out occurs no
      more often than the tenth entry. */
  lemma TrendingTop(all: seq<string>)
    ensures |Trending(all)| <= 10
    ensures forall i, j :: 0 <= i < j < |Trending(all)| ==> Trending(all)[i].1 >= Trending(all)[j].1
    ensures forall t :: t in all && (forall p :: p in Trending(all) ==> p.0 != t) ==>
      |Trending(all)| == 10 && Trending(all)[9].1 >= Occurrences(all, t)
  {
    var pairs := CountPairs(all);
    var sorted := SortBy(pairs, HigherCountOrSame());
    var r := Trending(all);
    TrendingSorted(all);
    assert r <= sorted;
    forall i, j | 0 <= i < j < |r| ensures r[i].1 >= r[j].1 {
      assert HigherCountOrSame()(sorted[i], sorted[j]);
    }
    forall t | t in all && (forall p :: p in r ==> p.0 != t) ensures |r| == 10 && r[9].1 >= Occurrences(all, t) {
      assert t in Dedup(all);
      var i :| 0 <= i < |pairs| && Dedup(all)[i] == t;
      SortByMembers(pairs, HigherCountOrSame(), pairs[i]);
      var k :| 0 <= k < |sorted| && sorted[k] == pairs[i];
      if k < |r| {
        assert false;
      }
      assert HigherCountOrSame()(sorted[9], sorted[k]);
    }
  }

  // ----- source suggestions -----

  datatype Suggestion = Suggestion(name: string, url: string)

  /** The fixed topic-key → feeds table, in its dict order. */
  const SuggestionTable: seq<(string, seq<Suggestion>)> := [
    ("ai", [Suggestion("The Gradient", "https://thegradient.pub/rss/"),
            Suggestion("AI News", "https://artificialintelligence-news.com/feed/")]),
    ("apple", [Suggestion("9to5Mac", "https://9to5mac.com/feed/"),
               Suggestion("AppleInsider", "https://appleinsider.com/rss/news/")]),
    ("tesla", [Suggestion("Electrek Tesla", "https://electrek.co/guides/tesla/feed/")]),
    ("politik", [Suggestion("Altinget", "https://www.altinget.se/rss/")])]

  /** The feeds of every key of `table` contained in the lower-cased topic. */
  function FeedsFor(topic: string, table: seq<(string, seq<Suggestion>)>): (r: seq<Suggestion>)
    ensures forall s :: s in r ==>
      exists k :: 0 <= k < |table| && IsSubstring(table[k].0, PyLower(topic)) && s in table[k].1
    ensures forall k, s :: 0 <= k < |table| && IsSubstring(table[k].0, PyLower(topic)) && s in table[k].1 ==> s in r
  {
    if table == [] then []
    else
      var init := FeedsFor(topic, table[..|table| - 1]);
      var last := table[|table| - 1];
      assert forall k :: 0 <= k < |table| - 1 ==> table[..|table| - 1][k] == table[k];
      init + (if IsSubstring(last.0, PyLower(topic)) then last.1 else [])
  }

  /** Keys match anywhere inside the topic, not only whole words: a topic
      "Ukraina" contains "ai" and so brings the AI feeds. */
  lemma KeyMatchesInsideWord()
    ensures Suggestion("The Gradient", "https://thegradient.pub/rss/") in FeedsFor("Ukraina", SuggestionTable)
  {
    var lower := PyLower("Ukraina");
    assert lower[3..5] == "ai";
    IsSubstringAt("ai", lower, 3);
    assert SuggestionTable[0].0 == "ai";
    assert Suggestion("The Gradient", "https://thegradient.pub/rss/") in SuggestionTable[0].1;
  }

  /** The feeds of all the topics, in order. */
  function Candidates(topics: seq<(string, real)>, table: seq<(string, seq<Suggestion>)>): seq<Suggestion>
  {
    if topics == [] then [] else Candidates(topics[..|topics| - 1], table) + FeedsFor(topics[|topics| - 1].0, table)
  }

  /** The collecting loop: for each topic, for each key of the table it
      contains, the key's feeds are appended. */
  method CollectSuggestions(topics: seq<(string, real)>, table: seq<(string, seq<Suggestion>)>) returns (r: seq<Suggestion>)
    ensures r == Candidates(topics, table)
  {
    r := [];
    var i := 0;
    while i < |topics|
      invariant 0 <= i <= |topics|
      invariant r == Candidates(topics[..i], table)
    {
      var lower := PyLower(topics[i].0);
      ghost var before := r;
      var j := 0;
      while j < |table|
        invariant 0 <= j <= |table|
        invariant r == before + FeedsFor(topics[i].0, table[..j])
      {
        assert table[..j + 1][..j] == table[..j];
        if IsSubstring(table[j].0, lower) {
          r := r + table[j].1;
        }
        j := j + 1;
      }
      assert table[..j] == table;
      assert topics[..i + 1][..i] == topics[..i];
      i := i + 1;
    }
    assert topics[..i] == topics;
  }

  /** The urls of some suggestions. */
  function Urls(s: seq<Suggestion>): set<string>
  {
    set x | x in s :: x.url
  }

  /** The suggestions with repeated urls dropped, keeping the first. */
  function UniqueByUrl(s: seq<Suggestion>): seq<Suggestion>
  {
    if s == [] then []
    else
      var init := UniqueByUrl(s[..|s| - 1]);
      if s[|s| - 1].url in Urls(init) then init else init + [s[|s| - 1]]
  }

  /** Dropping repeats keeps only suggestions of `s`, loses no url, and
      leaves each url once. */
  lemma {:induction false} UniqueByUrlSpec(s: seq<Suggestion>)
    ensures forall x :: x in UniqueByUrl(s) ==> x in s
    ensures Urls(UniqueByUrl(s)) == Urls(s)
    ensures forall i, j :: 0 <= i < j < |UniqueByUrl(s)| ==> UniqueByUrl(s)[i].url != UniqueByUrl(s)[j].url
  {
    if s != [] {
      var pre := s[..|s| - 1];
      var last := s[|s| - 1];
      var init := UniqueByUrl(pre);
      UniqueByUrlSpec(pre);
      assert s == pre + [last];
      assert Urls(s) == Urls(pre) + {last.url};
      if last.url !in Urls(init) {
        var r := init + [last];
        assert Urls(r) == Urls(init) + {last.url};
        forall i | 0 <= i < |init| ensures r[i].url != last.url {
          assert r[i] in init;
        }
      }
    }
  }

  /** A kept suggestion is the first one with its url. */
  lemma {:induction false} UniqueByUrlFirst(s: seq<Suggestion>, i: nat)
    requires i < |UniqueByUrl(s)|
    ensures exists k :: 0 <= k < |s| && s[k] == UniqueByUrl(s)[i] && s[k].url !in Urls(s[..k])
  {
    var pre := s[..|s| - 1];
    var init := UniqueByUrl(pre);
    if i < |init| {
      UniqueByUrlFirst(pre, i);
      var k :| 0 <= k < |pre| && pre[k] == init[i] && pre[k].url !in Urls(pre[..k]);
      assert pre[..k] == s[..k];
    } else {
      UniqueByUrlSpec(pre);
      assert s[..|s| - 1] == pre;
    }
  }

  /** The `seen`-set loop of `suggest_new_sources_tool`. */
  method DedupByUrl(s: seq<Suggestion>) returns (r: seq<Suggestion>)
    ensures r == UniqueByUrl(s)
  {
    r := [];
    var seen: set<string> := {};
    var i := 0;
    while i < |s|
      invariant 0 <= i <= |s|
      invariant r == UniqueByUrl(s[..i])
      invariant seen == Urls(r)
    {
      assert s[..i + 1][..i] == s[..i];
      if s[i].url !in seen {
        assert Urls(r + [s[i]]) == Urls(r) + {s[i].url};
        seen := seen + {s[i].url};
        r := r + [s[i]];
      }
      i := i + 1;
    }
    assert s[..i] == s;
  }

  /** `suggest_new_sources_tool`: the feeds for the three heaviest topics,
      each url once, at most five; and the topics they were based on. It
      only reads the store. */
  method SuggestNewSources(db: Database) returns (suggestions: seq<Suggestion>, basedOn: seq<string>)
    ensures var top := PyTake(GetTopTopics(db.profile, 5), 3);
      && suggestions == PyTake(UniqueByUrl(Candidates(top, SuggestionTable)), 5)
      && basedOn == seq(|top|, i requires 0 <= i < |top| => top[i].0)
  {
    var top := PyTake(GetTopTopics(db.profile, 5), 3);
    var candidates := CollectSuggestions(top, SuggestionTable);
    var unique := DedupByUrl(candidates);
    suggestions := PyTake(unique, 5);
    basedOn := seq(|top|, i requires 0 <= i < |top| => top[i].0);
  }

  /** At most five suggestions with pairwise different urls, each a feed of
      a table key contained in one of the top topics, and each the first
      candidate with its url. */
  lemma SuggestionsSpec(profile: seq<ProfileTopic>)
    ensures var top := PyTake(GetTopTopics(profile, 5), 3);
      var r := PyTake(UniqueByUrl(Candidates(top, SuggestionTable)), 5);
      && |top| <= 3
      && |r| <= 5
      && (forall i, j :: 0 <= i < j < |r| ==> r[i].url != r[j].url)
      && (forall x :: x in r ==> x in Candidates(top, SuggestionTable))
      && (forall i :: 0 <= i < |r| ==>
            exists k :: 0 <= k < |Candidates(top, SuggestionTable)|
              && Candidates(top, SuggestionTable)[k] == r[i]
              && r[i].url !in Urls(Candidates(top, SuggestionTable)[..k]))
  {
    var top := PyTake(GetTopTopics(profile, 5), 3);
    var u := UniqueByUrl(Candidates(top, SuggestionTable));
    var r: seq<Suggestion> := PyTake(u, 5);
    UniqueByUrlSpec(Candidates(top, SuggestionTable));
    assert r <= u;
    forall i, j | 0 <= i < j < |r| ensures r[i].url != r[j].url {
      assert r[i] == u[i] && r[j] == u[j];
    }
    forall x | x in r ensures x in u {
      var i :| 0 <= i < |r| && r[i] == x;
      assert u[i] == x;
    }
    forall i | 0 <= i < |r|
      ensures exists k :: (0 <= k < |Candidates(top, SuggestionTable)|
                && Candidates(top, SuggestionTable)[k] == r[i]
                && r[i].url !in Urls(Candidates(top, SuggestionTable)[..k]))
    {
      assert r[i] == u[i];
      UniqueByUrlFirst(Candidates(top, SuggestionTable), i);
    }
  }

  /** Every candidate comes from a table key found in one of the topics. */
  lemma {:induction false} CandidatesFromTopics(topics: seq<(string, real)>, table: seq<(string, seq<Suggestion>)>)
    ensures forall s :: s in Candidates(topics, table) ==>
      exists t, k :: t in topics && 0 <= k < |table| && IsSubstring(table[k].0, PyLower(t.0)) && s in table[k].1
  {
    if topics != [] {
      var init := topics[..|topics| - 1];
      var last := topics[|topics| - 1];
      CandidatesFromTopics(init, table);
      forall s | s in Candidates(topics, table)
        ensures exists t, k :: t in topics && 0 <= k < |table| && IsSubstring(table[k].0, PyLower(t.0)) && s in table[k].1
      {
        if s in Candidates(init, table) {
          var t, k :| t in init && 0 <= k < |table| && IsSubstring(table[k].0, PyLower(t.0)) && s in table[k].1;
          assert t in topics;
        } else {
          assert s in FeedsFor(last.0, table);
          assert last in topics;
        }
      }
    }
  }
}
