/** The three tables of the store (articles, feedback, reader_profile) and
    the constraints the schema puts on them. The store is held in memory: a
    table is a sequence of rows in insertion (rowid) order. */
module Schema {

  import opened Common

  datatype Article = Article(
    id: int,
    url: string,
    title: string,
    content: Option<string>,
    summary: Option<string>,
    deepAnalysis: Option<string>,
    sourceName: string,
    published: Option<Timestamp>,
    fetched: Timestamp,
    relevance: Option<real>,
    isRead: bool)

  datatype Feedback = Feedback(
    id: int,
    articleId: int,
    rating: int,
    note: Option<string>,
    createdAt: Timestamp)

  /** The `source` column of a profile topic: who set its weight. */
  datatype Provenance = Explicit | Learned | AgentUpdated

  datatype ProfileTopic = ProfileTopic(
    topic: string,
    weight: real,
    source: Provenance,
    sampleCount: nat,
    lastUpdated: Timestamp)

  /** `url TEXT UNIQUE NOT NULL`. */
  ghost predicate UrlsUnique(articles: seq<Article>)
  {
    forall i, j :: 0 <= i < j < |articles| ==> articles[i].url != articles[j].url
  }

  ghost predicate ArticleIdsBelow(articles: seq<Article>, next: int)
  {
    (forall i :: 0 <= i < |articles| ==> articles[i].id < next)
    && (forall i, j :: 0 <= i < j < |articles| ==> articles[i].id < articles[j].id)
  }

  /** `rating INTEGER NOT NULL CHECK(rating >= 1 AND rating <= 5)`. */
  predicate ValidRating(rating: int)
  {
    1 <= rating <= 5
  }

  ghost predicate FeedbackValid(feedback: seq<Feedback>, next: int)
  {
    (forall i :: 0 <= i < |feedback| ==> ValidRating(feedback[i].rating) && feedback[i].id < next)
    && (forall i, j :: 0 <= i < j < |feedback| ==> feedback[i].id < feedback[j].id)
  }

  /** `topic TEXT PRIMARY KEY`, and every weight written through the clamp. */
  ghost predicate ProfileValid(profile: seq<ProfileTopic>)
  {
    (forall i, j :: 0 <= i < j < |profile| ==> profile[i].topic != profile[j].topic)
    && (forall i :: 0 <= i < |profile| ==> 0.0 <= profile[i].weight <= 1.0)
  }

  /** The store shared by the article, feedback and profile managers. */
  class Database {
    var articles: seq<Article>
    var feedback: seq<Feedback>
    var profile: seq<ProfileTopic>
    // the next AUTOINCREMENT values
    var nextArticleId: int
    var nextFeedbackId: int

    ghost predicate Valid()
      reads this
    {
      && UrlsUnique(articles)
      && ArticleIdsBelow(articles, nextArticleId)
      && FeedbackValid(feedback, nextFeedbackId)
      && ProfileValid(profile)
    }

    /** A fresh database file: the schema with empty tables. */
    constructor ()
      ensures Valid()
      ensures articles == [] && feedback == [] && profile == []
    {
      articles, feedback, profile := [], [], [];
      nextArticleId, nextFeedbackId := 1, 1;
    }
  }
}
