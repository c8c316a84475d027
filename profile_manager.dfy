/** The reader profile: weighted topics with their provenance, the clamped
    upsert every write goes through, keyword matching of topics against an
    article's text, and learning from a rating. */
module ProfileManager {

  import opened Common
  import opened Schema
  import opened Sorting
  import opened Text
  import opened ArticleManager

  /** The position of `topic` in the table, or its length. */
  function IndexOfTopic(profile: seq<ProfileTopic>, topic: string): (i: nat)
    ensures i <= |profile|
    ensures i < |profile| ==> profile[i].topic == topic
    ensures forall k :: 0 <= k < i ==> profile[k].topic != topic
  {
    if profile == [] then 0
    else if profile[0].topic == topic then 0
    else 1 + IndexOfTopic(profile[1..], topic)
  }

  predicate HasTopic(profile: seq<ProfileTopic>, topic: string)
  {
    exists k :: 0 <= k < |profile| && profile[k].topic == topic
  }

  /** `SELECT ... WHERE topic = ?`. */
  function Lookup(profile: seq<ProfileTopic>, topic: string): (r: Option<ProfileTopic>)
    ensures r.Some? <==> HasTopic(profile, topic)
    ensures r.Some? ==> r.value in profile && r.value.topic == topic
  {
    var i := IndexOfTopic(profile, topic);
    if i < |profile| then Some(profile[i]) else None
  }

  /** The stored weight of a topic; an absent topic counts at the base
      weight 0.5 that a new topic starts from. */
  function WeightOf(profile: seq<ProfileTopic>, topic: string): real
  {
    match Lookup(profile, topic)
    case None => 0.5
    case Some(t) => t.weight
  }

  /** A row after an update of an existing topic. */
  function Bumped(t: ProfileTopic, weight: real, now: Timestamp): ProfileTopic
  {
    t.(weight := Clamp(weight), sampleCount := t.sampleCount + 1, lastUpdated := now)
  }

  /** `INSERT ... ON CONFLICT(topic) DO UPDATE`: the weight is clamped to
      [0, 1]; a new topic is appended with one sample and the given
      provenance; an existing one gets the weight, one more sample and the
      time, and keeps its provenance. */
  function Upsert(profile: seq<ProfileTopic>, topic: string, weight: real, source: Provenance, now: Timestamp)
    : (r: seq<ProfileTopic>)
    ensures HasTopic(r, topic)
    ensures !HasTopic(profile, topic) ==> r == profile + [ProfileTopic(topic, Clamp(weight), source, 1, now)]
    ensures HasTopic(profile, topic) ==> |r| == |profile|
    ensures ProfileValid(profile) && HasTopic(profile, topic) ==>
      forall k :: 0 <= k < |r| ==>
        r[k] == (if profile[k].topic == topic then Bumped(profile[k], weight, now) else profile[k])
    ensures ProfileValid(profile) ==> ProfileValid(r)
  {
    var i := IndexOfTopic(profile, topic);
    if i == |profile| then
      var r := profile + [ProfileTopic(topic, Clamp(weight), source, 1, now)];
      assert r[|profile|].topic == topic;
      r
    else
      var r := profile[i := Bumped(profile[i], weight, now)];
      assert r[i].topic == topic;
      r
  }

  /** `update_topic`: always reports success. */
  method UpdateTopic(db: Database, topic: string, weight: real, source: Provenance, now: Timestamp) returns (ok: bool)
    requires db.Valid()
    modifies db
    ensures db.Valid()
    ensures ok
    ensures db.profile == Upsert(old(db.profile), topic, weight, source, now)
    ensures db.articles == old(db.articles) && db.feedback == old(db.feedback)
    ensures db.nextArticleId == old(db.nextArticleId) && db.nextFeedbackId == old(db.nextFeedbackId)
  {
    db.profile := Upsert(db.profile, topic, weight, source, now);
    ok := true;
  }

  /** After an upsert the topic holds the clamped weight; its sample count
      is one for a new topic and one more otherwise. */
  lemma UpsertThenLookup(profile: seq<ProfileTopic>, topic: string, weight: real, source: Provenance, now: Timestamp)
    requires ProfileValid(profile)
    ensures var t := Lookup(Upsert(profile, topic, weight, source, now), topic);
      && t.Some?
      && t.value.weight == Clamp(weight) && 0.0 <= t.value.weight <= 1.0
      && t.value.lastUpdated == now
      && t.value.sampleCount == (if HasTopic(profile, topic) then Lookup(profile, topic).value.sampleCount + 1 else 1)
      && t.value.source == (if HasTopic(profile, topic) then Lookup(profile, topic).value.source else source)
  {
    var r := Upsert(profile, topic, weight, source, now);
    var t := Lookup(r, topic).value;
    var k := IndexOfTopic(r, topic);
    if HasTopic(profile, topic) {
      var j := IndexOfTopic(profile, topic);
      assert profile[k].topic == topic;
      assert k == j;
    } else {
      assert r[|profile|].topic == topic;
      assert k == |profile|;
    }
  }

  /** What `adjust_topic_weight` returns: for a new topic the unclamped
      `0.5 + delta`, otherwise the clamped new weight. */
  function AdjustedWeight(profile: seq<ProfileTopic>, topic: string, delta: real): real
  {
    match Lookup(profile, topic)
    case None => 0.5 + delta
    case Some(t) => Clamp(t.weight + delta)
  }

  /** `adjust_topic_weight`: a new topic is created as learned from the base
      weight 0.5; an existing one moves by `delta` within [0, 1] and keeps
      its provenance. */
  method AdjustTopicWeight(db: Database, topic: string, delta: real, now: Timestamp) returns (w: real)
    requires db.Valid()
    modifies db
    ensures db.Valid()
    ensures w == AdjustedWeight(old(db.profile), topic, delta)
    ensures db.profile == Upsert(old(db.profile), topic, w,
                                 if HasTopic(old(db.profile), topic) then Lookup(old(db.profile), topic).value.source else Learned,
                                 now)
    ensures db.articles == old(db.articles) && db.feedback == old(db.feedback)
    ensures db.nextArticleId == old(db.nextArticleId) && db.nextFeedbackId == old(db.nextFeedbackId)
  {
    var current := Lookup(db.profile, topic);
    if current.None? {
      w := 0.5 + delta;
      var _ := UpdateTopic(db, topic, w, Learned, now);
    } else {
      w := Clamp(current.value.weight + delta);
      var _ := UpdateTopic(db, topic, w, current.value.source, now);
    }
  }

  /** The returned weight is the stored one for an existing topic; for a new
      topic it is the stored one only inside [0, 1]: with delta 0.6 the call
      returns 1.1 and stores 1.0. */
  lemma AdjustedWeightVersusStored(profile: seq<ProfileTopic>, topic: string, delta: real, now: Timestamp)
    requires ProfileValid(profile)
    ensures var stored := Lookup(Upsert(profile, topic, AdjustedWeight(profile, topic, delta), Learned, now), topic).value.weight;
      && stored == Clamp(AdjustedWeight(profile, topic, delta))
      && (HasTopic(profile, topic) ==> stored == AdjustedWeight(profile, topic, delta))
      && (!HasTopic(profile, topic) ==> (stored == AdjustedWeight(profile, topic, delta) <==> -0.5 <= delta <= 0.5))
  {
    UpsertThenLookup(profile, topic, AdjustedWeight(profile, topic, delta), Learned, now);
  }

  lemma AdjustNewTopicReturnsUnclamped()
    ensures AdjustedWeight([], "ai", 0.6) == 1.1
    ensures Lookup(Upsert([], "ai", 1.1, Learned, 0), "ai") == Some(ProfileTopic("ai", 1.0, Learned, 1, 0))
  {
    assert Upsert([], "ai", 1.1, Learned, 0) == [ProfileTopic("ai", 1.0, Learned, 1, 0)];
  }

  /** Deleting rows keeps topics unique and weights in range. */
  lemma FilterKeepsProfileValid(profile: seq<ProfileTopic>, p: ProfileTopic -> bool)
    requires ProfileValid(profile)
    ensures ProfileValid(Filter(profile, p))
  {
    FilterDistinct(profile, p, (t: ProfileTopic) => t.topic);
    var r := Filter(profile, p);
    forall i | 0 <= i < |r| ensures 0.0 <= r[i].weight <= 1.0 {
      assert r[i] in profile;
    }
  }

  /** `DELETE FROM reader_profile WHERE topic = ?`: true iff a row was
      deleted; every other topic is kept as it was. */
  method RemoveTopic(db: Database, topic: string) returns (removed: bool)
    requires db.Valid()
    modifies db
    ensures db.Valid()
    ensures removed <==> HasTopic(old(db.profile), topic)
    ensures db.profile == Filter(old(db.profile), (t: ProfileTopic) => t.topic != topic)
    ensures !HasTopic(db.profile, topic)
    ensures db.articles == old(db.articles) && db.feedback == old(db.feedback)
    ensures db.nextArticleId == old(db.nextArticleId) && db.nextFeedbackId == old(db.nextFeedbackId)
  {
    removed := Lookup(db.profile, topic).Some?;
    FilterKeepsProfileValid(db.profile, (t: ProfileTopic) => t.topic != topic);
    db.profile := Filter(db.profile, (t: ProfileTopic) => t.topic != topic);
    forall k | 0 <= k < |db.profile| ensures db.profile[k].topic != topic {
      assert db.profile[k] in db.profile;
    }
  }

  function HeavierOrSame(): (ProfileTopic, ProfileTopic) -> bool
  {
    (a: ProfileTopic, b: ProfileTopic) => a.weight >= b.weight
  }

  /** `get_profile`: every topic, heaviest first. */
  function GetProfile(profile: seq<ProfileTopic>): seq<ProfileTopic>
  {
    SortBy(profile, HeavierOrSame())
  }

  lemma GetProfileSpec(profile: seq<ProfileTopic>)
    ensures multiset(GetProfile(profile)) == multiset(profile)
    ensures forall i, j :: 0 <= i < j < |GetProfile(profile)| ==> GetProfile(profile)[i].weight >= GetProfile(profile)[j].weight
    ensures ProfileValid(profile) ==> ProfileValid(GetProfile(profile))
  {
    assert Total(HeavierOrSame()) && Transitive(HeavierOrSame());
    SortBySorted(profile, HeavierOrSame());
    if ProfileValid(profile) {
      var r := GetProfile(profile);
      SortByDistinct(profile, HeavierOrSame(), (t: ProfileTopic) => t.topic);
      forall i | 0 <= i < |r| ensures 0.0 <= r[i].weight <= 1.0 {
        SortByMembers(profile, HeavierOrSame(), r[i]);
      }
    }
  }

  function Pairs(ts: seq<ProfileTopic>): (ps: seq<(string, real)>)
    ensures |ps| == |ts|
    ensures forall i :: 0 <= i < |ts| ==> ps[i] == (ts[i].topic, ts[i].weight)
  {
    seq(|ts|, i requires 0 <= i < |ts| => (ts[i].topic, ts[i].weight))
  }

  /** `get_top_topics(limit)`: the first `limit` (topic, weight) pairs of the
      heaviest-first profile, with Python's slice meaning of a negative
      limit. */
  function GetTopTopics(profile: seq<ProfileTopic>, limit: int): seq<(string, real)>
  {
    Pairs(PyTake(GetProfile(profile), limit))
  }

  /** The pairs are stored topics, heaviest first, `limit` of them (all
      when fewer exist); no topic left out is heavier than a listed one, and
      no topic is listed twice. */
  lemma GetTopTopicsSpec(profile: seq<ProfileTopic>, limit: int)
    ensures var r := GetTopTopics(profile, limit);
      && (limit >= 0 ==> |r| == Min(limit, |profile|))
      && (forall i, j :: 0 <= i < j < |r| ==> r[i].1 >= r[j].1)
      && (forall i :: 0 <= i < |r| ==> exists t :: t in profile && r[i] == (t.topic, t.weight))
      && (forall t :: t in profile && (t.topic, t.weight) !in r ==> forall i :: 0 <= i < |r| ==> r[i].1 >= t.weight)
      && (ProfileValid(profile) ==> forall i, j :: 0 <= i < j < |r| ==> r[i].0 != r[j].0)
  {
    GetProfileSpec(profile);
    var sorted := GetProfile(profile);
    var r := GetTopTopics(profile, limit);
    var taken := PyTake(sorted, limit);
    forall i | 0 <= i < |r| ensures exists t :: t in profile && r[i] == (t.topic, t.weight) {
      assert taken[i] == sorted[i];
      SortByMembers(profile, HeavierOrSame(), sorted[i]);
    }
    forall i, j | 0 <= i < j < |r| ensures r[i].1 >= r[j].1 {
      assert taken[i] == sorted[i] && taken[j] == sorted[j];
    }
    forall t | t in profile ensures (t.topic, t.weight) in r || forall i :: 0 <= i < |r| ==> r[i].1 >= t.weight {
      TopTopicLeftOut(profile, limit, t);
    }
    if ProfileValid(profile) {
      forall i, j | 0 <= i < j < |r| ensures r[i].0 != r[j].0 {
        assert taken[i] == sorted[i] && taken[j] == sorted[j];
      }
    }
  }

  /** A stored topic is listed by `get_top_topics` or weighs no more than
      every listed one. */
  lemma TopTopicLeftOut(profile: seq<ProfileTopic>, limit: int, t: ProfileTopic)
    requires t in profile
    ensures var r := GetTopTopics(profile, limit);
      (t.topic, t.weight) in r || forall i :: 0 <= i < |r| ==> r[i].1 >= t.weight
  {
    GetProfileSpec(profile);
    var sorted := GetProfile(profile);
    var r := GetTopTopics(profile, limit);
    var n := |PyTake(sorted, limit)|;
    assert PyTake(sorted, limit) == sorted[..n];
    SortByMembers(profile, HeavierOrSame(), t);
    LeftOutComesAfter(sorted, HeavierOrSame(), n, t);
    if t in sorted[..n] {
      var i :| 0 <= i < n && sorted[..n][i] == t;
      assert r[i] == (t.topic, t.weight);
    } else {
      forall i | 0 <= i < |r| ensures r[i].1 >= t.weight {
        assert HeavierOrSame()(sorted[i], t);
      }
    }
  }

  /** The stop words dropped from a topic's name. */
  const StopWords: set<string> := {"och", "eller", "med", "för", "av", "på", "i", "samt", "en", "ett", "den", "det", "om"}

  predicate IsKeyword(w: string)
  {
    w !in StopWords && |w| > 2
  }

  /** The keywords of a topic: the whitespace-separated words of its
      lower-cased name, without stop words and words of two characters or
      fewer. A hyphenated name stays one word. */
  function Keywords(topic: string): (ks: seq<string>)
    ensures forall k :: k in ks ==> k !in StopWords && |k| > 2 && k in Words(PyLower(topic))
    ensures forall w :: w in Words(PyLower(topic)) && w !in StopWords && |w| > 2 ==> w in ks
  {
    Filter(Words(PyLower(topic)), IsKeyword)
  }

  /** The lower-cased text topics are matched against. */
  function FullText(text: string, title: string): string
  {
    PyLower(title + " " + text)
  }

  predicate TopicMatches(topic: string, fullText: string)
  {
    exists k :: k in Keywords(topic) && IsSubstring(k, fullText)
  }

  /** The names of the rows of `ordered` that match `full`, in order. */
  function MatchingTopics(ordered: seq<ProfileTopic>, full: string): (r: seq<string>)
    ensures |r| <= |ordered|
  {
    if ordered == [] then []
    else
      var init := MatchingTopics(ordered[..|ordered| - 1], full);
      var last := ordered[|ordered| - 1];
      if TopicMatches(last.topic, full) then init + [last.topic] else init
  }

  /** The matching names, each once when the rows' names are distinct. */
  lemma MatchingTopicsSpec(ordered: seq<ProfileTopic>, full: string)
    requires DistinctBy(ordered, (t: ProfileTopic) => t.topic)
    ensures var r := MatchingTopics(ordered, full);
      && (forall t :: t in r <==> (exists x :: x in ordered && x.topic == t) && TopicMatches(t, full))
      && (forall i, j :: 0 <= i < j < |r| ==> r[i] != r[j])
  {
    MatchingTopicsMembers(ordered, full);
    MatchingTopicsDistinct(ordered, full);
  }

  lemma {:induction false} MatchingTopicsMembers(ordered: seq<ProfileTopic>, full: string)
    ensures forall t :: t in MatchingTopics(ordered, full) <==>
      (exists x :: x in ordered && x.topic == t) && TopicMatches(t, full)
  {
    if ordered != [] {
      var init := ordered[..|ordered| - 1];
      MatchingTopicsMembers(init, full);
      assert forall x :: x in ordered <==> x in init || x == ordered[|ordered| - 1];
    }
  }

  lemma {:induction false} MatchingTopicsDistinct(ordered: seq<ProfileTopic>, full: string)
    requires DistinctBy(ordered, (t: ProfileTopic) => t.topic)
    ensures var r := MatchingTopics(ordered, full);
      forall i, j :: 0 <= i < j < |r| ==> r[i] != r[j]
  {
    if ordered != [] {
      var init := ordered[..|ordered| - 1];
      var last := ordered[|ordered| - 1];
      LastTopicFresh(ordered);
      MatchingTopicsDistinct(init, full);
      MatchingTopicsMembers(init, full);
      assert last.topic !in MatchingTopics(init, full);
      if TopicMatches(last.topic, full) {
        SnocDistinct(MatchingTopics(init, full), last.topic);
      }
    }
  }

  /** The last row's name is not among the others, which stay distinct. */
  lemma LastTopicFresh(ordered: seq<ProfileTopic>)
    requires ordered != [] && DistinctBy(ordered, (t: ProfileTopic) => t.topic)
    ensures var init := ordered[..|ordered| - 1];
      && DistinctBy(init, (t: ProfileTopic) => t.topic)
      && forall x :: x in init ==> x.topic != ordered[|ordered| - 1].topic
  {
    var init := ordered[..|ordered| - 1];
    forall i, j | 0 <= i < j < |init| ensures init[i].topic != init[j].topic {
      assert init[i] == ordered[i] && init[j] == ordered[j];
    }
    forall x | x in init ensures x.topic != ordered[|ordered| - 1].topic {
      var k :| 0 <= k < |init| && init[k] == x;
      assert ordered[k].topic != ordered[|ordered| - 1].topic;
    }
  }

  lemma SnocDistinct(r: seq<string>, t: string)
    requires forall i, j :: 0 <= i < j < |r| ==> r[i] != r[j]
    requires t !in r
    ensures forall i, j :: 0 <= i < j < |r + [t]| ==> (r + [t])[i] != (r + [t])[j]
  {
  }

  /** `extract_topics_from_text`: the profile topics, heaviest first, with a
      keyword occurring in the lower-cased title and text. */
  function ExtractTopics(profile: seq<ProfileTopic>, text: string, title: string): seq<string>
  {
    MatchingTopics(GetProfile(profile), FullText(text, title))
  }

  lemma ExtractTopicsSpec(profile: seq<ProfileTopic>, text: string, title: string)
    requires ProfileValid(profile)
    ensures var r := ExtractTopics(profile, text, title);
      && (forall t :: t in r <==> HasTopic(profile, t) && TopicMatches(t, FullText(text, title)))
      && (forall i, j :: 0 <= i < j < |r| ==> r[i] != r[j])
  {
    var full := FullText(text, title);
    GetProfileSpec(profile);
    var sorted := GetProfile(profile);
    MatchingTopicsSpec(sorted, full);
    forall t ensures (exists x :: x in sorted && x.topic == t) <==> HasTopic(profile, t) {
      if exists x :: x in sorted && x.topic == t {
        var x :| x in sorted && x.topic == t;
        SortByMembers(profile, HeavierOrSame(), x);
        var k :| 0 <= k < |profile| && profile[k] == x;
      }
      if HasTopic(profile, t) {
        var k :| 0 <= k < |profile| && profile[k].topic == t;
        SortByMembers(profile, HeavierOrSame(), profile[k]);
      }
    }
  }

  /** A topic whose name yields no keyword never matches. */
  lemma NoKeywordsNeverMatch(topic: string, fullText: string)
    requires forall w :: w in Words(PyLower(topic)) ==> w in StopWords || |w| <= 2
    ensures !TopicMatches(topic, fullText)
  {
    if Keywords(topic) != [] {
      assert Keywords(topic)[0] in Keywords(topic);
    }
  }

  /** `delta_map.get(rating, 0.0)`. */
  function RatingDelta(rating: int): (d: real)
    ensures -0.1 <= d <= 0.1
    ensures d > 0.0 <==> rating == 4 || rating == 5
    ensures d < 0.0 <==> rating == 1 || rating == 2
  {
    if rating == 5 then 0.1
    else if rating == 4 then 0.05
    else if rating == 3 then 0.0
    else if rating == 2 then -0.05
    else if rating == 1 then -0.1
    else 0.0
  }

  /** The text of an article as the f-string sees it: a NULL content reads
      "None". */
  function ContentText(a: Article): string
  {
    if a.content.None? then "None" else a.content.value
  }

  /** The topics learning touches: those matched by the article's title and
      content, none when the article is missing. */
  function LearningTopics(profile: seq<ProfileTopic>, articles: seq<Article>, articleId: int): seq<string>
  {
    match GetArticle(articles, articleId)
    case None => []
    case Some(a) => ExtractTopics(profile, ContentText(a), a.title)
  }

  /** The table after learning has moved the topics of `done` by `delta`. */
  ghost predicate LearnedSoFar(p0: seq<ProfileTopic>, cur: seq<ProfileTopic>, done: seq<string>, delta: real, now: Timestamp)
  {
    && |cur| == |p0|
    && forall k :: 0 <= k < |p0| ==>
         cur[k] == (if p0[k].topic in done then Bumped(p0[k], p0[k].weight + delta, now) else p0[k])
  }

  /** In a valid table a topic sits at one position only. */
  lemma IndexOfUnique(profile: seq<ProfileTopic>, topic: string, k: nat)
    requires ProfileValid(profile)
    requires k < |profile| && profile[k].topic == topic
    ensures IndexOfTopic(profile, topic) == k
    ensures Lookup(profile, topic) == Some(profile[k])
  {
  }

  /** A topic later in a list of pairwise different topics is not among the
      earlier ones. */
  lemma NotYetDone(topics: seq<string>, i: nat)
    requires i < |topics|
    requires forall a, b :: 0 <= a < b < |topics| ==> topics[a] != topics[b]
    ensures topics[i] !in topics[..i]
  {
    forall a | 0 <= a < i ensures topics[..i][a] != topics[i] {
      assert topics[..i][a] == topics[a];
    }
  }

  /** One turn of the learning loop: the next topic is still at its initial
      weight, and adjusting it extends what has been learned by that topic. */
  lemma LearnStep(p0: seq<ProfileTopic>, cur: seq<ProfileTopic>, topics: seq<string>, i: nat, delta: real, now: Timestamp)
    requires ProfileValid(p0) && ProfileValid(cur)
    requires i < |topics|
    requires forall a, b :: 0 <= a < b < |topics| ==> topics[a] != topics[b]
    requires HasTopic(p0, topics[i])
    requires LearnedSoFar(p0, cur, topics[..i], delta, now)
    ensures HasTopic(cur, topics[i])
    ensures AdjustedWeight(cur, topics[i], delta) == Clamp(WeightOf(p0, topics[i]) + delta)
    ensures LearnedSoFar(p0, Upsert(cur, topics[i], AdjustedWeight(cur, topics[i], delta), Lookup(cur, topics[i]).value.source, now),
                         topics[..i + 1], delta, now)
  {
    var t := topics[i];
    var k :| 0 <= k < |p0| && p0[k].topic == t;
    NotYetDone(topics, i);
    LearnStepAt(p0, cur, topics[..i], t, k, delta, now);
    assert Lookup(cur, t).value.source == cur[k].source;
    LearnStepRows(p0, cur, topics[..i], t, k, delta, now);
    TakeSnoc(topics, i);
  }

  /** A topic not yet learned still has its original row, at the same place. */
  lemma LearnStepAt(p0: seq<ProfileTopic>, cur: seq<ProfileTopic>, done: seq<string>, t: string, k: nat,
                    delta: real, now: Timestamp)
    requires ProfileValid(p0) && ProfileValid(cur)
    requires k < |p0| && p0[k].topic == t && t !in done
    requires LearnedSoFar(p0, cur, done, delta, now)
    ensures HasTopic(cur, t) && Lookup(cur, t) == Some(cur[k]) && cur[k] == p0[k]
    ensures WeightOf(p0, t) == p0[k].weight
    ensures AdjustedWeight(cur, t, delta) == Clamp(p0[k].weight + delta)
  {
    assert cur[k] == p0[k];
    IndexOfUnique(p0, t, k);
    IndexOfUnique(cur, t, k);
  }

  /** The rows after the learning write of topic `t`, which sits at `k`. */
  lemma LearnStepRows(p0: seq<ProfileTopic>, cur: seq<ProfileTopic>, done: seq<string>, t: string, k: nat,
                      delta: real, now: Timestamp)
    requires ProfileValid(p0) && ProfileValid(cur)
    requires k < |p0| && p0[k].topic == t && t !in done
    requires LearnedSoFar(p0, cur, done, delta, now)
    ensures LearnedSoFar(p0, Upsert(cur, t, Clamp(p0[k].weight + delta), cur[k].source, now), done + [t], delta, now)
  {
    var after := Upsert(cur, t, Clamp(p0[k].weight + delta), cur[k].source, now);
    assert HasTopic(cur, t) by { assert cur[k].topic == t; }
    forall m | 0 <= m < |p0|
      ensures after[m] == (if p0[m].topic in done + [t] then Bumped(p0[m], p0[m].weight + delta, now) else p0[m])
    {
      if m == k {
        assert after[m] == Bumped(p0[k], Clamp(p0[k].weight + delta), now);
      } else {
        assert p0[m].topic != t;
        assert cur[m].topic == p0[m].topic;
        assert after[m] == cur[m];
        assert p0[m].topic in done + [t] <==> p0[m].topic in done;
      }
    }
  }

  /** What learning reports: each topic with its new, clamped weight. */
  function LearnedWeights(p0: seq<ProfileTopic>, topics: seq<string>, delta: real): (r: seq<(string, real)>)
    ensures |r| == |topics|
    ensures forall j :: 0 <= j < |topics| ==> r[j] == (topics[j], Clamp(WeightOf(p0, topics[j]) + delta))
  {
    if topics == [] then []
    else
      var last := topics[|topics| - 1];
      LearnedWeights(p0, topics[..|topics| - 1], delta) + [(last, Clamp(WeightOf(p0, last) + delta))]
  }

  lemma LearnedWeightsSnoc(p0: seq<ProfileTopic>, topics: seq<string>, i: nat, delta: real)
    requires i < |topics|
    ensures LearnedWeights(p0, topics[..i + 1], delta)
         == LearnedWeights(p0, topics[..i], delta) + [(topics[i], Clamp(WeightOf(p0, topics[i]) + delta))]
  {
    assert topics[..i + 1][..i] == topics[..i];
  }

  /** `learn_from_feedback`: nothing when the article is missing or matches
      no topic; otherwise every matched topic moves by the rating's delta
      within [0, 1] (one more sample, provenance kept), and the result lists
      each (topic, new weight). */
  method LearnFromFeedback(db: Database, articleId: int, rating: int, now: Timestamp)
    returns (updates: Option<seq<(string, real)>>)
    requires db.Valid()
    modifies db
    ensures db.Valid()
    ensures var topics := LearningTopics(old(db.profile), old(db.articles), articleId);
      && (topics == [] ==> updates.None? && db.profile == old(db.profile))
      && (topics != [] ==> updates == Some(LearnedWeights(old(db.profile), topics, RatingDelta(rating))))
      && LearnedSoFar(old(db.profile), db.profile, topics, RatingDelta(rating), now)
    ensures db.articles == old(db.articles) && db.feedback == old(db.feedback)
    ensures db.nextArticleId == old(db.nextArticleId) && db.nextFeedbackId == old(db.nextFeedbackId)
  {
    var article := GetArticle(db.articles, articleId);
    if article.None? {
      return None;
    }
    var topics := ExtractTopics(db.profile, ContentText(article.value), article.value.title);
    if topics == [] {
      return None;
    }
    ExtractTopicsSpec(db.profile, ContentText(article.value), article.value.title);
    var acc := AdjustAll(db, topics, RatingDelta(rating), now);
    updates := Some(acc);
  }

  /** The loop of `learn_from_feedback`: each of the (pairwise different,
      stored) topics moves by `delta` in turn. */
  method AdjustAll(db: Database, topics: seq<string>, delta: real, now: Timestamp) returns (acc: seq<(string, real)>)
    requires db.Valid()
    requires forall a, b :: 0 <= a < b < |topics| ==> topics[a] != topics[b]
    requires forall t :: t in topics ==> HasTopic(db.profile, t)
    modifies db
    ensures db.Valid()
    ensures acc == LearnedWeights(old(db.profile), topics, delta)
    ensures LearnedSoFar(old(db.profile), db.profile, topics, delta, now)
    ensures db.articles == old(db.articles) && db.feedback == old(db.feedback)
    ensures db.nextArticleId == old(db.nextArticleId) && db.nextFeedbackId == old(db.nextFeedbackId)
  {
    ghost var p0 := db.profile;
    acc := [];
    var i := 0;
    while i < |topics|
      invariant 0 <= i <= |topics|
      invariant db.Valid()
      invariant db.articles == old(db.articles) && db.feedback == old(db.feedback)
      invariant db.nextArticleId == old(db.nextArticleId) && db.nextFeedbackId == old(db.nextFeedbackId)
      invariant LearnedSoFar(p0, db.profile, topics[..i], delta, now)
      invariant acc == LearnedWeights(p0, topics[..i], delta)
    {
      assert topics[i] in topics;
      LearnStep(p0, db.profile, topics, i, delta, now);
      var w := AdjustTopicWeight(db, topics[i], delta, now);
      LearnedWeightsSnoc(p0, topics, i, delta);
      acc := acc + [(topics[i], w)];
      i := i + 1;
    }
    assert topics[..i] == topics;
  }

  /** The priority → weight rule of the default seeding. */
  function PriorityWeight(topic: string, high: seq<string>, medium: seq<string>, low: seq<string>): (w: real)
    ensures w in {0.8, 0.6, 0.5, 0.7}
    ensures topic in high ==> w == 0.8
    ensures topic !in high && topic in medium ==> w == 0.6
    ensures topic !in high && topic !in medium && topic in low ==> w == 0.5
    ensures topic !in high && topic !in medium && topic !in low ==> w == 0.7
  {
    if topic in high then 0.8
    else if topic in medium then 0.6
    else if topic in low then 0.5
    else 0.7
  }

  /** The table after seeding the topics of `done`. */
  ghost predicate Seeded(profile: seq<ProfileTopic>, done: seq<string>, high: seq<string>, medium: seq<string>, low: seq<string>)
  {
    && (forall t :: t in done ==>
          Lookup(profile, t).Some? && Lookup(profile, t).value.weight == PriorityWeight(t, high, medium, low))
    && (forall k :: 0 <= k < |profile| ==> profile[k].topic in done && profile[k].source == Explicit)
  }

  /** `_init_default_topics`: an empty profile is seeded with the configured
      topics as explicit interests weighted by priority; a non-empty one is
      left alone. The configuration is passed in (absent keys as empty). */
  method InitDefaultTopics(db: Database, topics: seq<string>, high: seq<string>, medium: seq<string>,
                           low: seq<string>, now: Timestamp)
    requires db.Valid()
    modifies db
    ensures db.Valid()
    ensures old(db.profile) != [] ==> db.profile == old(db.profile)
    ensures old(db.profile) == [] ==>
      && Seeded(db.profile, topics, high, medium, low)
      && forall t :: t in topics ==> Lookup(db.profile, t).value.source == Explicit
    ensures db.articles == old(db.articles) && db.feedback == old(db.feedback)
    ensures db.nextArticleId == old(db.nextArticleId) && db.nextFeedbackId == old(db.nextFeedbackId)
  {
    if db.profile != [] {
      return;
    }
    var i := 0;
    assert topics[..0] == [];
    while i < |topics|
      invariant 0 <= i <= |topics|
      invariant db.Valid()
      invariant db.articles == old(db.articles) && db.feedback == old(db.feedback)
      invariant db.nextArticleId == old(db.nextArticleId) && db.nextFeedbackId == old(db.nextFeedbackId)
      invariant Seeded(db.profile, topics[..i], high, medium, low)
    {
      PrefixSnoc([], topics, i);
      SeedOne(db, topics[..i], topics[i], high, medium, low, now);
      i := i + 1;
    }
    assert topics[..i] == topics;
    SeededExplicit(db.profile, topics, high, medium, low);
  }

  /** One seeding write: `update_topic(topic, weight, 'explicit')`. */
  method SeedOne(db: Database, ghost done: seq<string>, t: string, high: seq<string>, medium: seq<string>,
                 low: seq<string>, now: Timestamp)
    requires db.Valid() && Seeded(db.profile, done, high, medium, low)
    modifies db
    ensures db.Valid() && Seeded(db.profile, done + [t], high, medium, low)
    ensures db.articles == old(db.articles) && db.feedback == old(db.feedback)
    ensures db.nextArticleId == old(db.nextArticleId) && db.nextFeedbackId == old(db.nextFeedbackId)
  {
    SeedStep(db.profile, done, t, high, medium, low, now);
    var _ := UpdateTopic(db, t, PriorityWeight(t, high, medium, low), Explicit, now);
  }

  /** Every seeded topic is stored as an explicit interest. */
  lemma SeededExplicit(profile: seq<ProfileTopic>, done: seq<string>, high: seq<string>, medium: seq<string>,
                       low: seq<string>)
    requires Seeded(profile, done, high, medium, low)
    ensures forall t :: t in done ==> Lookup(profile, t).value.source == Explicit
  {
    forall t | t in done ensures Lookup(profile, t).value.source == Explicit {
      var k :| 0 <= k < |profile| && profile[k] == Lookup(profile, t).value;
    }
  }

  /** One seeding write keeps the table seeded, one topic further. */
  lemma SeedStep(before: seq<ProfileTopic>, done: seq<string>, t: string, high: seq<string>, medium: seq<string>,
                 low: seq<string>, now: Timestamp)
    requires ProfileValid(before) && Seeded(before, done, high, medium, low)
    ensures Seeded(Upsert(before, t, PriorityWeight(t, high, medium, low), Explicit, now), done + [t], high, medium, low)
  {
    var w := PriorityWeight(t, high, medium, low);
    var after := Upsert(before, t, w, Explicit, now);
    UpsertThenLookup(before, t, w, Explicit, now);
    forall u | u in done + [t] ensures Lookup(after, u).Some? && Lookup(after, u).value.weight == PriorityWeight(u, high, medium, low) {
      if u != t {
        LookupOtherTopic(before, t, w, Explicit, now, u);
      }
    }
    forall k | 0 <= k < |after| ensures after[k].topic in done + [t] && after[k].source == Explicit {
      if k < |before| && after[k] != Bumped(before[k], w, now) {
        assert after[k] == before[k];
      }
    }
  }

  /** An upsert of one topic, whatever its provenance, does not change the
      lookup of another. */
  lemma LookupOtherTopic(profile: seq<ProfileTopic>, t: string, w: real, source: Provenance, now: Timestamp, u: string)
    requires ProfileValid(profile) && u != t
    ensures Lookup(Upsert(profile, t, w, source, now), u) == Lookup(profile, u)
  {
    var r := Upsert(profile, t, w, source, now);
    var i := IndexOfTopic(profile, u);
    var j := IndexOfTopic(r, u);
    if HasTopic(profile, t) {
      assert forall k :: 0 <= k < |r| ==> r[k].topic == profile[k].topic;
      assert i == j;
    } else {
      assert r[..|profile|] == profile;
      if i < |profile| {
        assert j == i;
      } else {
        assert j == |r|;
      }
    }
  }

  /** The summary of `analyze_profile_evolution`; its `days` argument is
      not used by the source. */
  datatype Evolution = Evolution(
    totalTopics: nat,
    explicitCount: nat,
    learnedCount: nat,
    topTopics: seq<(string, real)>,
    emergingTopics: seq<(string, real)>)

  function AnalyzeProfileEvolution(profile: seq<ProfileTopic>): Evolution
  {
    var ordered := GetProfile(profile);
    Evolution(
      |ordered|,
      CountWhere(ordered, (t: ProfileTopic) => t.source == Explicit),
      CountWhere(ordered, (t: ProfileTopic) => t.source == Learned),
      GetTopTopics(profile, 5),
      Pairs(Filter(ordered, Emerging)))
  }

  lemma {:induction false} CountByProvenance(s: seq<ProfileTopic>)
    ensures CountWhere(s, (t: ProfileTopic) => t.source == Explicit)
          + CountWhere(s, (t: ProfileTopic) => t.source == Learned)
          + CountWhere(s, (t: ProfileTopic) => t.source == AgentUpdated) == |s|
  {
    if s != [] {
      CountByProvenance(s[..|s| - 1]);
    }
  }

  /** Explicit and learned topics are counted apart, agent-updated ones only
      in the total; the emerging topics are exactly the learned ones weighing
      at least 0.6, and at most five top topics are reported. */
  lemma EvolutionSpec(profile: seq<ProfileTopic>)
    ensures var e := AnalyzeProfileEvolution(profile);
      && e.totalTopics == |profile|
      && e.explicitCount + e.learnedCount
           + CountWhere(GetProfile(profile), (t: ProfileTopic) => t.source == AgentUpdated) == e.totalTopics
      && |e.topTopics| == Min(5, |profile|)
      && (forall p :: p in e.emergingTopics <==>
            exists t :: t in profile && t.source == Learned && t.weight >= 0.6 && p == (t.topic, t.weight))
  {
    CountByProvenance(GetProfile(profile));
    GetTopTopicsSpec(profile, 5);
    EmergingTopicsSpec(profile);
  }

  predicate Emerging(t: ProfileTopic)
  {
    t.source == Learned && t.weight >= 0.6
  }

  /** The emerging topics are the pairs of the learned topics weighing at
      least 0.6. */
  lemma EmergingTopicsSpec(profile: seq<ProfileTopic>)
    ensures forall q :: q in AnalyzeProfileEvolution(profile).emergingTopics <==>
      exists t :: t in profile && t.source == Learned && t.weight >= 0.6 && q == (t.topic, t.weight)
  {
    var kept := Filter(GetProfile(profile), Emerging);
    assert AnalyzeProfileEvolution(profile).emergingTopics == Pairs(kept);
    forall q ensures q in Pairs(kept) <==>
      exists t :: t in profile && t.source == Learned && t.weight >= 0.6 && q == (t.topic, t.weight)
    {
      if q in Pairs(kept) {
        var i :| 0 <= i < |kept| && Pairs(kept)[i] == q;
        EmergingFrom(profile, kept[i]);
      }
      if exists t :: t in profile && t.source == Learned && t.weight >= 0.6 && q == (t.topic, t.weight) {
        var t :| t in profile && t.source == Learned && t.weight >= 0.6 && q == (t.topic, t.weight);
        EmergingKept(profile, t);
      }
    }
  }

  lemma EmergingFrom(profile: seq<ProfileTopic>, t: ProfileTopic)
    requires t in Filter(GetProfile(profile), Emerging)
    ensures t in profile && Emerging(t)
  {
    SortByMembers(profile, HeavierOrSame(), t);
  }

  lemma EmergingKept(profile: seq<ProfileTopic>, t: ProfileTopic)
    requires t in profile && Emerging(t)
    ensures (t.topic, t.weight) in Pairs(Filter(GetProfile(profile), Emerging))
  {
    var kept := Filter(GetProfile(profile), Emerging);
    SortByMembers(profile, HeavierOrSame(), t);
    var i :| 0 <= i < |kept| && kept[i] == t;
    assert Pairs(kept)[i] == (t.topic, t.weight);
  }
}
