/** Ingestion: turning feed entries into article rows and saving the new
    ones. Downloading and parsing a feed is outside the model: the parsed
    entries of each source are a parameter. */
module FeedFetcher {

  import opened Common
  import opened Schema
  import opened SourceManagement

  // ----- url normalisation -----

  /** The prefix of `s` before the first character satisfying `stop`. */
  function CutAt(s: string, stop: char -> bool): (r: string)
    ensures r <= s
    ensures forall i :: 0 <= i < |r| ==> !stop(r[i])
    ensures |r| < |s| ==> stop(s[|r|])
  {
    if s == [] || stop(s[0]) then [] else [s[0]] + CutAt(s[1..], stop)
  }

  /** Cutting stops exactly at the first stopping character. */
  lemma {:induction false} CutAtFirst(s: string, stop: char -> bool, m: nat)
    requires m <= |s|
    requires forall i :: 0 <= i < m ==> !stop(s[i])
    requires m == |s| || stop(s[m])
    ensures CutAt(s, stop) == s[..m]
  {
    if m > 0 {
      CutAtFirst(s[1..], stop, m - 1);
      assert s[..m] == [s[0]] + s[1..][..m - 1];
    }
  }

  /** The index of the last `/`, or -1. */
  function LastSlash(s: string): (r: int)
    ensures -1 <= r < |s|
    ensures 0 <= r ==> s[r] == '/'
    ensures forall i :: r < i < |s| ==> s[i] != '/'
  {
    if s == [] then -1
    else if s[|s| - 1] == '/' then |s| - 1
    else LastSlash(s[..|s| - 1])
  }

  lemma {:induction false} LastSlashAt(s: string, j: int)
    requires -1 <= j < |s|
    requires 0 <= j ==> s[j] == '/'
    requires forall i :: j < i < |s| ==> s[i] != '/'
    ensures LastSlash(s) == j
  {
    if s != [] && j < |s| - 1 {
      LastSlashAt(s[..|s| - 1], j);
    }
  }

  predicate QueryOrFragment(c: char) { c == '?' || c == '#' }

  predicate ParamsStart(c: char) { c == ';' }

  /** What urlparse sees as the url without query and fragment. */
  function BeforeQuery(url: string): string
  {
    CutAt(url, QueryOrFragment)
  }

  /** `_normalize_url`: an empty url is returned as is; otherwise the query
      (from the first `?`), the fragment (from the first `#`) and the
      parameters of the last path segment (from its first `;`) are dropped,
      leaving scheme, host and path. */
  function NormalizeUrl(url: string): string
  {
    if url == "" then url else KeepPath(BeforeQuery(url))
  }

  /** Scheme, host and path of a url without query or fragment: the
      parameters of the last path segment are dropped. */
  function KeepPath(base: string): string
  {
    var k := LastSlash(base) + 1;
    base[..k] + CutAt(base[k..], ParamsStart)
  }

  /** A url with nothing to drop. */
  predicate Clean(url: string)
  {
    && (forall i :: 0 <= i < |url| ==> !QueryOrFragment(url[i]))
    && (forall i :: LastSlash(url) < i < |url| ==> !ParamsStart(url[i]))
  }

  /** Cutting the tail from `k` on leaves a prefix of `base`. */
  lemma TailCut(base: string, k: nat)
    requires k <= |base|
    ensures var p := CutAt(base[k..], ParamsStart);
      && base[..k] + p == base[..k + |p|]
      && (forall i :: k <= i < k + |p| ==> !ParamsStart(base[i]))
      && (k + |p| < |base| ==> ParamsStart(base[k + |p|]))
  {
    var p := CutAt(base[k..], ParamsStart);
    forall i | k <= i < k + |p| ensures !ParamsStart(base[i]) {
      assert base[i] == p[i - k];
    }
    if k + |p| < |base| {
      assert base[k + |p|] == base[k..][|p|];
    }
  }

  /** A prefix of a url without query or fragment, reaching past its last
      slash only over characters that start no parameters, is clean. */
  lemma CleanCut(base: string, n: nat)
    requires n <= |base|
    requires forall i :: 0 <= i < |base| ==> !QueryOrFragment(base[i])
    requires LastSlash(base) + 1 <= n
    requires forall i :: LastSlash(base) + 1 <= i < n ==> !ParamsStart(base[i])
    ensures Clean(base[..n])
  {
    var r := base[..n];
    var j := LastSlash(base);
    forall i | j < i < |r| ensures r[i] != '/' {
      assert r[i] == base[i];
    }
    LastSlashAt(r, j);
  }

  /** A non-empty url normalises to the part of `BeforeQuery(url)` before
      `n`, where `n` is the first parameter start after the last slash. */
  lemma NormalizedLength(url: string) returns (n: nat)
    requires url != ""
    ensures var base := BeforeQuery(url);
      && LastSlash(base) + 1 <= n <= |base|
      && NormalizeUrl(url) == base[..n]
      && (forall i :: LastSlash(base) + 1 <= i < n ==> !ParamsStart(base[i]))
      && (n < |base| ==> ParamsStart(base[n]))
  {
    var base := BeforeQuery(url);
    var k := LastSlash(base) + 1;
    TailCut(base, k);
    n := k + |CutAt(base[k..], ParamsStart)|;
  }

  lemma NormalizePrefix(url: string)
    ensures NormalizeUrl(url) <= url
  {
    if url != "" {
      var base := BeforeQuery(url);
      var n := NormalizedLength(url);
      assert base[..n] == url[..n];
    }
  }

  lemma NormalizeResultClean(url: string)
    ensures Clean(NormalizeUrl(url))
  {
    if url != "" {
      var n := NormalizedLength(url);
      CleanCut(BeforeQuery(url), n);
    }
  }

  lemma NormalizeCutsAtDelimiter(url: string)
    ensures |NormalizeUrl(url)| < |url| ==>
      QueryOrFragment(url[|NormalizeUrl(url)|]) || ParamsStart(url[|NormalizeUrl(url)|])
  {
    if url != "" {
      var base := BeforeQuery(url);
      var n := NormalizedLength(url);
      if n < |base| {
        assert url[n] == base[n];
      }
    }
  }

  /** The result is a clean prefix of the url, cut only at a delimiter. It
      keeps the url up to the query, or up to a `;` in the last path segment
      of that part, and so the whole path up to its last slash. */
  lemma NormalizeUrlSpec(url: string)
    ensures NormalizeUrl(url) <= url
    ensures Clean(NormalizeUrl(url))
    ensures |NormalizeUrl(url)| < |url| ==>
      QueryOrFragment(url[|NormalizeUrl(url)|]) || ParamsStart(url[|NormalizeUrl(url)|])
    ensures BeforeQuery(url)[..LastSlash(BeforeQuery(url)) + 1] <= NormalizeUrl(url)
    ensures (forall i :: LastSlash(BeforeQuery(url)) < i < |BeforeQuery(url)| ==> !ParamsStart(BeforeQuery(url)[i]))
            ==> NormalizeUrl(url) == BeforeQuery(url)
  {
    NormalizePrefix(url);
    NormalizeResultClean(url);
    NormalizeCutsAtDelimiter(url);
    NormalizeKeepsPath(url);
    NormalizeWithoutParams(url);
  }

  lemma NormalizeKeepsPath(url: string)
    ensures BeforeQuery(url)[..LastSlash(BeforeQuery(url)) + 1] <= NormalizeUrl(url)
  {
    var base := BeforeQuery(url);
    var k := LastSlash(base) + 1;
    if url != "" {
      var n := NormalizedLength(url);
      assert base[..k] == base[..n][..k];
    } else {
      assert base == "";
    }
  }

  lemma NormalizeWithoutParams(url: string)
    ensures (forall i :: LastSlash(BeforeQuery(url)) < i < |BeforeQuery(url)| ==> !ParamsStart(BeforeQuery(url)[i]))
            ==> NormalizeUrl(url) == BeforeQuery(url)
  {
    var base := BeforeQuery(url);
    if url != "" && forall i :: LastSlash(base) < i < |base| ==> !ParamsStart(base[i]) {
      var n := NormalizedLength(url);
      assert n == |base|;
    } else if url == "" {
      assert base == "";
    }
  }

  /** The last segment of a clean url has no parameters to cut. */
  lemma LastSegmentKept(url: string)
    requires Clean(url)
    ensures CutAt(url[LastSlash(url) + 1..], ParamsStart) == url[LastSlash(url) + 1..]
  {
    var k := LastSlash(url) + 1;
    var tail := url[k..];
    forall i | 0 <= i < |tail| ensures !ParamsStart(tail[i]) {
      assert tail[i] == url[k + i];
    }
    CutAtFirst(tail, ParamsStart, |tail|);
  }

  /** A clean url is left unchanged. */
  lemma NormalizeClean(url: string)
    requires Clean(url)
    ensures NormalizeUrl(url) == url
  {
    if url != "" {
      QueryKept(url);
      LastSegmentKept(url);
      NothingCut(url);
      assert NormalizeUrl(url) == KeepPath(url);
    }
  }

  /** A path whose last segment has nothing to cut is kept whole. */
  lemma NothingCut(base: string)
    requires CutAt(base[LastSlash(base) + 1..], ParamsStart) == base[LastSlash(base) + 1..]
    ensures KeepPath(base) == base
  {
    var k := LastSlash(base) + 1;
    assert base[..k] + base[k..] == base;
  }

  /** A url without `?` or `#` has no query or fragment to drop. */
  lemma QueryKept(url: string)
    requires forall i :: 0 <= i < |url| ==> !QueryOrFragment(url[i])
    ensures BeforeQuery(url) == url
  {
    CutAtFirst(url, QueryOrFragment, |url|);
  }

  /** Normalising twice is normalising once. */
  lemma NormalizeIdempotent(url: string)
    ensures NormalizeUrl(NormalizeUrl(url)) == NormalizeUrl(url)
  {
    NormalizeUrlSpec(url);
    NormalizeClean(NormalizeUrl(url));
  }

  /** Whatever follows the first `?` or `#` does not matter. */
  lemma QueryIgnored(base: string, c: char, rest: string)
    requires forall i :: 0 <= i < |base| ==> !QueryOrFragment(base[i])
    requires QueryOrFragment(c)
    ensures NormalizeUrl(base + [c] + rest) == NormalizeUrl(base)
  {
    var url := base + [c] + rest;
    CutAtFirst(url, QueryOrFragment, |base|);
    assert url[..|base|] == base;
    CutAtFirst(base, QueryOrFragment, |base|);
    assert base[..|base|] == base;
  }

  /** Urls that differ only after their first `?` or `#` (a tracking
      token, a fragment) normalise to the same string. */
  lemma SameUpToQuery(base: string, c1: char, rest1: string, c2: char, rest2: string)
    requires forall i :: 0 <= i < |base| ==> !QueryOrFragment(base[i])
    requires QueryOrFragment(c1) && QueryOrFragment(c2)
    ensures NormalizeUrl(base + [c1] + rest1) == NormalizeUrl(base + [c2] + rest2)
  {
    QueryIgnored(base, c1, rest1);
    QueryIgnored(base, c2, rest2);
  }

  // ----- entries -----

  /** An entry's `content`: a list of content objects, or a plain value. */
  datatype EntryContent = ContentList(values: seq<string>) | ContentValue(text: string)

  /** A parsed feed entry; a missing attribute is `None`. */
  datatype Entry = Entry(
    link: Option<string>,
    title: Option<string>,
    content: Option<EntryContent>,
    summary: Option<string>,
    description: Option<string>,
    published: Option<Timestamp>)

  predicate HasText(s: Option<string>) { s.Some? && s.value != "" }

  predicate HasContent(e: Entry)
  {
    && e.content.Some?
    && match e.content.value
       case ContentList(values) => values != []
       case ContentValue(text) => text != ""
  }

  function ContentFirst(c: EntryContent): string
    requires c.ContentList? ==> c.values != []
  {
    match c
    case ContentList(values) => values[0]
    case ContentValue(text) => text
  }

  /** `_clean_content`: the text of the first field that has some, in the
      order content, summary, description, else "". The result is empty
      only when no field has text or when a content list starts with an
      empty value. */
  function CleanContent(e: Entry): (r: string)
    ensures HasContent(e) ==> r == ContentFirst(e.content.value)
    ensures !HasContent(e) && HasText(e.summary) ==> r == e.summary.value
    ensures !HasContent(e) && !HasText(e.summary) && HasText(e.description) ==> r == e.description.value
    ensures !HasContent(e) && !HasText(e.summary) && !HasText(e.description) ==> r == ""
    ensures r == "" ==> (HasContent(e) && e.content.value.ContentList?)
                        || (!HasContent(e) && !HasText(e.summary) && !HasText(e.description))
  {
    if HasContent(e) then ContentFirst(e.content.value)
    else if HasText(e.summary) then e.summary.value
    else if HasText(e.description) then e.description.value
    else ""
  }

  /** A content list whose first value is empty hides the summary. */
  lemma EmptyContentHidesSummary()
    ensures CleanContent(Entry(None, None, Some(ContentList(["", "body"])), Some("summary"), None, None)) == ""
  {
  }

  /** An article as `fetch_feed` builds it, before it is saved. */
  datatype FetchedArticle = FetchedArticle(
    url: string,
    title: string,
    content: string,
    sourceName: string,
    published: Option<Timestamp>)

  /** `source.get('name', 'Unknown')`. */
  function NameOf(source: Source): string
  {
    if source.name.Some? then source.name.value else "Unknown"
  }

  function EntryArticle(e: Entry, name: string): FetchedArticle
  {
    FetchedArticle(
      NormalizeUrl(if e.link.Some? then e.link.value else ""),
      if e.title.Some? then e.title.value else "No title",
      CleanContent(e),
      name,
      e.published)
  }

  function Converted(entries: seq<Entry>, name: string): (r: seq<FetchedArticle>)
    ensures |r| == |entries|
    ensures forall i :: 0 <= i < |entries| ==> r[i] == EntryArticle(entries[i], name)
  {
    seq(|entries|, i requires 0 <= i < |entries| => EntryArticle(entries[i], name))
  }

  predicate HasUrl(a: FetchedArticle) { a.url != "" }

  /** The articles `fetch_feed` returns for a source whose feed parsed to
      `entries`: nothing without a url; otherwise the first `maxArticles`
      entries, dropping those whose normalised link is empty. */
  function FeedArticles(source: Source, entries: seq<Entry>, maxArticles: int): seq<FetchedArticle>
  {
    if source.url.None? || source.url.value == "" then []
    else Filter(Converted(PyTake(entries, maxArticles), NameOf(source)), HasUrl)
  }

  /** The loop of `fetch_feed` over the parsed entries. */
  method FetchFeed(source: Source, entries: seq<Entry>, maxArticles: int) returns (articles: seq<FetchedArticle>)
    ensures articles == FeedArticles(source, entries, maxArticles)
  {
    if source.url.None? || source.url.value == "" {
      return [];
    }
    var name := NameOf(source);
    var window := PyTake(entries, maxArticles);
    articles := [];
    var i := 0;
    while i < |window|
      invariant 0 <= i <= |window|
      invariant articles == Filter(Converted(window[..i], name), HasUrl)
    {
      var article := EntryArticle(window[i], name);
      FeedStep(window, i, name);
      if article.url != "" {
        articles := articles + [article];
      }
      i := i + 1;
    }
    assert window[..i] == window;
  }

  /** One more entry adds its article when its url is non-empty. */
  lemma FeedStep(window: seq<Entry>, i: nat, name: string)
    requires i < |window|
    ensures var article := EntryArticle(window[i], name);
      Filter(Converted(window[..i + 1], name), HasUrl)
        == Filter(Converted(window[..i], name), HasUrl) + (if HasUrl(article) then [article] else [])
  {
    var article := EntryArticle(window[i], name);
    var before := Converted(window[..i], name);
    assert Converted(window[..i + 1], name) == before + [article];
    assert (before + [article])[..|before|] == before;
  }

  /** A source without a url gives nothing. Otherwise there are at most
      `maxArticles` articles, each built from an entry of the window with a
      non-empty normalised url and the source's name, and every entry in the
      window whose link survives normalisation is kept. */
  lemma FeedArticlesSpec(source: Source, entries: seq<Entry>, maxArticles: int)
    ensures var r := FeedArticles(source, entries, maxArticles);
      && (source.url.None? || source.url.value == "" ==> r == [])
      && (0 <= maxArticles ==> |r| <= maxArticles)
      && (forall a :: a in r ==> exists e :: e in PyTake(entries, maxArticles) && a == EntryArticle(e, NameOf(source)))
      && (forall a :: a in r ==> a.url != "" && NormalizeUrl(a.url) == a.url && a.sourceName == NameOf(source))
      && (source.url.Some? && source.url.value != "" ==>
            forall e :: e in PyTake(entries, maxArticles) && HasUrl(EntryArticle(e, NameOf(source))) ==>
              EntryArticle(e, NameOf(source)) in r)
  {
    var r := FeedArticles(source, entries, maxArticles);
    var window := PyTake(entries, maxArticles);
    var conv := Converted(window, NameOf(source));
    forall a | a in r ensures NormalizeUrl(a.url) == a.url
      && exists e :: e in window && a == EntryArticle(e, NameOf(source))
    {
      if source.url.Some? && source.url.value != "" {
        var i :| 0 <= i < |conv| && conv[i] == a;
        assert window[i] in window;
        var link := if window[i].link.Some? then window[i].link.value else "";
        NormalizeIdempotent(link);
      }
    }
    forall e | e in window && HasUrl(EntryArticle(e, NameOf(source)))
      ensures source.url.Some? && source.url.value != "" ==> EntryArticle(e, NameOf(source)) in r
    {
      var i :| 0 <= i < |window| && window[i] == e;
      assert conv[i] in conv;
    }
  }

  // ----- saving -----

  function StoredUrls(articles: seq<Article>): set<string>
  {
    set a | a in articles :: a.url
  }

  /** The row an insert creates: no summary, analysis or score yet, unread. */
  function NewRow(a: FetchedArticle, id: int, now: Timestamp): Article
  {
    Article(id, a.url, a.title, Some(a.content), None, None, a.sourceName, a.published, now, None, false)
  }

  /** The table after inserting `batch` one article at a time: an insert
      whose url is already stored (also by an earlier article of the batch)
      fails on the UNIQUE constraint and leaves the table as it was; the
      others take the next AUTOINCREMENT ids from `next` on. */
  function Ingested(stored: seq<Article>, batch: seq<FetchedArticle>, next: int, now: Timestamp): seq<Article>
  {
    if batch == [] then stored
    else
      var s := Ingested(stored, batch[..|batch| - 1], next, now);
      var a := batch[|batch| - 1];
      if a.url in StoredUrls(s) then s else s + [NewRow(a, next + |s| - |stored|, now)]
  }

  /** Saving never changes or drops a stored row, adds at most one row per
      fetched article, keeps urls unique, and afterwards every fetched url
      is stored. */
  lemma {:induction false} IngestedSpec(stored: seq<Article>, batch: seq<FetchedArticle>, next: int, now: Timestamp)
    requires UrlsUnique(stored)
    ensures var r := Ingested(stored, batch, next, now);
      && stored <= r
      && |r| - |stored| <= |batch|
      && UrlsUnique(r)
      && (forall a :: a in batch ==> a.url in StoredUrls(r))
      && (forall i :: |stored| <= i < |r| ==> r[i].url !in StoredUrls(stored))
  {
    IngestedGrows(stored, batch, next, now);
    IngestedCovers(stored, batch, next, now);
  }

  lemma {:induction false} IngestedGrows(stored: seq<Article>, batch: seq<FetchedArticle>, next: int, now: Timestamp)
    requires UrlsUnique(stored)
    ensures var r := Ingested(stored, batch, next, now);
      && stored <= r
      && |r| - |stored| <= |batch|
      && UrlsUnique(r)
      && (forall i :: |stored| <= i < |r| ==> r[i].url !in StoredUrls(stored))
  {
    if batch != [] {
      var init := batch[..|batch| - 1];
      var a := batch[|batch| - 1];
      var s := Ingested(stored, init, next, now);
      IngestedGrows(stored, init, next, now);
      if a.url !in StoredUrls(s) {
        AppendFresh(stored, s, NewRow(a, next + |s| - |stored|, now));
      }
    }
  }

  lemma {:induction false} IngestedCovers(stored: seq<Article>, batch: seq<FetchedArticle>, next: int, now: Timestamp)
    ensures forall a :: a in batch ==> a.url in StoredUrls(Ingested(stored, batch, next, now))
  {
    if batch != [] {
      var init := batch[..|batch| - 1];
      var a := batch[|batch| - 1];
      var s := Ingested(stored, init, next, now);
      IngestedCovers(stored, init, next, now);
      assert forall b :: b in batch ==> b in init || b == a;
      if a.url !in StoredUrls(s) {
        var r := s + [NewRow(a, next + |s| - |stored|, now)];
        assert StoredUrls(r) == StoredUrls(s) + {a.url};
      }
    }
  }

  /** Appending a row whose url is not stored keeps a grown table's urls
      unique and its new rows' urls fresh. */
  lemma AppendFresh(stored: seq<Article>, s: seq<Article>, row: Article)
    requires stored <= s && UrlsUnique(s)
    requires forall i :: |stored| <= i < |s| ==> s[i].url !in StoredUrls(stored)
    requires row.url !in StoredUrls(s)
    ensures var r := s + [row];
      && stored <= r
      && UrlsUnique(r)
      && StoredUrls(r) == StoredUrls(s) + {row.url}
      && forall i :: |stored| <= i < |r| ==> r[i].url !in StoredUrls(stored)
  {
    var r := s + [row];
    assert StoredUrls(r) == StoredUrls(s) + {row.url};
    forall i | 0 <= i < |s| ensures s[i].url != row.url {
      assert s[i] in s;
    }
    assert StoredUrls(stored) <= StoredUrls(s) by {
      forall x | x in stored ensures x in s {
        var k :| 0 <= k < |stored| && stored[k] == x;
        assert s[k] == x;
      }
    }
  }

  /** A url repeated within one batch is saved once. */
  lemma RepeatInBatchSavedOnce(a: FetchedArticle, next: int, now: Timestamp)
    ensures Ingested([], [a, a], next, now) == [NewRow(a, next, now)]
  {
    assert [a, a][..1] == [a];
    assert [a][..0] == [];
    assert Ingested([], [a], next, now) == [NewRow(a, next, now)];
    assert NewRow(a, next, now) in [NewRow(a, next, now)];
    assert a.url in StoredUrls([NewRow(a, next, now)]);
  }

  /** Fetched articles of all sources, in order. */
  function AllFetched(sources: seq<Source>, feed: Source -> seq<Entry>, maxPerSource: int): seq<FetchedArticle>
  {
    if sources == [] then []
    else
      var last := sources[|sources| - 1];
      AllFetched(sources[..|sources| - 1], feed, maxPerSource) + FeedArticles(last, feed(last), maxPerSource)
  }

  /** The totals `fetch_all` reports; `total_fetched - total_new` is the
      number of duplicates skipped. */
  datatype FetchSummary = FetchSummary(totalFetched: nat, totalNew: nat, totalSources: nat)

  /** An insert of a fresh url keeps the table's constraints. */
  lemma InsertKeepsValid(s: seq<Article>, next: int, a: FetchedArticle, now: Timestamp)
    requires UrlsUnique(s) && ArticleIdsBelow(s, next)
    requires a.url !in StoredUrls(s)
    ensures UrlsUnique(s + [NewRow(a, next, now)])
    ensures ArticleIdsBelow(s + [NewRow(a, next, now)], next + 1)
  {
    forall i | 0 <= i < |s| ensures s[i].url != a.url {
      assert s[i] in s;
    }
  }

  /** One more article of the batch is inserted unless its url is stored. */
  lemma IngestedSnoc(stored: seq<Article>, cur: seq<FetchedArticle>, a: FetchedArticle, next: int, now: Timestamp)
    ensures var s := Ingested(stored, cur, next, now);
      Ingested(stored, cur + [a], next, now)
        == if a.url in StoredUrls(s) then s else s + [NewRow(a, next + |s| - |stored|, now)]
  {
    assert (cur + [a])[..|cur|] == cur;
  }

  /** One `INSERT INTO articles`: a url already stored violates the UNIQUE
      constraint and the row is skipped; otherwise it is added with the
      next id. */
  method InsertArticle(db: Database, a: FetchedArticle, now: Timestamp) returns (inserted: bool)
    requires db.Valid()
    modifies db
    ensures db.Valid()
    ensures inserted <==> a.url !in StoredUrls(old(db.articles))
    ensures db.articles == if inserted then old(db.articles) + [NewRow(a, old(db.nextArticleId), now)]
                           else old(db.articles)
    ensures db.nextArticleId == old(db.nextArticleId) + (if inserted then 1 else 0)
    ensures db.feedback == old(db.feedback) && db.profile == old(db.profile)
    ensures db.nextFeedbackId == old(db.nextFeedbackId)
  {
    inserted := a.url !in StoredUrls(db.articles);
    if inserted {
      InsertKeepsValid(db.articles, db.nextArticleId, a, now);
      db.articles := db.articles + [NewRow(a, db.nextArticleId, now)];
      db.nextArticleId := db.nextArticleId + 1;
    }
  }

  /** One turn of the insert loop: the table moves one article further
      through the batch. */
  method SaveOne(db: Database, a: FetchedArticle, ghost stored: seq<Article>, ghost next: int,
                 ghost cur: seq<FetchedArticle>, now: Timestamp) returns (inserted: bool)
    requires db.Valid()
    requires db.articles == Ingested(stored, cur, next, now)
    requires db.nextArticleId == next + |db.articles| - |stored|
    modifies db
    ensures db.Valid()
    ensures db.articles == Ingested(stored, cur + [a], next, now)
    ensures db.nextArticleId == next + |db.articles| - |stored|
    ensures |db.articles| == |old(db.articles)| + (if inserted then 1 else 0)
    ensures db.feedback == old(db.feedback) && db.profile == old(db.profile)
    ensures db.nextFeedbackId == old(db.nextFeedbackId)
  {
    ghost var s := db.articles;
    IngestedSnoc(stored, cur, a, next, now);
    inserted := InsertArticle(db, a, now);
    if inserted {
      assert db.articles == s + [NewRow(a, next + |s| - |stored|, now)];
    } else {
      assert db.articles == s;
    }
  }

  /** The insert loop over one source's articles. */
  method SaveArticles(db: Database, articles: seq<FetchedArticle>, ghost stored: seq<Article>, ghost next: int,
                      ghost done: seq<FetchedArticle>, now: Timestamp) returns (added: nat)
    requires db.Valid()
    requires db.articles == Ingested(stored, done, next, now)
    requires db.nextArticleId == next + |db.articles| - |stored|
    modifies db
    ensures db.Valid()
    ensures db.articles == Ingested(stored, done + articles, next, now)
    ensures db.nextArticleId == next + |db.articles| - |stored|
    ensures added == |db.articles| - |old(db.articles)|
    ensures db.feedback == old(db.feedback) && db.profile == old(db.profile)
    ensures db.nextFeedbackId == old(db.nextFeedbackId)
  {
    added := 0;
    var j := 0;
    assert done + articles[..0] == done;
    while j < |articles|
      invariant 0 <= j <= |articles|
      invariant db.Valid()
      invariant db.articles == Ingested(stored, done + articles[..j], next, now)
      invariant db.nextArticleId == next + |db.articles| - |stored|
      invariant added == |db.articles| - |old(db.articles)|
      invariant db.feedback == old(db.feedback) && db.profile == old(db.profile)
      invariant db.nextFeedbackId == old(db.nextFeedbackId)
    {
      PrefixSnoc(done, articles, j);
      var inserted := SaveOne(db, articles[j], stored, next, done + articles[..j], now);
      if inserted {
        added := added + 1;
      }
      j := j + 1;
    }
    assert articles[..j] == articles;
  }

  /** `fetch_all`: fetches every listed source and saves the articles whose
      url is not stored yet. */
  method FetchAll(db: Database, sources: seq<Source>, feed: Source -> seq<Entry>, maxPerSource: int, now: Timestamp)
    returns (summary: FetchSummary)
    requires db.Valid()
    modifies db
    ensures db.Valid()
    ensures db.articles == Ingested(old(db.articles), AllFetched(sources, feed, maxPerSource), old(db.nextArticleId), now)
    ensures summary.totalFetched == |AllFetched(sources, feed, maxPerSource)|
    ensures summary.totalNew == |db.articles| - |old(db.articles)| <= summary.totalFetched
    ensures db.nextArticleId == old(db.nextArticleId) + summary.totalNew
    ensures summary.totalSources == |sources|
    ensures db.feedback == old(db.feedback) && db.profile == old(db.profile)
    ensures db.nextFeedbackId == old(db.nextFeedbackId)
  {
    ghost var stored := db.articles;
    ghost var next := db.nextArticleId;
    var totalFetched: nat := 0;
    var totalNew: nat := 0;
    assert db.articles == Ingested(stored, AllFetched(sources[..0], feed, maxPerSource), next, now);
    var i := 0;
    while i < |sources|
      invariant 0 <= i <= |sources|
      invariant db.Valid()
      invariant db.articles == Ingested(stored, AllFetched(sources[..i], feed, maxPerSource), next, now)
      invariant db.nextArticleId == next + |db.articles| - |stored|
      invariant totalFetched == |AllFetched(sources[..i], feed, maxPerSource)|
      invariant totalNew == |db.articles| - |stored|
      invariant db.feedback == old(db.feedback) && db.profile == old(db.profile)
      invariant db.nextFeedbackId == old(db.nextFeedbackId)
    {
      var articles := FetchFeed(sources[i], feed(sources[i]), maxPerSource);
      totalFetched := totalFetched + |articles|;
      var added := SaveArticles(db, articles, stored, next, AllFetched(sources[..i], feed, maxPerSource), now);
      totalNew := totalNew + added;
      assert sources[..i + 1][..i] == sources[..i];
      i := i + 1;
    }
    assert sources[..i] == sources;
    IngestedSpec(stored, AllFetched(sources, feed, maxPerSource), next, now);
    summary := FetchSummary(totalFetched, totalNew, |sources|);
  }
}
