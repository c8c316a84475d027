/** The orders in which the store returns articles: the eight named keys of
    the advanced query (with NULLS LAST where the query asks for it) and the
    fall-back `published_date DESC`. Text compares by code point, as SQLite's
    BINARY collation does on UTF-8. */
module ArticleOrder {

  import opened Common
  import opened Schema
  import opened Sorting

  /** Lexicographic `a <= b`. */
  predicate StrLe(a: string, b: string)
    decreases |a|
  {
    a == [] || (b != [] && (a[0] < b[0] || (a[0] == b[0] && StrLe(a[1..], b[1..]))))
  }

  predicate StrLt(a: string, b: string)
  {
    StrLe(a, b) && a != b
  }

  lemma StrLeTotal(a: string, b: string)
    ensures StrLe(a, b) || StrLe(b, a)
  {
  }

  lemma StrLeTransitive(a: string, b: string, c: string)
    requires StrLe(a, b) && StrLe(b, c)
    ensures StrLe(a, c)
  {
  }

  lemma {:induction false} StrLeAntisymmetric(a: string, b: string)
    requires StrLe(a, b) && StrLe(b, a)
    ensures a == b
    decreases |a|
  {
    if a != [] {
      StrLeAntisymmetric(a[1..], b[1..]);
      assert a == [a[0]] + a[1..] && b == [b[0]] + b[1..];
    }
  }

  // NULLS LAST comparisons of an optional value
  predicate RealDescNullsLast(x: Option<real>, y: Option<real>)
  {
    y.None? || (x.Some? && x.value >= y.value)
  }

  predicate RealAscNullsLast(x: Option<real>, y: Option<real>)
  {
    y.None? || (x.Some? && x.value <= y.value)
  }

  predicate TimeDescNullsLast(x: Option<Timestamp>, y: Option<Timestamp>)
  {
    y.None? || (x.Some? && x.value >= y.value)
  }

  predicate TimeAscNullsLast(x: Option<Timestamp>, y: Option<Timestamp>)
  {
    y.None? || (x.Some? && x.value <= y.value)
  }

  /** The entries of the query's `sort_mapping`. */
  datatype SortKey =
    | RelevanceDesc | RelevanceAsc
    | PublishedDesc | PublishedAsc
    | FetchedDesc | FetchedAsc
    | TitleAsc
    | SourceThenPublished

  /** `sort_mapping.get(sort_by, "a.published_date DESC")`. SQLite sorts NULL
      below every value, so the fall-back puts NULLs last like PublishedDesc. */
  function SortKeyOf(sortBy: string): SortKey
  {
    if sortBy == "relevance_desc" then RelevanceDesc
    else if sortBy == "relevance_asc" then RelevanceAsc
    else if sortBy == "published_desc" then PublishedDesc
    else if sortBy == "published_asc" then PublishedAsc
    else if sortBy == "fetched_desc" then FetchedDesc
    else if sortBy == "fetched_asc" then FetchedAsc
    else if sortBy == "title" then TitleAsc
    else if sortBy == "source" then SourceThenPublished
    else PublishedDesc
  }

  /** `a` may come before `b` under key `k`. */
  predicate ArticleLe(k: SortKey, a: Article, b: Article)
  {
    match k
    case RelevanceDesc => RealDescNullsLast(a.relevance, b.relevance)
    case RelevanceAsc => RealAscNullsLast(a.relevance, b.relevance)
    case PublishedDesc => TimeDescNullsLast(a.published, b.published)
    case PublishedAsc => TimeAscNullsLast(a.published, b.published)
    case FetchedDesc => a.fetched >= b.fetched
    case FetchedAsc => a.fetched <= b.fetched
    case TitleAsc => StrLe(a.title, b.title)
    case SourceThenPublished =>
      StrLt(a.sourceName, b.sourceName)
      || (a.sourceName == b.sourceName && TimeDescNullsLast(a.published, b.published))
  }

  function Le(k: SortKey): (Article, Article) -> bool
  {
    (a: Article, b: Article) => ArticleLe(k, a, b)
  }

  lemma ArticleLeTotal(k: SortKey, a: Article, b: Article)
    ensures ArticleLe(k, a, b) || ArticleLe(k, b, a)
  {
    if k == TitleAsc {
      StrLeTotal(a.title, b.title);
    } else if k == SourceThenPublished {
      StrLeTotal(a.sourceName, b.sourceName);
    }
  }

  lemma ArticleLeTransitive(k: SortKey, a: Article, b: Article, c: Article)
    requires ArticleLe(k, a, b) && ArticleLe(k, b, c)
    ensures ArticleLe(k, a, c)
  {
    if k == TitleAsc {
      StrLeTransitive(a.title, b.title, c.title);
    } else if k == SourceThenPublished {
      if StrLt(a.sourceName, b.sourceName) && StrLt(b.sourceName, c.sourceName) {
        StrLeTransitive(a.sourceName, b.sourceName, c.sourceName);
        if a.sourceName == c.sourceName {
          StrLeAntisymmetric(a.sourceName, b.sourceName);
        }
      }
    }
  }

  lemma LeIsPreorder(k: SortKey)
    ensures Total(Le(k)) && Transitive(Le(k))
  {
    forall a, b ensures Le(k)(a, b) || Le(k)(b, a) {
      ArticleLeTotal(k, a, b);
    }
    forall a, b, c | Le(k)(a, b) && Le(k)(b, c) ensures Le(k)(a, c) {
      ArticleLeTransitive(k, a, b, c);
    }
  }
}
