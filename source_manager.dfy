/** The list of RSS sources. It is loaded from a JSON file, changed in
    memory by adding and removing sources, and written back after each
    change. Entries of the file are objects that may lack a key, so both
    fields are optional. */
module SourceManagement {

  import opened Common
  import opened Sorting

  datatype Source = Source(name: Option<string>, url: Option<string>)

  /** Every source has a url and no url is listed twice. */
  ghost predicate UrlsDistinct(sources: seq<Source>)
  {
    && (forall i :: 0 <= i < |sources| ==> sources[i].url.Some?)
    && (forall i, j :: 0 <= i < j < |sources| ==> sources[i].url != sources[j].url)
  }

  /** The duplicate check of `add_source` fails: some source has this url,
      or some source has no url at all, so that `source['url']` raises and
      the method gives up. Either way nothing is added. */
  predicate AddRejected(sources: seq<Source>, url: string)
  {
    exists i :: 0 <= i < |sources| && (sources[i].url.None? || sources[i].url == Some(url))
  }

  /** `source['name'] != name` raises for a source without a name. */
  predicate SomeNameMissing(sources: seq<Source>)
  {
    exists i :: 0 <= i < |sources| && sources[i].name.None?
  }

  /** The sources that keep their place in `remove_source`. */
  function Remaining(sources: seq<Source>, name: string): seq<Source>
  {
    Filter(sources, (s: Source) => s.name != Some(name))
  }

  class SourceManager {
    var sources: seq<Source>

    /** `_load_sources`: the parsed file, or no sources when the file is
        missing or is not valid JSON (`None`). */
    constructor (loaded: Option<seq<Source>>)
      ensures sources == if loaded.Some? then loaded.value else []
    {
      sources := if loaded.Some? then loaded.value else [];
    }

    /** `add_source`: refuses a url already listed; otherwise appends the
        source in memory and then writes the file. `written` says whether
        the write succeeded; when it fails the method reports `false` but
        the source stays in the list. */
    method AddSource(name: string, url: string, written: bool) returns (ok: bool)
      modifies this
      ensures AddRejected(old(sources), url) ==> !ok && sources == old(sources)
      ensures !AddRejected(old(sources), url) ==>
        ok == written && sources == old(sources) + [Source(Some(name), Some(url))]
      ensures UrlsDistinct(old(sources)) ==> UrlsDistinct(sources)
    {
      var i := 0;
      while i < |sources|
        invariant 0 <= i <= |sources|
        invariant sources == old(sources)
        invariant forall k :: 0 <= k < i ==> sources[k].url.Some? && sources[k].url != Some(url)
      {
        if sources[i].url.None? || sources[i].url.value == url {
          return false;
        }
        i := i + 1;
      }
      sources := sources + [Source(Some(name), Some(url))];
      ok := written;
    }

    /** `remove_source`: drops every source with exactly this name (case
        and spacing matter) and writes the file when something was
        dropped. The result is `false` when nothing matched, when some
        source has no name, or when the write failed. */
    method RemoveSource(name: string, written: bool) returns (ok: bool)
      modifies this
      ensures SomeNameMissing(old(sources)) ==> !ok && sources == old(sources)
      ensures !SomeNameMissing(old(sources)) ==> sources == Remaining(old(sources), name)
      ensures !SomeNameMissing(old(sources)) ==>
        ok == (written && exists i :: 0 <= i < |old(sources)| && old(sources)[i].name == Some(name))
      ensures UrlsDistinct(old(sources)) ==> UrlsDistinct(sources)
    {
      if exists i :: 0 <= i < |sources| && sources[i].name.None? {
        return false;
      }
      var originalCount := |sources|;
      RemainingCount(sources, name);
      if UrlsDistinct(sources) {
        RemoveKeepsUrlsDistinct(sources, name);
      }
      sources := Remaining(sources, name);
      ok := |sources| != originalCount && written;
    }
  }

  /** Fewer sources remain exactly when one of them had the name. */
  lemma {:induction false} RemainingCount(sources: seq<Source>, name: string)
    ensures |Remaining(sources, name)| <= |sources|
    ensures |Remaining(sources, name)| < |sources| <==>
      exists i :: 0 <= i < |sources| && sources[i].name == Some(name)
  {
    if sources != [] {
      var init := sources[..|sources| - 1];
      RemainingCount(init, name);
      if exists i :: 0 <= i < |init| && init[i].name == Some(name) {
        var i :| 0 <= i < |init| && init[i].name == Some(name);
        assert sources[i] == init[i];
      }
      if exists i :: 0 <= i < |sources| && sources[i].name == Some(name) {
        var i :| 0 <= i < |sources| && sources[i].name == Some(name);
        if i < |init| {
          assert init[i] == sources[i];
        }
      }
    }
  }

  /** Removing sources keeps the urls distinct. */
  lemma RemoveKeepsUrlsDistinct(sources: seq<Source>, name: string)
    requires UrlsDistinct(sources)
    ensures UrlsDistinct(Remaining(sources, name))
  {
    var key := (s: Source) => s.url;
    assert DistinctBy(sources, key);
    FilterDistinct(sources, (s: Source) => s.name != Some(name), key);
    var r := Remaining(sources, name);
    forall i | 0 <= i < |r| ensures r[i].url.Some? {
      assert r[i] in sources;
    }
  }
}
