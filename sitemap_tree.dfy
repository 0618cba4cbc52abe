/**
 * The sitemap tree resolver of the content-type validator: fetching one
 * sitemap document with a GET and flattening a tree of sitemap indexes
 * into the ordered list of page URLs (`fetchSitemap` and `parseSitemap`).
 *
 * The network and the XML parser are inputs: a `Web` maps each URL to
 * what its GET yields, already parsed into the shape the XML parser hands
 * over. The source has no cycle detection, so the recursion is bounded by
 * a depth `fuel`; a tree deeper than the fuel fails with `DepthExceeded`.
 */
module SitemapTree {
  import opened Common

  /**
   * One `<sitemap>` or `<url>` element as the XML parser gives it: the
   * array of its `<loc>` texts, or `None` when the element has no `<loc>`
   * child, in which case reading `loc[0]` throws a TypeError.
   */
  datatype Entry = Entry(loc: Option<seq<string>>)

  /** A parsed document: the entries under `sitemapindex` and those under `urlset`, either of them absent. */
  datatype Document = Document(sitemapindex: Option<seq<Entry>>, urlset: Option<seq<Entry>>)

  /** What a GET of one URL yields: a status outside the ok range, a body that is not XML, or a parsed document. */
  datatype Response = NotOk(status: int) | Unparsable | Parsed(doc: Document)

  /** The network as seen by the resolver; a URL that is not a key is a transport failure. */
  type Web = map<string, Response>

  datatype Error =
    | TransportError(url: string)
    | FetchError(url: string, status: int)
    | ParseError(url: string)
    | MissingLoc
    | DepthExceeded(url: string)

  /**
   * `fetchSitemap` followed by the XML parse: succeeds exactly when the GET
   * is ok and the body parses, and then gives that document.
   */
  function FetchSitemap(web: Web, url: string): (r: Result<Document, Error>)
    ensures r.Ok? <==> url in web && web[url].Parsed?
    ensures r.Ok? ==> r.value == web[url].doc
    ensures r.Err? && url in web && web[url].NotOk? ==> r.error == FetchError(url, web[url].status)
  {
    if url !in web then Err(TransportError(url))
    else match web[url]
      case NotOk(status) => Err(FetchError(url, status))
      case Unparsable => Err(ParseError(url))
      case Parsed(doc) => Ok(doc)
  }

  /** `loc[0]`, with the empty string standing for `undefined` when the array is empty. */
  function FirstLoc(e: Entry): string
    requires e.loc.Some?
  {
    if |e.loc.value| == 0 then "" else e.loc.value[0]
  }

  /** Fetch `url` and flatten what it holds; each fetch uses up one unit of depth. */
  function Resolve(web: Web, fuel: nat, url: string): Result<seq<string>, Error>
    decreases fuel, 0, 0
  {
    if fuel == 0 then Err(DepthExceeded(url))
    else match FetchSitemap(web, url)
      case Err(e) => Err(e)
      case Ok(doc) => Flatten(web, fuel - 1, doc)
  }

  /** `parseSitemap` on a parsed document: the index part first, then the urlset part. */
  function Flatten(web: Web, fuel: nat, doc: Document): Result<seq<string>, Error>
    decreases fuel, 2, 0
  {
    var fromIndex := if doc.sitemapindex.Some? then ResolveEntries(web, fuel, doc.sitemapindex.value) else Ok([]);
    var fromUrlset := if doc.urlset.Some? then PageLocs(doc.urlset.value) else Ok([]);
    AndThen(fromIndex, fromUrlset)
  }

  /** The index loop: the entries one after the other, each fully resolved before the next. */
  function ResolveEntries(web: Web, fuel: nat, es: seq<Entry>): Result<seq<string>, Error>
    decreases fuel, 1, |es|
  {
    if es == [] then Ok([])
    else AndThen(ResolveEntries(web, fuel, es[..|es| - 1]), ResolveEntry(web, fuel, es[|es| - 1]))
  }

  /** One index entry: a missing `loc` throws, an empty one is skipped, any other is resolved. */
  function ResolveEntry(web: Web, fuel: nat, e: Entry): Result<seq<string>, Error>
    decreases fuel, 1, 0
  {
    if e.loc.None? then Err(MissingLoc)
    else if FirstLoc(e) == "" then Ok([])
    else Resolve(web, fuel, FirstLoc(e))
  }

  /** The urlset loop. */
  function PageLocs(es: seq<Entry>): Result<seq<string>, Error>
  {
    if es == [] then Ok([]) else AndThen(PageLocs(es[..|es| - 1]), PageLoc(es[|es| - 1]))
  }

  function PageLoc(e: Entry): Result<seq<string>, Error>
  {
    if e.loc.None? then Err(MissingLoc)
    else if FirstLoc(e) == "" then Ok([])
    else Ok([FirstLoc(e)])
  }

  // ---------------------------------------------------------------------
  // The loops read as folds of their steps.

  ghost function EntryResults(web: Web, fuel: nat, es: seq<Entry>): (rs: seq<Result<seq<string>, Error>>)
    ensures |rs| == |es|
    ensures forall i :: 0 <= i < |es| ==> rs[i] == ResolveEntry(web, fuel, es[i])
  {
    seq(|es|, i requires 0 <= i < |es| => ResolveEntry(web, fuel, es[i]))
  }

  ghost function PageResults(es: seq<Entry>): (rs: seq<Result<seq<string>, Error>>)
    ensures |rs| == |es|
    ensures forall i :: 0 <= i < |es| ==> rs[i] == PageLoc(es[i])
  {
    seq(|es|, i requires 0 <= i < |es| => PageLoc(es[i]))
  }

  lemma {:induction false} ResolveEntriesIsSequence(web: Web, fuel: nat, es: seq<Entry>)
    ensures ResolveEntries(web, fuel, es) == Sequence(EntryResults(web, fuel, es))
  {
    if es != [] {
      var n := |es| - 1;
      ResolveEntriesIsSequence(web, fuel, es[..n]);
      assert EntryResults(web, fuel, es)[..n] == EntryResults(web, fuel, es[..n]);
    }
  }

  lemma {:induction false} PageLocsIsSequence(es: seq<Entry>)
    ensures PageLocs(es) == Sequence(PageResults(es))
  {
    if es != [] {
      var n := |es| - 1;
      PageLocsIsSequence(es[..n]);
      assert PageResults(es)[..n] == PageResults(es[..n]);
    }
  }

  // ---------------------------------------------------------------------
  // Properties of the resolver.

  /**
   * The index loop succeeds exactly when every entry resolves; its output is
   * then each entry's flattened list in listed order (nothing for an empty
   * `loc`), and otherwise it fails with the first entry's failure.
   */
  lemma IndexChildrenInOrder(web: Web, fuel: nat, es: seq<Entry>)
    ensures ResolveEntries(web, fuel, es).Ok? <==> forall i :: 0 <= i < |es| ==> ResolveEntry(web, fuel, es[i]).Ok?
    ensures ResolveEntries(web, fuel, es).Ok? ==>
              ResolveEntries(web, fuel, es).value == Concat(Values(EntryResults(web, fuel, es)))
    ensures forall i :: 0 <= i < |es| && ResolveEntry(web, fuel, es[i]).Err?
                        && (forall j :: 0 <= j < i ==> ResolveEntry(web, fuel, es[j]).Ok?)
              ==> ResolveEntries(web, fuel, es) == ResolveEntry(web, fuel, es[i])
  {
    ResolveEntriesIsSequence(web, fuel, es);
    SequenceSpec(EntryResults(web, fuel, es));
  }

  /** Always empty or one URL: the entry's `loc[0]` unless that is empty. */
  function KeptLoc(e: Entry): seq<string>
    requires e.loc.Some?
  {
    if FirstLoc(e) == "" then [] else [FirstLoc(e)]
  }

  ghost function KeptLocs(es: seq<Entry>): (kept: seq<seq<string>>)
    requires forall i :: 0 <= i < |es| ==> es[i].loc.Some?
    ensures |kept| == |es|
    ensures forall i :: 0 <= i < |es| ==> kept[i] == KeptLoc(es[i])
  {
    seq(|es|, i requires 0 <= i < |es| => KeptLoc(es[i]))
  }

  lemma {:induction false} ConcatNonEmpty(xss: seq<seq<string>>)
    requires forall i :: 0 <= i < |xss| ==> forall j :: 0 <= j < |xss[i]| ==> xss[i][j] != ""
    ensures forall k :: 0 <= k < |Concat(xss)| ==> Concat(xss)[k] != ""
  {
    if xss != [] {
      ConcatNonEmpty(xss[1..]);
      assert Concat(xss) == xss[0] + Concat(xss[1..]);
    }
  }

  /**
   * The urlset loop succeeds exactly when every entry has a `loc`; it then
   * yields the non-empty `loc[0]` values in document order, duplicates
   * kept, and no empty string.
   */
  lemma PageLocsInOrder(es: seq<Entry>)
    ensures PageLocs(es).Ok? <==> forall i :: 0 <= i < |es| ==> es[i].loc.Some?
    ensures PageLocs(es).Ok? ==> PageLocs(es).value == Concat(KeptLocs(es))
    ensures PageLocs(es).Ok? ==> forall k :: 0 <= k < |PageLocs(es).value| ==> PageLocs(es).value[k] != ""
  {
    PageLocsIsSequence(es);
    SequenceSpec(PageResults(es));
    if PageLocs(es).Ok? {
      assert Values(PageResults(es)) == KeptLocs(es);
      ConcatNonEmpty(KeptLocs(es));
    }
  }

  /** A document with both shapes yields the index-derived URLs before the urlset URLs. */
  lemma IndexBeforeUrlset(web: Web, fuel: nat, doc: Document)
    requires doc.sitemapindex.Some? && doc.urlset.Some?
    ensures Flatten(web, fuel, doc).Ok? <==>
              ResolveEntries(web, fuel, doc.sitemapindex.value).Ok? && PageLocs(doc.urlset.value).Ok?
    ensures Flatten(web, fuel, doc).Ok? ==>
              Flatten(web, fuel, doc).value
              == ResolveEntries(web, fuel, doc.sitemapindex.value).value + PageLocs(doc.urlset.value).value
  {
  }

  /**
   * `target` is fetched on the way down from `url`: it is `url` itself, or
   * it is reached through the index entries of a document fetched within
   * the depth bound.
   */
  ghost predicate Reaches(web: Web, fuel: nat, url: string, target: string)
    decreases fuel
  {
    url == target
    || (fuel > 0 && FetchSitemap(web, url).Ok? && FetchSitemap(web, url).value.sitemapindex.Some?
        && exists e :: e in FetchSitemap(web, url).value.sitemapindex.value && e.loc.Some? && FirstLoc(e) != ""
                       && Reaches(web, fuel - 1, FirstLoc(e), target))
  }

  /**
   * A failed fetch anywhere in the tree, the root or any nested sitemap,
   * fails the whole resolution: no partial list is returned.
   */
  lemma {:induction false} NestedFailureAborts(web: Web, fuel: nat, url: string, target: string)
    requires Reaches(web, fuel, url, target)
    requires FetchSitemap(web, target).Err?
    ensures Resolve(web, fuel, url).Err?
    decreases fuel
  {
    if url != target {
      var doc := FetchSitemap(web, url).value;
      var es := doc.sitemapindex.value;
      var e :| e in es && e.loc.Some? && FirstLoc(e) != "" && Reaches(web, fuel - 1, FirstLoc(e), target);
      NestedFailureAborts(web, fuel - 1, FirstLoc(e), target);
      var i :| 0 <= i < |es| && es[i] == e;
      IndexChildrenInOrder(web, fuel - 1, es);
    }
  }

  /**
   * The depth bound only ever cuts the walk short: a resolution that
   * succeeds within some depth gives the same list with any larger depth.
   */
  lemma {:induction false} ResolveMonotone(web: Web, fuel: nat, url: string)
    requires Resolve(web, fuel, url).Ok?
    ensures Resolve(web, fuel + 1, url) == Resolve(web, fuel, url)
    decreases fuel, 0, 0
  {
    var doc := FetchSitemap(web, url).value;
    FlattenMonotone(web, fuel - 1, doc);
  }

  /** Hence a resolution that succeeds within a depth bound gives the same list under every larger bound. */
  lemma {:induction false} ResolveStable(web: Web, fuel: nat, fuel': nat, url: string)
    requires fuel <= fuel' && Resolve(web, fuel, url).Ok?
    ensures Resolve(web, fuel', url) == Resolve(web, fuel, url)
    decreases fuel' - fuel
  {
    if fuel < fuel' {
      ResolveMonotone(web, fuel, url);
      ResolveStable(web, fuel + 1, fuel', url);
    }
  }

  lemma {:induction false} FlattenMonotone(web: Web, fuel: nat, doc: Document)
    requires Flatten(web, fuel, doc).Ok?
    ensures Flatten(web, fuel + 1, doc) == Flatten(web, fuel, doc)
    decreases fuel, 2, 0
  {
    if doc.sitemapindex.Some? {
      EntriesMonotone(web, fuel, doc.sitemapindex.value);
    }
  }

  lemma {:induction false} EntriesMonotone(web: Web, fuel: nat, es: seq<Entry>)
    requires ResolveEntries(web, fuel, es).Ok?
    ensures ResolveEntries(web, fuel + 1, es) == ResolveEntries(web, fuel, es)
    decreases fuel, 1, |es|
  {
    if es != [] {
      var n := |es| - 1;
      EntriesMonotone(web, fuel, es[..n]);
      var e := es[n];
      if e.loc.Some? && FirstLoc(e) != "" {
        ResolveMonotone(web, fuel, FirstLoc(e));
      }
    }
  }

  /**
   * A root index referencing two leaf sitemaps of two page URLs each
   * flattens to the four URLs, the first leaf's before the second's.
   */
  lemma TwoLeafTree()
    ensures var leaf1 := Document(None, Some([Entry(Some(["https://a.test/1"])), Entry(Some(["https://a.test/2"]))]));
            var leaf2 := Document(None, Some([Entry(Some(["https://b.test/1"])), Entry(Some(["https://b.test/2"]))]));
            var root := Document(Some([Entry(Some(["https://s.test/leaf1.xml"])), Entry(Some(["https://s.test/leaf2.xml"]))]), None);
            var web := map["https://s.test/index.xml" := Parsed(root),
                           "https://s.test/leaf1.xml" := Parsed(leaf1),
                           "https://s.test/leaf2.xml" := Parsed(leaf2)];
            Resolve(web, 2, "https://s.test/index.xml")
            == Ok(["https://a.test/1", "https://a.test/2", "https://b.test/1", "https://b.test/2"])
  {
    var leaf1 := Document(None, Some([Entry(Some(["https://a.test/1"])), Entry(Some(["https://a.test/2"]))]));
    var leaf2 := Document(None, Some([Entry(Some(["https://b.test/1"])), Entry(Some(["https://b.test/2"]))]));
    var rootEntries := [Entry(Some(["https://s.test/leaf1.xml"])), Entry(Some(["https://s.test/leaf2.xml"]))];
    var root := Document(Some(rootEntries), None);
    var web := map["https://s.test/index.xml" := Parsed(root),
                   "https://s.test/leaf1.xml" := Parsed(leaf1),
                   "https://s.test/leaf2.xml" := Parsed(leaf2)];
    TwoPages(Entry(Some(["https://a.test/1"])), Entry(Some(["https://a.test/2"])));
    TwoPages(Entry(Some(["https://b.test/1"])), Entry(Some(["https://b.test/2"])));
    var a := ["https://a.test/1", "https://a.test/2"];
    var b := ["https://b.test/1", "https://b.test/2"];
    assert FetchSitemap(web, "https://s.test/leaf1.xml") == Ok(leaf1);
    assert FetchSitemap(web, "https://s.test/leaf2.xml") == Ok(leaf2);
    assert FetchSitemap(web, "https://s.test/index.xml") == Ok(root);
    assert [] + a == a && [] + b == b;
    assert Flatten(web, 0, leaf1) == Ok(a);
    assert Flatten(web, 0, leaf2) == Ok(b);
    assert ResolveEntry(web, 1, rootEntries[0]) == Ok(a);
    assert ResolveEntry(web, 1, rootEntries[1]) == Ok(b);
    assert rootEntries[..1] == [rootEntries[0]];
    assert ResolveEntries(web, 1, []) == Ok([]);
    assert ResolveEntries(web, 1, rootEntries[..1]) == Ok(a);
    assert ResolveEntries(web, 1, rootEntries) == Ok(a + b);
    assert a + b + [] == a + b;
    assert a + b == ["https://a.test/1", "https://a.test/2", "https://b.test/1", "https://b.test/2"];
  }

  lemma TwoPages(e1: Entry, e2: Entry)
    requires e1.loc.Some? && |e1.loc.value| > 0 && e1.loc.value[0] != ""
    requires e2.loc.Some? && |e2.loc.value| > 0 && e2.loc.value[0] != ""
    ensures PageLocs([e1, e2]) == Ok([e1.loc.value[0], e2.loc.value[0]])
  {
    var u1, u2 := e1.loc.value[0], e2.loc.value[0];
    assert [e1, e2][..1] == [e1];
    assert [e1][..0] == [];
    assert PageLoc(e1) == Ok([u1]) && PageLoc(e2) == Ok([u2]);
    assert PageLocs([e1]) == AndThen(PageLocs([]), PageLoc(e1));
    assert [] + [u1] == [u1];
    assert PageLocs([e1]) == Ok([u1]);
    assert PageLocs([e1, e2]) == AndThen(PageLocs([e1]), PageLoc(e2));
    assert [u1] + [u2] == [u1, u2];
  }

  // ---------------------------------------------------------------------
  // The imperative resolver.

  /** `fetchSitemap(url)` then `parseSitemap` on its body. */
  method ResolveSitemap(web: Web, fuel: nat, url: string) returns (r: Result<seq<string>, Error>)
    ensures r == Resolve(web, fuel, url)
    decreases fuel, 0
  {
    if fuel == 0 {
      return Err(DepthExceeded(url));
    }
    var fetched := FetchSitemap(web, url);
    if fetched.Err? {
      return Err(fetched.error);
    }
    r := ParseSitemap(web, fuel - 1, fetched.value);
  }

  /**
   * `parseSitemap`: the index entries are resolved one after the other and
   * their URLs pushed on `urls`; then the urlset entries' `loc[0]`.
   */
  method ParseSitemap(web: Web, fuel: nat, doc: Document) returns (r: Result<seq<string>, Error>)
    ensures r == Flatten(web, fuel, doc)
    decreases fuel, 2
  {
    var urls: seq<string> := [];
    if doc.sitemapindex.Some? {
      var nested := ResolveIndexEntries(web, fuel, doc.sitemapindex.value);
      if nested.Err? {
        return nested;
      }
      urls := nested.value;
    }
    if doc.urlset.Some? {
      var pages := CollectPageLocs(doc.urlset.value);
      if pages.Err? {
        return pages;
      }
      urls := urls + pages.value;
    } else {
      assert urls + [] == urls;
    }
    return Ok(urls);
  }

  /** The `for (const sitemap of parsed.sitemapindex.sitemap)` loop. */
  method ResolveIndexEntries(web: Web, fuel: nat, entries: seq<Entry>) returns (r: Result<seq<string>, Error>)
    ensures r == ResolveEntries(web, fuel, entries)
    decreases fuel, 1
  {
    var urls: seq<string> := [];
    ResolveEntriesIsSequence(web, fuel, entries);
    for k := 0 to |entries|
      invariant ResolveEntries(web, fuel, entries[..k]) == Ok(urls)
    {
      assert entries[..k + 1][..k] == entries[..k];
      var entry := entries[k];
      if entry.loc.None? {
        FailureInPrefix(web, fuel, entries, k + 1);
        return Err(MissingLoc);
      }
      var sitemapUrl := FirstLoc(entry);
      if sitemapUrl == "" {
        assert urls + [] == urls;
        continue;
      }
      var nested := ResolveSitemap(web, fuel, sitemapUrl);
      if nested.Err? {
        FailureInPrefix(web, fuel, entries, k + 1);
        return nested;
      }
      urls := urls + nested.value;
    }
    assert entries[..|entries|] == entries;
    return Ok(urls);
  }

  lemma FailureInPrefix(web: Web, fuel: nat, entries: seq<Entry>, k: nat)
    requires k <= |entries| && ResolveEntries(web, fuel, entries[..k]).Err?
    ensures ResolveEntries(web, fuel, entries) == ResolveEntries(web, fuel, entries[..k])
  {
    ResolveEntriesIsSequence(web, fuel, entries);
    ResolveEntriesIsSequence(web, fuel, entries[..k]);
    assert EntryResults(web, fuel, entries)[..k] == EntryResults(web, fuel, entries[..k]);
    SequencePrefixErr(EntryResults(web, fuel, entries), k);
  }

  /** The `for (const urlEntry of parsed.urlset.url)` loop. */
  method CollectPageLocs(entries: seq<Entry>) returns (r: Result<seq<string>, Error>)
    ensures r == PageLocs(entries)
  {
    var urls: seq<string> := [];
    for k := 0 to |entries|
      invariant PageLocs(entries[..k]) == Ok(urls)
    {
      assert entries[..k + 1][..k] == entries[..k];
      var entry := entries[k];
      if entry.loc.None? {
        PageLocsIsSequence(entries);
        PageLocsIsSequence(entries[..k + 1]);
        assert PageResults(entries)[..k + 1] == PageResults(entries[..k + 1]);
        SequencePrefixErr(PageResults(entries), k + 1);
        return Err(MissingLoc);
      }
      if FirstLoc(entry) == "" {
        assert urls + [] == urls;
        continue;
      }
      urls := urls + [FirstLoc(entry)];
    }
    assert entries[..|entries|] == entries;
    return Ok(urls);
  }
}
