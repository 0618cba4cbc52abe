/**
 * The prompt generator's own sitemap walk, which reads sitemaps as text:
 * `extractUrls` collects the `<loc>` of every `<tag>` element with the
 * global pattern `<tag>\s*<loc>([^<]+)</loc>`, `isSitemapIndex` looks for
 * `<sitemapindex`, and `processSitemap` recurses through index documents
 * and hands each accepted page URL to a callback.
 */
module SitemapScan {
  import opened Common
  import opened Text
  import opened IntegrationUrl

  /** A tag name spliced into the pattern; the script uses `sitemap` and `url`, which hold no regex syntax. */
  predicate IsTagName(tag: string)
  {
    tag != [] && forall k :: 0 <= k < |tag| ==> 'a' <= tag[k] <= 'z'
  }

  /** Length of the run of white space that a greedy `\s*` takes. */
  function SpaceRun(s: string): (n: nat)
    ensures n <= |s|
    ensures forall k :: 0 <= k < n ==> IsSpace(s[k])
    ensures n == |s| || !IsSpace(s[n])
  {
    if s != [] && IsSpace(s[0]) then 1 + SpaceRun(s[1..]) else 0
  }

  /** A match: the text of group 1 and the length of the whole match. */
  datatype Hit = Hit(text: string, len: nat)

  /**
   * The pattern tried at the very start of `s`: the captured `loc` text and
   * the length of the whole match. Neither greedy run can give back a
   * character and still match, since what follows each starts with `<`,
   * so trying only the longest runs loses no match.
   */
  function MatchLocAt(s: string, tag: string): (r: Option<Hit>)
    ensures r.Some? ==> r.value.text != [] && '<' !in r.value.text && 0 < r.value.len <= |s|
  {
    var open := "<" + tag + ">";
    if !StartsWith(s, open) then None
    else
      match LocElement(s[|open|..])
      case None => None
      case Some(m) => Some(Hit(m.text, |open| + m.len))
  }

  /** `\s*<loc>([^<]+)</loc>`. */
  function LocElement(a: string): (r: Option<Hit>)
    ensures r.Some? ==> r.value.text != [] && '<' !in r.value.text && r.value.len <= |a|
  {
    var w := SpaceRun(a);
    if !StartsWith(a[w..], "<loc>") then None
    else
      match LocText(a[w + 5..])
      case None => None
      case Some(m) => Some(Hit(m.text, w + 5 + m.len))
  }

  /** `([^<]+)</loc>`. */
  function LocText(c: string): (r: Option<Hit>)
    ensures r.Some? ==> r.value.text != [] && '<' !in r.value.text && r.value.len <= |c|
  {
    var n := IndexOf(c, '<');
    if n == 0 || !StartsWith(c[n..], "</loc>") then None
    else
      assert forall x :: x in c[..n] ==> x != '<';
      Some(Hit(c[..n], n + 6))
  }

  /**
   * `xml.matchAll(regex)`, group 1 of each match: the search resumes where
   * the previous match ended and otherwise moves on one character at a time.
   */
  function LocMatches(s: string, tag: string): (ms: seq<string>)
    ensures forall k :: 0 <= k < |ms| ==> ms[k] != [] && '<' !in ms[k]
    decreases |s|
  {
    if s == [] then []
    else match MatchLocAt(s, tag)
      case Some(m) => [m.text] + LocMatches(s[m.len..], tag)
      case None => LocMatches(s[1..], tag)
  }

  /** What `extractUrls` returns: each match's group 1, trimmed, in document order. */
  function ExtractedUrls(xml: string, tag: string): (urls: seq<string>)
    ensures |urls| == |LocMatches(xml, tag)|
    ensures forall k :: 0 <= k < |urls| ==> IsTrimmed(urls[k]) && '<' !in urls[k]
  {
    var ms := LocMatches(xml, tag);
    seq(|ms|, k requires 0 <= k < |ms| => TrimNoLt(ms[k]))
  }

  /** The URL at each position is the match at that position, trimmed. */
  lemma ExtractedUrlsOfMatches(xml: string, tag: string)
    ensures forall k :: 0 <= k < |ExtractedUrls(xml, tag)| ==>
              ExtractedUrls(xml, tag)[k] == Trim(LocMatches(xml, tag)[k])
  {
  }

  /** Trimming keeps out any character the untrimmed text did not hold. */
  function TrimNoLt(m: string): (r: string)
    requires '<' !in m
    ensures r == Trim(m) && '<' !in r
  {
    var r := Trim(m);
    TrimIsSlice(m);
    var i :| SpaceAround(m, r, i);
    assert forall x :: x in r ==> x in m by {
      forall x | x in r ensures x in m {
        var k :| 0 <= k < |r| && r[k] == x;
        assert m[i + k] == x;
      }
    }
    r
  }

  /** `extractUrls`: the match loop pushing each trimmed group. */
  method ExtractUrls(xml: string, tag: string) returns (urls: seq<string>)
    ensures urls == ExtractedUrls(xml, tag)
  {
    var matches := LocMatches(xml, tag);
    urls := [];
    for k := 0 to |matches|
      invariant urls == ExtractedUrls(xml, tag)[..k]
    {
      if matches[k] != [] {
        urls := urls + [Trim(matches[k])];
      }
    }
  }

  predicate AllSpace(ws: string)
  {
    forall k :: 0 <= k < |ws| ==> IsSpace(ws[k])
  }

  /** After an opening `<tag>`, the match is the element body's. */
  lemma MatchAfterOpen(s: string, tag: string, body: string, text: string, len: nat, n: nat)
    requires s == "<" + tag + ">" + body
    requires LocElement(body) == Some(Hit(text, len)) && n == |tag| + 2 + len
    ensures MatchLocAt(s, tag) == Some(Hit(text, n))
  {
    var open := "<" + tag + ">";
    assert s[..|open|] == open && s[|open|..] == body;
  }

  lemma LocElementRendered(ws: string, loc: string, rest: string)
    requires AllSpace(ws) && loc != [] && '<' !in loc
    ensures LocElement(ws + ("<loc>" + (loc + ("</loc>" + rest)))) == Some(Hit(loc, |ws| + 5 + |loc| + 6))
  {
    var a := ws + ("<loc>" + (loc + ("</loc>" + rest)));
    var b := "<loc>" + (loc + ("</loc>" + rest));
    SpaceRunExact(ws, b);
    assert a[|ws|..] == b;
    assert b[..5] == "<loc>";
    assert a[|ws| + 5..] == loc + ("</loc>" + rest);
    LocTextRendered(loc, rest);
  }

  lemma LocTextRendered(loc: string, rest: string)
    requires loc != [] && '<' !in loc
    ensures LocText(loc + ("</loc>" + rest)) == Some(Hit(loc, |loc| + 6))
  {
    var c := loc + ("</loc>" + rest);
    assert forall k :: 0 <= k < |loc| ==> loc[k] in loc;
    assert c[|loc|] == '<';
    IndexOfAt(c, '<', |loc|);
    assert c[..|loc|] == loc;
    assert c[|loc|..] == "</loc>" + rest;
    assert c[|loc|..][..6] == "</loc>";
  }

  lemma {:induction false} SpaceRunExact(ws: string, rest: string)
    requires AllSpace(ws) && rest != [] && !IsSpace(rest[0])
    ensures SpaceRun(ws + rest) == |ws|
  {
    if ws != [] {
      assert (ws + rest)[1..] == ws[1..] + rest;
      SpaceRunExact(ws[1..], rest);
    }
  }

  /**
   * `s` starts with a match of `<tag>\s*<loc>([^<]+)</loc>` whose white
   * space is `ws` and whose group 1 is `text`.
   */
  predicate LocShaped(s: string, tag: string, ws: string, text: string)
  {
    AllSpace(ws) && text != [] && '<' !in text
    && StartsWith(s, "<" + tag + ">" + ws + "<loc>" + text + "</loc>")
  }

  /** What the matcher finds at the start of `s` is a match of the pattern, and its length is the whole match's. */
  lemma MatchLocAtSound(s: string, tag: string, text: string, len: nat)
    requires MatchLocAt(s, tag) == Some(Hit(text, len))
    ensures exists ws :: LocShaped(s, tag, ws, text) && len == |tag| + |ws| + |text| + 13
  {
    var open := "<" + tag + ">";
    StartsSplit(s, open);
    var a := s[|open|..];
    var e := LocElement(a).value;
    assert text == e.text && len == |open| + e.len;
    var ws := LocElementParts(a, e.text, e.len);
    StartsChain(s, open, ws, "<loc>", text, "</loc>", a[e.len..]);
    assert LocShaped(s, tag, ws, text);
  }

  /** The pieces of a `\s*<loc>([^<]+)</loc>` match. */
  lemma LocElementParts(a: string, text: string, len: nat) returns (ws: string)
    requires LocElement(a) == Some(Hit(text, len))
    ensures AllSpace(ws) && len == |ws| + 5 + |text| + 6
    ensures a == ws + ("<loc>" + (text + ("</loc>" + a[len..])))
  {
    var w := SpaceRun(a);
    ws := a[..w];
    var m := LocText(a[w + 5..]).value;
    assert StartsWith(a[w..], "<loc>") && m.text == text && len == w + 5 + m.len;
    LocTextParts(a[w + 5..], text, m.len);
    Glue(a, w, ws, "<loc>", text, "</loc>", m.len, len);
  }

  /** `a` read as its first `w` characters, then `p`, `t`, `q` and the rest. */
  lemma Glue(a: string, w: nat, ws: string, p: string, t: string, q: string, m: nat, n: nat)
    requires w <= |a| && ws == a[..w] && StartsWith(a[w..], p) && n == w + |p| + m && n <= |a|
    requires a[w + |p|..] == t + (q + a[w + |p|..][m..])
    ensures a == ws + (p + (t + (q + a[n..])))
  {
    assert a == a[..w] + a[w..];
    assert a[w..] == p + a[w + |p|..];
    assert a[w + |p|..][m..] == a[n..];
  }

  /** The pieces of a `([^<]+)</loc>` match. */
  lemma LocTextParts(c: string, text: string, len: nat)
    requires LocText(c) == Some(Hit(text, len))
    ensures len == |text| + 6 && c == text + ("</loc>" + c[len..])
  {
    var n := IndexOf(c, '<');
    var d := c[n..];
    StartsSplit(d, "</loc>");
    assert c == c[..n] + d;
    assert c[n + 6..] == d[6..];
  }

  lemma StartsSplit(x: string, p: string)
    requires StartsWith(x, p)
    ensures x == p + x[|p|..]
  {
    assert x == x[..|p|] + x[|p|..];
  }

  lemma StartsChain(s: string, a: string, b: string, c: string, d: string, e: string, tail: string)
    requires s == a + (b + (c + (d + (e + tail))))
    ensures StartsWith(s, a + b + c + d + e) && s[|a + b + c + d + e|..] == tail
  {
    var p := a + b + c + d + e;
    assert s == p + tail;
    assert s[..|p|] == p;
  }

  /** Any match of the pattern at the start of `s` is the one the matcher finds. */
  lemma MatchLocAtComplete(s: string, tag: string, ws: string, text: string)
    requires LocShaped(s, tag, ws, text)
    ensures MatchLocAt(s, tag) == Some(Hit(text, |tag| + |ws| + |text| + 13))
  {
    var p := "<" + tag + ">" + ws + "<loc>" + text + "</loc>";
    var rest := s[|p|..];
    var body := ws + ("<loc>" + (text + ("</loc>" + rest)));
    assert s == p + rest;
    assert s == "<" + tag + ">" + body;
    LocElementRendered(ws, text, rest);
    MatchAfterOpen(s, tag, body, text, |ws| + 5 + |text| + 6, |tag| + |ws| + |text| + 13);
  }

  /**
   * The matcher is the pattern anchored at the start: it gives group 1
   * `text` and match length `len` exactly when `s` starts with a match of
   * that text and that length.
   */
  lemma MatchLocAtIff(s: string, tag: string, text: string, len: nat)
    ensures MatchLocAt(s, tag) == Some(Hit(text, len)) <==>
              exists ws :: LocShaped(s, tag, ws, text) && len == |tag| + |ws| + |text| + 13
  {
    assert MatchLocAt(s, tag) == Some(Hit(text, len)) ==>
             exists ws :: LocShaped(s, tag, ws, text) && len == |tag| + |ws| + |text| + 13 by {
      if MatchLocAt(s, tag) == Some(Hit(text, len)) {
        MatchLocAtSound(s, tag, text, len);
      }
    }
    forall ws | LocShaped(s, tag, ws, text) && len == |tag| + |ws| + |text| + 13
      ensures MatchLocAt(s, tag) == Some(Hit(text, len))
    {
      MatchLocAtComplete(s, tag, ws, text);
    }
  }

  /** Offsets at which no match starts are passed over one by one. */
  lemma {:induction false} LocMatchesSkip(s: string, tag: string, i: nat)
    requires i <= |s| && forall j {:trigger MatchLocAt(s[j..], tag)} :: 0 <= j < i ==> MatchLocAt(s[j..], tag).None?
    ensures LocMatches(s, tag) == LocMatches(s[i..], tag)
  {
    if i > 0 {
      assert s[0..] == s;
      var t := s[1..];
      forall j | 0 <= j < i - 1 ensures MatchLocAt(t[j..], tag).None? {
        assert t[j..] == s[j + 1..];
      }
      LocMatchesSkip(t, tag, i - 1);
      assert t[i - 1..] == s[i..];
    }
  }

  /** A matching offset has a leftmost matching offset at or before it. */
  lemma {:induction false} LeftmostMatch(s: string, tag: string, i: nat)
    requires i <= |s| && MatchLocAt(s[i..], tag).Some?
    ensures exists i0 :: 0 <= i0 <= i && MatchLocAt(s[i0..], tag).Some?
                         && forall j {:trigger MatchLocAt(s[j..], tag)} :: 0 <= j < i0 ==> MatchLocAt(s[j..], tag).None?
  {
    if exists j :: 0 <= j < i && MatchLocAt(s[j..], tag).Some? {
      var j :| 0 <= j < i && MatchLocAt(s[j..], tag).Some?;
      LeftmostMatch(s, tag, j);
    }
  }

  /**
   * `matchAll` over the global pattern: the first item is group 1 of the
   * match at the leftmost matching offset, and the scan resumes where that
   * match ends.
   */
  lemma LocMatchesFirst(s: string, tag: string, i: nat)
    requires i <= |s| && MatchLocAt(s[i..], tag).Some?
    requires forall j {:trigger MatchLocAt(s[j..], tag)} :: 0 <= j < i ==> MatchLocAt(s[j..], tag).None?
    ensures LocMatches(s, tag)
            == [MatchLocAt(s[i..], tag).value.text] + LocMatches(s[i + MatchLocAt(s[i..], tag).value.len..], tag)
  {
    var h := MatchLocAt(s[i..], tag).value;
    assert s[i..][h.len..] == s[i + h.len..];
    LocMatchesStep(s[i..], tag, h.text, h.len, s[i + h.len..]);
    LocMatchesSkip(s, tag, i);
  }

  /** The scan finds nothing exactly when the pattern matches at no offset. */
  lemma LocMatchesEmpty(s: string, tag: string)
    ensures LocMatches(s, tag) == [] <==> forall i :: 0 <= i <= |s| ==> MatchLocAt(s[i..], tag).None?
  {
    if forall i :: 0 <= i <= |s| ==> MatchLocAt(s[i..], tag).None? {
      LocMatchesSkip(s, tag, |s|);
    } else {
      var i :| 0 <= i <= |s| && MatchLocAt(s[i..], tag).Some?;
      LeftmostMatch(s, tag, i);
      var i0 :| 0 <= i0 <= i && MatchLocAt(s[i0..], tag).Some?
                && forall j {:trigger MatchLocAt(s[j..], tag)} :: 0 <= j < i0 ==> MatchLocAt(s[j..], tag).None?;
      LocMatchesFirst(s, tag, i0);
    }
  }

  /**
   * Text without an opening `<tag>` cannot start a match, even one that
   * would run on into what follows, as long as that starts with `<`.
   */
  lemma {:induction false} SkipFiller(u: string, rest: string, tag: string)
    requires IsTagName(tag) && !Contains(u, "<" + tag + ">") && (rest == [] || rest[0] == '<')
    ensures LocMatches(u + rest, tag) == LocMatches(rest, tag)
  {
    var open := "<" + tag + ">";
    if u == [] {
      assert u + rest == rest;
    } else {
      var s := u + rest;
      assert !StartsWith(s, open) by {
        if |open| <= |u| {
          assert s[..|open|] == u[..|open|];
          assert !OccursAt(u, open, 0);
        } else if |open| <= |s| {
          assert s[|u|] == rest[0];
          assert open[|u|] != '<' by {
            if |u| <= |tag| { assert open[|u|] == tag[|u| - 1]; }
          }
          assert s[..|open|][|u|] == s[|u|];
        }
      }
      assert s[1..] == u[1..] + rest;
      assert !Contains(u[1..], open) by {
        forall i | 0 <= i <= |u[1..]| - |open| ensures !OccursAt(u[1..], open, i) {
          assert u[1..][i..i + |open|] == u[i + 1..i + 1 + |open|];
          assert !OccursAt(u, open, i + 1);
        }
      }
      SkipFiller(u[1..], rest, tag);
    }
  }

  /**
   * One `<tag>` element as a sitemap holds it: the white space before
   * `<loc>`, the `<loc>` text, and everything after `</loc>` up to the next
   * element (`<lastmod>`, the closing tag, line breaks, …).
   */
  datatype Element = Element(ws: string, loc: string, after: string)

  /** An element, then `rest`. */
  function ElementThen(tag: string, e: Element, rest: string): string
  {
    "<" + tag + ">" + (e.ws + ("<loc>" + (e.loc + ("</loc>" + (e.after + rest)))))
  }

  /** Elements one after the other. */
  function Elements(tag: string, es: seq<Element>): string
  {
    if es == [] then [] else ElementThen(tag, es[0], Elements(tag, es[1..]))
  }

  /**
   * An element the pattern matches as written: white space before `<loc>`,
   * a non-empty text without `<`, and no `<tag>` in what follows it.
   */
  predicate Matchable(tag: string, e: Element)
  {
    AllSpace(e.ws) && e.loc != [] && '<' !in e.loc && !Contains(e.after, "<" + tag + ">")
  }

  function Locs(es: seq<Element>): (ls: seq<string>)
    ensures |ls| == |es| && forall k :: 0 <= k < |es| ==> ls[k] == es[k].loc
  {
    if es == [] then [] else [es[0].loc] + Locs(es[1..])
  }

  lemma LocMatchesStep(s: string, tag: string, text: string, n: nat, tail: string)
    requires MatchLocAt(s, tag) == Some(Hit(text, n)) && n <= |s| && s[n..] == tail
    ensures LocMatches(s, tag) == [text] + LocMatches(tail, tag)
  {
  }

  /** The scan takes an element's text and carries on at what follows it. */
  lemma ElementStep(tag: string, e: Element, rest: string)
    requires IsTagName(tag) && Matchable(tag, e) && (rest == [] || rest[0] == '<')
    ensures LocMatches(ElementThen(tag, e, rest), tag) == [e.loc] + LocMatches(rest, tag)
  {
    var n := |tag| + |e.ws| + |e.loc| + 13;
    var tail := e.after + rest;
    LocElementRendered(e.ws, e.loc, tail);
    MatchAfterOpen(ElementThen(tag, e, rest), tag, e.ws + ("<loc>" + (e.loc + ("</loc>" + tail))),
                   e.loc, |e.ws| + 5 + |e.loc| + 6, n);
    ElementTail(tag, e, rest, n);
    LocMatchesStep(ElementThen(tag, e, rest), tag, e.loc, n, tail);
    SkipFiller(e.after, rest, tag);
  }

  lemma ElementTail(tag: string, e: Element, rest: string, n: nat)
    requires n == |tag| + |e.ws| + |e.loc| + 13
    ensures n <= |ElementThen(tag, e, rest)| && ElementThen(tag, e, rest)[n..] == e.after + rest
  {
  }

  /** The scan finds back the text of every element, in order, duplicates included. */
  lemma {:induction false} LocMatchesElements(tag: string, es: seq<Element>)
    requires IsTagName(tag) && forall k :: 0 <= k < |es| ==> Matchable(tag, es[k])
    ensures LocMatches(Elements(tag, es), tag) == Locs(es)
  {
    if es != [] {
      ElementStep(tag, es[0], Elements(tag, es[1..]));
      var rest := es[1..];
      assert forall k :: 0 <= k < |rest| ==> rest[k] == es[k + 1];
      LocMatchesElements(tag, rest);
    }
  }

  /**
   * `extractUrls` on a document made of text without `<tag>` followed by
   * matchable elements gives one URL per element, in order: its `<loc>`
   * text, trimmed.
   */
  lemma ExtractElements(tag: string, lead: string, es: seq<Element>)
    requires IsTagName(tag) && !Contains(lead, "<" + tag + ">")
    requires forall k :: 0 <= k < |es| ==> Matchable(tag, es[k])
    ensures |ExtractedUrls(lead + Elements(tag, es), tag)| == |es|
    ensures forall k :: 0 <= k < |es| ==> ExtractedUrls(lead + Elements(tag, es), tag)[k] == Trim(es[k].loc)
  {
    assert Elements(tag, es) == [] || Elements(tag, es)[0] == '<';
    SkipFiller(lead, Elements(tag, es), tag);
    LocMatchesElements(tag, es);
    ExtractedUrlsOfMatches(lead + Elements(tag, es), tag);
  }

  /** `isSitemapIndex`. */
  predicate IsSitemapIndex(xml: string)
  {
    Contains(xml, "<sitemapindex")
  }

  /** Sitemap bodies by URL; a URL that is absent is one whose fetch is not ok, so `fetchXml` throws. */
  type Pages = map<string, string>

  /** The arguments of one callback invocation. */
  datatype Call = Call(url: string, product1: string, product2: string)

  datatype Failure = FetchFailed(url: string) | DepthExceeded(url: string)

  /** The callbacks made, in order, and the exception that ended the walk, if one did. */
  datatype Outcome = Outcome(calls: seq<Call>, failure: Option<Failure>)

  /** Two walks one after the other: after a throw the second never starts. */
  function Then(a: Outcome, b: Outcome): Outcome
  {
    if a.failure.Some? then a else Outcome(a.calls + b.calls, b.failure)
  }

  /** `pageUrls.filter(filter)` when a filter is given. */
  function Filtered(urls: seq<string>, filter: Option<string -> bool>): (r: seq<string>)
    ensures filter.None? ==> r == urls
    ensures filter.Some? ==> forall k :: 0 <= k < |r| ==> filter.value(r[k])
    ensures |r| <= |urls|
  {
    if filter.None? || urls == [] then urls
    else
      var rest := Filtered(urls[1..], filter);
      if filter.value(urls[0]) then [urls[0]] + rest else rest
  }

  /** The callbacks for a page list: one per URL that `parseIntegrationUrl` accepts, in list order. */
  function PageCalls(urls: seq<string>): seq<Call>
  {
    if urls == [] then []
    else
      var p := ParseIntegrationUrl(urls[|urls| - 1]);
      PageCalls(urls[..|urls| - 1])
        + (if p.Some? then [Call(urls[|urls| - 1], p.value.product1, p.value.product2)] else [])
  }

  /**
   * `processSitemap(url, callback, { filter })`. The fuel bounds the depth of
   * index nesting, which the script itself leaves unbounded.
   */
  function Process(pages: Pages, fuel: nat, url: string, filter: Option<string -> bool>): Outcome
    decreases fuel, 0, 0
  {
    if fuel == 0 then Outcome([], Some(DepthExceeded(url)))
    else if url !in pages then Outcome([], Some(FetchFailed(url)))
    else
      var xml := pages[url];
      if IsSitemapIndex(xml) then ProcessAll(pages, fuel - 1, ExtractedUrls(xml, "sitemap"), filter)
      else Outcome(PageCalls(Filtered(ExtractedUrls(xml, "url"), filter)), None)
  }

  /** `for (const url of sitemapUrls) await processSitemap(url, …)`. */
  function ProcessAll(pages: Pages, fuel: nat, urls: seq<string>, filter: Option<string -> bool>): Outcome
    decreases fuel, 1, |urls|
  {
    if urls == [] then Outcome([], None)
    else Then(ProcessAll(pages, fuel, urls[..|urls| - 1], filter), Process(pages, fuel, urls[|urls| - 1], filter))
  }

  /**
   * Page calls follow the page list: the calls for a list are the calls for
   * its parts in order, and one URL gives one call, with its parsed
   * products, exactly when it parses.
   */
  lemma {:induction false} PageCallsAppend(a: seq<string>, b: seq<string>)
    ensures PageCalls(a + b) == PageCalls(a) + PageCalls(b)
    decreases |b|
  {
    if b == [] {
      assert a + b == a;
    } else {
      var n := |b| - 1;
      assert (a + b)[..|a + b| - 1] == a + b[..n];
      assert (a + b)[|a + b| - 1] == b[n];
      PageCallsAppend(a, b[..n]);
    }
  }

  lemma PageCallsOne(u: string)
    ensures PageCalls([u]) == (match ParseIntegrationUrl(u)
                               case None => []
                               case Some(p) => [Call(u, p.product1, p.product2)])
  {
    assert [u][..0] == [];
  }

  /** Filtering keeps order: the kept URLs of a list are those of its two parts, one after the other. */
  lemma {:induction false} FilteredAppend(a: seq<string>, b: seq<string>, filter: Option<string -> bool>)
    ensures Filtered(a + b, filter) == Filtered(a, filter) + Filtered(b, filter)
  {
    if a == [] {
      assert a + b == b;
    } else if filter.Some? {
      assert (a + b)[0] == a[0] && (a + b)[1..] == a[1..] + b;
      FilteredAppend(a[1..], b, filter);
    }
  }

  /** One URL is kept exactly when there is no filter or the filter accepts it. */
  lemma FilteredOne(u: string, filter: Option<string -> bool>)
    ensures Filtered([u], filter) == if filter.None? || filter.value(u) then [u] else []
  {
    assert [u][1..] == [];
  }

  /** The callback one page URL gives: one call when it passes the filter and parses, none otherwise. */
  function AcceptedCall(u: string, filter: Option<string -> bool>): seq<Call>
  {
    if (filter.None? || filter.value(u)) && ParseIntegrationUrl(u).Some?
    then [Call(u, ParseIntegrationUrl(u).value.product1, ParseIntegrationUrl(u).value.product2)]
    else []
  }

  /** URL by URL, in list order, the callbacks that filtering then parsing give. */
  function AcceptedCalls(urls: seq<string>, filter: Option<string -> bool>): seq<Call>
  {
    if urls == [] then [] else AcceptedCall(urls[0], filter) + AcceptedCalls(urls[1..], filter)
  }

  /** Filtering, then calling back for the URLs that parse, is the URL-by-URL reference. */
  lemma {:induction false} PageCallsFiltered(urls: seq<string>, filter: Option<string -> bool>)
    ensures PageCalls(Filtered(urls, filter)) == AcceptedCalls(urls, filter)
  {
    if urls != [] {
      var u := urls[0];
      assert urls == [u] + urls[1..];
      FilteredAppend([u], urls[1..], filter);
      FilteredOne(u, filter);
      PageCallsAppend(Filtered([u], filter), Filtered(urls[1..], filter));
      if filter.None? || filter.value(u) {
        PageCallsOne(u);
      }
      PageCallsFiltered(urls[1..], filter);
    }
  }

  /** Every URL that passes the filter and parses gets its callback, with its products. */
  lemma {:induction false} AcceptedCallsComplete(urls: seq<string>, filter: Option<string -> bool>)
    ensures forall k :: 0 <= k < |urls| && (filter.None? || filter.value(urls[k])) && ParseIntegrationUrl(urls[k]).Some? ==>
              Call(urls[k], ParseIntegrationUrl(urls[k]).value.product1, ParseIntegrationUrl(urls[k]).value.product2)
                in AcceptedCalls(urls, filter)
  {
    if urls != [] {
      AcceptedCallsComplete(urls[1..], filter);
      assert forall k :: 1 <= k < |urls| ==> urls[k] == urls[1..][k - 1];
    }
  }

  /**
   * A page sitemap (not an index) that is fetched gives one callback per
   * URL of its `<url>` elements that passes the filter and parses, in
   * document order, and does not throw.
   */
  lemma ProcessPage(pages: Pages, fuel: nat, url: string, filter: Option<string -> bool>)
    requires fuel > 0 && url in pages && !IsSitemapIndex(pages[url])
    ensures Process(pages, fuel, url, filter) == Outcome(AcceptedCalls(ExtractedUrls(pages[url], "url"), filter), None)
  {
    PageCallsFiltered(ExtractedUrls(pages[url], "url"), filter);
  }

  /** Every callback names a URL of the list that parsed, with the two products the parse gave. */
  lemma {:induction false} PageCallsParsed(urls: seq<string>)
    ensures forall c :: c in PageCalls(urls) ==>
              c.url in urls && ParseIntegrationUrl(c.url) == Some(Products(c.product1, c.product2))
  {
    if urls != [] {
      var init := urls[..|urls| - 1];
      PageCallsParsed(init);
      assert forall u :: u in init ==> u in urls;
    }
  }

  /**
   * Whatever the walk, every callback is for a URL that passed the filter
   * and that `parseIntegrationUrl` accepted, and carries its products.
   */
  lemma {:induction false} ProcessCallsAccepted(pages: Pages, fuel: nat, url: string, filter: Option<string -> bool>)
    ensures forall c :: c in Process(pages, fuel, url, filter).calls ==>
              (filter.Some? ==> filter.value(c.url))
              && ParseIntegrationUrl(c.url) == Some(Products(c.product1, c.product2))
    decreases fuel, 0, 0
  {
    if fuel > 0 && url in pages {
      var xml := pages[url];
      if IsSitemapIndex(xml) {
        ProcessAllCallsAccepted(pages, fuel - 1, ExtractedUrls(xml, "sitemap"), filter);
      } else {
        var kept := Filtered(ExtractedUrls(xml, "url"), filter);
        PageCallsParsed(kept);
        forall c | c in PageCalls(kept) ensures filter.Some? ==> filter.value(c.url) {
          var k :| 0 <= k < |kept| && kept[k] == c.url;
        }
      }
    }
  }

  lemma {:induction false} ProcessAllCallsAccepted(pages: Pages, fuel: nat, urls: seq<string>, filter: Option<string -> bool>)
    ensures forall c :: c in ProcessAll(pages, fuel, urls, filter).calls ==>
              (filter.Some? ==> filter.value(c.url))
              && ParseIntegrationUrl(c.url) == Some(Products(c.product1, c.product2))
    decreases fuel, 1, |urls|
  {
    if urls != [] {
      ProcessAllCallsAccepted(pages, fuel, urls[..|urls| - 1], filter);
      ProcessCallsAccepted(pages, fuel, urls[|urls| - 1], filter);
    }
  }

  /** The child walks of an index, in listed order. */
  function ChildOutcomes(pages: Pages, fuel: nat, urls: seq<string>, filter: Option<string -> bool>): (os: seq<Outcome>)
    ensures |os| == |urls|
  {
    seq(|urls|, k requires 0 <= k < |urls| => Process(pages, fuel, urls[k], filter))
  }

  /** Walks run one after another, stopping at the first throw. */
  function ThenAll(os: seq<Outcome>): Outcome
  {
    if os == [] then Outcome([], None) else Then(ThenAll(os[..|os| - 1]), os[|os| - 1])
  }

  function CallsOf(os: seq<Outcome>): seq<seq<Call>>
  {
    seq(|os|, k requires 0 <= k < |os| => os[k].calls)
  }

  lemma {:induction false} ProcessAllIsThenAll(pages: Pages, fuel: nat, urls: seq<string>, filter: Option<string -> bool>)
    ensures ProcessAll(pages, fuel, urls, filter) == ThenAll(ChildOutcomes(pages, fuel, urls, filter))
  {
    if urls != [] {
      var n := |urls| - 1;
      ProcessAllIsThenAll(pages, fuel, urls[..n], filter);
      assert ChildOutcomes(pages, fuel, urls, filter)[..n] == ChildOutcomes(pages, fuel, urls[..n], filter);
    }
  }

  /**
   * Sequential walks complete exactly when each does, and their calls are
   * then all the calls in order; otherwise the first throw is the outcome's.
   */
  lemma {:induction false} ThenAllSpec(os: seq<Outcome>)
    ensures ThenAll(os).failure.None? <==> forall k :: 0 <= k < |os| ==> os[k].failure.None?
    ensures ThenAll(os).failure.None? ==> ThenAll(os).calls == Concat(CallsOf(os))
    ensures forall k :: 0 <= k < |os| && os[k].failure.Some? && (forall j :: 0 <= j < k ==> os[j].failure.None?)
              ==> ThenAll(os).failure == os[k].failure
  {
    if os != [] {
      var n := |os| - 1;
      var init := os[..n];
      ThenAllSpec(init);
      assert forall k :: 0 <= k < n ==> init[k] == os[k];
      if ThenAll(os).failure.None? {
        assert CallsOf(os) == CallsOf(init) + [os[n].calls];
        ConcatSnoc(CallsOf(init), os[n].calls);
      }
    }
  }

  /**
   * The index loop completes exactly when every child walk does; its calls
   * are then the children's calls concatenated in listed order. When a child
   * throws, the walk stops with that child's exception.
   */
  lemma ProcessAllInOrder(pages: Pages, fuel: nat, urls: seq<string>, filter: Option<string -> bool>)
    ensures var os := ChildOutcomes(pages, fuel, urls, filter);
            var r := ProcessAll(pages, fuel, urls, filter);
            && (r.failure.None? <==> forall k :: 0 <= k < |os| ==> os[k].failure.None?)
            && (r.failure.None? ==> r.calls == Concat(CallsOf(os)))
            && (forall k :: 0 <= k < |os| && os[k].failure.Some? && (forall j :: 0 <= j < k ==> os[j].failure.None?)
                  ==> r.failure == os[k].failure)
  {
    ProcessAllIsThenAll(pages, fuel, urls, filter);
    ThenAllSpec(ChildOutcomes(pages, fuel, urls, filter));
  }

  /** A throw within the first `k` children is the outcome of the whole loop. */
  lemma {:induction false} ProcessAllPrefixFail(pages: Pages, fuel: nat, urls: seq<string>, filter: Option<string -> bool>, k: nat)
    requires k <= |urls| && ProcessAll(pages, fuel, urls[..k], filter).failure.Some?
    ensures ProcessAll(pages, fuel, urls, filter) == ProcessAll(pages, fuel, urls[..k], filter)
    decreases |urls| - k
  {
    if k < |urls| {
      assert urls[..k + 1][..k] == urls[..k];
      ProcessAllPrefixFail(pages, fuel, urls, filter, k + 1);
    } else {
      assert urls[..k] == urls;
    }
  }

  /** `processSitemap` itself; the calls it returns are the callback's invocations, in order. */
  method ProcessSitemap(pages: Pages, fuel: nat, url: string, filter: Option<string -> bool>)
    returns (calls: seq<Call>, failure: Option<Failure>)
    ensures Outcome(calls, failure) == Process(pages, fuel, url, filter)
    decreases fuel, 0
  {
    if fuel == 0 {
      return [], Some(DepthExceeded(url));
    }
    if url !in pages {
      return [], Some(FetchFailed(url));
    }
    var xml := pages[url];
    if IsSitemapIndex(xml) {
      var sitemapUrls := ExtractUrls(xml, "sitemap");
      calls, failure := ProcessChildren(pages, fuel - 1, sitemapUrls, filter);
    } else {
      var pageUrls := ExtractUrls(xml, "url");
      if filter.Some? {
        pageUrls := FilterUrls(pageUrls, filter.value);
      }
      calls := CallbackLoop(pageUrls);
      failure := None;
    }
  }

  /** The loop over an index's children, stopping at the first throw. */
  method ProcessChildren(pages: Pages, fuel: nat, urls: seq<string>, filter: Option<string -> bool>)
    returns (calls: seq<Call>, failure: Option<Failure>)
    ensures Outcome(calls, failure) == ProcessAll(pages, fuel, urls, filter)
    decreases fuel, 1
  {
    calls := [];
    for k := 0 to |urls|
      invariant Outcome(calls, None) == ProcessAll(pages, fuel, urls[..k], filter)
    {
      var more, err := ProcessSitemap(pages, fuel, urls[k], filter);
      assert urls[..k + 1][..k] == urls[..k];
      if err.Some? {
        ProcessAllPrefixFail(pages, fuel, urls, filter, k + 1);
        return calls + more, err;
      }
      calls := calls + more;
    }
    assert urls[..|urls|] == urls;
    failure := None;
  }

  /** `pageUrls.filter(filter)`. */
  method FilterUrls(urls: seq<string>, keep: string -> bool) returns (r: seq<string>)
    ensures r == Filtered(urls, Some(keep))
  {
    r := [];
    var k := |urls|;
    while k > 0
      invariant 0 <= k <= |urls|
      invariant r == Filtered(urls[k..], Some(keep))
    {
      k := k - 1;
      assert urls[k..][1..] == urls[k + 1..];
      if keep(urls[k]) {
        r := [urls[k]] + r;
      }
    }
  }

  /** The page loop: parse each URL and call back for the ones that parse. */
  method CallbackLoop(urls: seq<string>) returns (calls: seq<Call>)
    ensures calls == PageCalls(urls)
  {
    calls := [];
    for k := 0 to |urls|
      invariant calls == PageCalls(urls[..k])
    {
      var parsed := ParseIntegrationUrl(urls[k]);
      assert urls[..k + 1][..k] == urls[..k];
      if parsed.Some? {
        calls := calls + [Call(urls[k], parsed.value.product1, parsed.value.product2)];
      }
    }
    assert urls[..|urls|] == urls;
  }
}
