/**
 * Recognising Zapier integration pages and pulling out their two product
 * names, as `INTEGRATION_URL_PATTERN` does with the regular expression
 * `zapier\.com\/apps\/([^/]+)\/integrations\/([^/]+)` (unanchored, not
 * global). The regex is modelled by hand: a match at a position is the
 * literal `zapier.com/apps/`, a greedy run of non-`/` characters, the
 * literal `/integrations/` and another greedy run of non-`/` characters.
 */
module IntegrationUrl {
  import opened Common
  import opened Text

  datatype Products = Products(product1: string, product2: string)

  const AppsPrefix := "zapier.com/apps/"
  const IntegrationsInfix := "/integrations/"

  /** The longest prefix of `s` without a `/`: what a greedy `[^/]+` (or `[^/]*`) takes. */
  function Segment(s: string): (seg: string)
    ensures |seg| <= |s| && seg == s[..|seg|]
    ensures '/' !in seg
    ensures |seg| == |s| || s[|seg|] == '/'
  {
    if s == [] || s[0] == '/' then [] else [s[0]] + Segment(s[1..])
  }

  /** A greedy run is the only `/`-free prefix that stops at a `/` or at the end. */
  lemma {:induction false} SegmentUnique(s: string, w: string)
    requires StartsWith(s, w) && '/' !in w && (|s| == |w| || s[|w|] == '/')
    ensures Segment(s) == w
  {
    if w != [] {
      assert s[0] == w[0];
      assert StartsWith(s[1..], w[1..]) by { assert s[1..][..|w| - 1] == w[1..]; }
      assert '/' !in w[1..] by { assert forall c :: c in w[1..] ==> c in w; }
      SegmentUnique(s[1..], w[1..]);
    }
  }

  /** The pattern matched at the very start of `s`, with its two groups. */
  function MatchHere(s: string): Option<Products>
  {
    if !StartsWith(s, AppsPrefix) then None
    else
      var rest := s[|AppsPrefix|..];
      var p1 := Segment(rest);
      var after := rest[|p1|..];
      if p1 == [] || !StartsWith(after, IntegrationsInfix) then None
      else
        var p2 := Segment(after[|IntegrationsInfix|..]);
        if p2 == [] then None else Some(Products(p1, p2))
  }

  /**
   * `s` begins with `zapier.com/apps/` + `p.product1` + `/integrations/` +
   * `p.product2`, both products non-empty and `/`-free, and what follows is
   * the end or a `/`.
   */
  predicate Shaped(s: string, p: Products)
  {
    var head := AppsPrefix + p.product1 + IntegrationsInfix + p.product2;
    p.product1 != [] && '/' !in p.product1 && p.product2 != [] && '/' !in p.product2
    && StartsWith(s, head) && (|s| == |head| || s[|head|] == '/')
  }

  lemma StartsWithAppend(s: string, a: string, b: string)
    ensures StartsWith(s, a + b) <==> StartsWith(s, a) && StartsWith(s[|a|..], b)
  {
    if StartsWith(s, a + b) {
      assert s[..|a|] == (a + b)[..|a|] == a;
      assert s[|a|..][..|b|] == s[|a|..|a| + |b|] == (a + b)[|a|..] == b;
    }
    if StartsWith(s, a) && StartsWith(s[|a|..], b) {
      assert s[..|a| + |b|] == s[..|a|] + s[|a|..][..|b|];
    }
  }

  /** What the matcher finds has the pattern's shape. */
  lemma MatchHereSound(s: string)
    requires MatchHere(s).Some?
    ensures Shaped(s, MatchHere(s).value)
  {
    var p := MatchHere(s).value;
    var n := |AppsPrefix|;
    var rest := s[n..];
    var after := rest[|p.product1|..];
    var tail := after[|IntegrationsInfix|..];
    assert tail[..|p.product2|] == p.product2;
    StartsWithAppend(after, IntegrationsInfix, p.product2);
    StartsWithAppend(rest, p.product1, IntegrationsInfix + p.product2);
    StartsWithAppend(s, AppsPrefix, p.product1 + (IntegrationsInfix + p.product2));
    assert AppsPrefix + p.product1 + IntegrationsInfix + p.product2
        == AppsPrefix + (p.product1 + (IntegrationsInfix + p.product2));
  }

  /** Everything of the pattern's shape is what the matcher finds. */
  lemma MatchHereComplete(s: string, p: Products)
    requires Shaped(s, p)
    ensures MatchHere(s) == Some(p)
  {
    var n := |AppsPrefix|;
    assert AppsPrefix + p.product1 + IntegrationsInfix + p.product2
        == AppsPrefix + (p.product1 + (IntegrationsInfix + p.product2));
    StartsWithAppend(s, AppsPrefix, p.product1 + (IntegrationsInfix + p.product2));
    var rest := s[n..];
    StartsWithAppend(rest, p.product1, IntegrationsInfix + p.product2);
    SegmentUnique(rest, p.product1);
    var after := rest[|p.product1|..];
    StartsWithAppend(after, IntegrationsInfix, p.product2);
    var tail := after[|IntegrationsInfix|..];
    assert tail == s[n + |p.product1| + |IntegrationsInfix|..];
    SegmentUnique(tail, p.product2);
  }

  /** The hand-written matcher agrees with the pattern's meaning, in both directions. */
  lemma MatchHereIff(s: string, p: Products)
    ensures MatchHere(s) == Some(p) <==> Shaped(s, p)
  {
    if MatchHere(s) == Some(p) {
      MatchHereSound(s);
    }
    if Shaped(s, p) {
      MatchHereComplete(s, p);
    }
  }

  /** The leftmost match, as `url.match(pattern)` and `pattern.test(url)` find it. */
  function FirstMatch(s: string): Option<Products>
  {
    Search(s, MatchHere)
  }

  /** `isIntegrationUrl`. */
  predicate IsIntegrationUrl(url: string)
  {
    FirstMatch(url).Some?
  }

  /** `parseIntegrationUrl`: the two groups of the first match, or null. */
  function ParseIntegrationUrl(url: string): Option<Products>
  {
    var m := FirstMatch(url);
    if m.None? || m.value.product1 == "" || m.value.product2 == "" then None else m
  }

  /** The matcher finds something at offset `i`. */
  predicate MatchesAt(s: string, i: int)
  {
    HitAt(s, MatchHere, i)
  }

  /**
   * `FirstMatch` is the match at the smallest offset where there is one, and
   * there is none exactly when no offset matches.
   */
  lemma FirstMatchIsLeftmost(s: string)
    ensures FirstMatch(s).None? <==> forall i :: 0 <= i <= |s| ==> !MatchesAt(s, i)
    ensures FirstMatch(s).Some? ==>
              exists i :: MatchesAt(s, i) && FirstMatch(s) == MatchHere(s[i..])
                          && forall j :: 0 <= j < i ==> !MatchesAt(s, j)
  {
    SearchNone(s, MatchHere);
    if FirstMatch(s).Some? {
      SearchSome(s, MatchHere);
      var i :| LeftmostAt(s, MatchHere, i) && Search(s, MatchHere) == MatchHere(s[i..]);
      assert MatchesAt(s, i) && forall j :: 0 <= j < i ==> !MatchesAt(s, j);
    }
  }

  /**
   * `parseIntegrationUrl` is non-null exactly when `isIntegrationUrl` holds;
   * it then gives the groups of the leftmost match: two non-empty,
   * `/`-free names sitting after `zapier.com/apps/` and `/integrations/`.
   */
  lemma ParseIffIntegration(url: string)
    ensures ParseIntegrationUrl(url).Some? <==> IsIntegrationUrl(url)
    ensures ParseIntegrationUrl(url).Some? ==>
              exists i :: 0 <= i <= |url| && Shaped(url[i..], ParseIntegrationUrl(url).value)
                          && forall j :: 0 <= j < i ==> !MatchesAt(url, j)
  {
    FirstMatchIsLeftmost(url);
    if FirstMatch(url).Some? {
      var i :| MatchesAt(url, i) && FirstMatch(url) == MatchHere(url[i..])
               && forall j :: 0 <= j < i ==> !MatchesAt(url, j);
      MatchHereIff(url[i..], FirstMatch(url).value);
    }
  }

  /** `generateQuestion`: the fixed question around the two product names. */
  function GenerateQuestion(product1: string, product2: string): (q: string)
    ensures StartsWith(q, "How do I connect ") && q[|q| - 1] == '?'
    ensures |q| == 22 + |product1| + |product2|
    ensures q[17..17 + |product1|] == product1
    ensures q[17 + |product1|..21 + |product1|] == " to "
    ensures q[21 + |product1|..|q| - 1] == product2
  {
    "How do I connect " + product1 + " to " + product2 + "?"
  }
}
