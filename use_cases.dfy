/**
 * Use cases read from an integration page's "most popular" section
 * (`getTwosPopularUseCase`) and the longtail prompts built from them
 * (`generateLongtailPrompts`). The page fetch, the section regex and the
 * language-model call are inputs: the section's inner HTML, and the reply
 * text for each use case.
 */
module UseCases {
  import opened Common
  import opened Text
  import opened Lines

  // ---------------------------------------------------------------------
  // The heading pattern `<h[2-4][^>]*>([\s\S]*?)<\/h[2-4]>`, flags `gi`.

  predicate IsH(c: char) { c == 'h' || c == 'H' }

  predicate IsLevel(c: char) { '2' <= c <= '4' }

  /**
   * Length of an opening tag `<h[2-4][^>]*>` at the start of `s`. The
   * attribute run `[^>]*` takes the characters before the first `>` and
   * cannot give one back and still be followed by `>`, so the longest run
   * is the only candidate.
   */
  function OpenTag(s: string): (r: Option<nat>)
    ensures r.Some? ==> 4 <= r.value <= |s| && s[r.value - 1] == '>'
  {
    if |s| >= 3 && s[0] == '<' && IsH(s[1]) && IsLevel(s[2]) then
      var n := IndexOf(s[3..], '>');
      if 3 + n < |s| then Some(3 + n + 1) else None
    else None
  }

  /** A closing tag `</h[2-4]>` starts at offset `j`. */
  predicate CloseAt(s: string, j: int)
  {
    0 <= j && j + 5 <= |s| && s[j] == '<' && s[j + 1] == '/' && IsH(s[j + 2]) && IsLevel(s[j + 3]) && s[j + 4] == '>'
  }

  /** The first closing tag at or after `from`: where the lazy `[\s\S]*?` stops. */
  function FirstClose(s: string, from: nat): (r: Option<nat>)
    requires from <= |s|
    ensures r.Some? ==> from <= r.value && CloseAt(s, r.value)
    ensures r.Some? ==> forall j :: from <= j < r.value ==> !CloseAt(s, j)
    ensures r.None? ==> forall j :: from <= j ==> !CloseAt(s, j)
    decreases |s| - from
  {
    if from + 5 > |s| then None
    else if CloseAt(s, from) then Some(from)
    else FirstClose(s, from + 1)
  }

  /** The heading pattern tried at the start of `s`: its inner text and the match length. */
  function HeadingAt(s: string): (r: Option<(string, nat)>)
    ensures r.Some? ==> 0 < r.value.1 <= |s| && forall i :: !CloseAt(r.value.0, i)
  {
    match OpenTag(s)
    case None => None
    case Some(o) =>
      match FirstClose(s, o)
      case None => None
      case Some(j) =>
        var inner := s[o..j];
        assert forall i :: CloseAt(inner, i) ==> CloseAt(s, o + i);
        Some((inner, j + 5))
  }

  /**
   * `sectionHtml.matchAll(headingRegex)`, group 1 of each match in turn.
   * No group holds a complete closing heading tag: the lazy group stops at
   * the first one.
   */
  function Headings(s: string): (hs: seq<string>)
    ensures forall k, i :: 0 <= k < |hs| ==> !CloseAt(hs[k], i)
    decreases |s|
  {
    if s == [] then []
    else match HeadingAt(s)
      case Some(m) => [m.0] + Headings(s[m.1..])
      case None => Headings(s[1..])
  }

  // ---------------------------------------------------------------------
  // Clean-up of one heading's text.

  /**
   * Length of a tag `<[^>]+>` at the start of `s`, or 0 when none starts
   * there (the greedy run must be non-empty and be followed by `>`).
   */
  function TagLen(s: string): (n: nat)
    ensures n == 0 || (3 <= n <= |s| && s[0] == '<' && s[n - 1] == '>')
  {
    if s != [] && s[0] == '<' then
      var run := IndexOf(s[1..], '>');
      if run > 0 && 1 + run < |s| then run + 2 else 0
    else 0
  }

  /** `.replace(/<[^>]+>/g, "")`. */
  function StripTags(s: string): (r: string)
    ensures |r| <= |s|
    ensures forall c :: c in r ==> c in s
    decreases |s|
  {
    if s == [] then []
    else if TagLen(s) > 0 then StripTags(s[TagLen(s)..])
    else
      var rest := StripTags(s[1..]);
      assert forall c :: c in rest ==> c in s;
      [s[0]] + rest
  }

  /**
   * No tag left: every `<` is followed directly by `>` or has no `>`
   * anywhere after it.
   */
  predicate TagFree(s: string)
  {
    forall i :: 0 <= i < |s| && s[i] == '<' ==> (i + 1 < |s| && s[i + 1] == '>') || '>' !in s[i + 1..]
  }

  lemma TagFreeCons(c: char, t: string)
    requires TagFree(t)
    requires c == '<' ==> (t != [] && t[0] == '>') || '>' !in t
    ensures TagFree([c] + t)
  {
    var s := [c] + t;
    forall i | 0 <= i < |s| && s[i] == '<'
      ensures (i + 1 < |s| && s[i + 1] == '>') || '>' !in s[i + 1..]
    {
      if i > 0 {
        assert s[i] == t[i - 1];
        assert s[i + 1..] == t[i..];
        if i < |t| { assert s[i + 1] == t[i]; }
      } else {
        assert s[1..] == t;
      }
    }
  }

  /** What `StripTags` leaves holds no tag. */
  lemma {:induction false} StripTagsTagFree(s: string)
    ensures TagFree(StripTags(s))
    decreases |s|
  {
    if s != [] {
      if TagLen(s) > 0 {
        StripTagsTagFree(s[TagLen(s)..]);
      } else {
        var rest := StripTags(s[1..]);
        StripTagsTagFree(s[1..]);
        if s[0] == '<' {
          var run := IndexOf(s[1..], '>');
          if run == 0 {
            if |s| > 1 {
              assert s[1] == '>';
              assert TagLen(s[1..]) == 0;
              assert rest == [s[1]] + StripTags(s[2..]);
            }
          } else {
            assert forall k :: 1 <= k < |s| ==> s[k] == s[1..][k - 1] != '>';
            assert '>' !in s[1..];
          }
        }
        TagFreeCons(s[0], rest);
      }
    }
  }

  /** Text without tags is left as it is. */
  lemma {:induction false} StripTagsFixed(s: string)
    requires TagFree(s)
    ensures StripTags(s) == s
    decreases |s|
  {
    if s != [] {
      assert TagLen(s) == 0 by {
        if s[0] == '<' {
          var run := IndexOf(s[1..], '>');
          assert run < |s| - 1 ==> s[1..][run] in s[1..];
        }
      }
      assert TagFree(s[1..]) by {
        forall i | 0 <= i < |s| - 1 && s[1..][i] == '<'
          ensures (i + 1 < |s| - 1 && s[1..][i + 1] == '>') || '>' !in s[1..][i + 1..]
        {
          assert s[1..][i + 1..] == s[i + 2..];
        }
      }
      StripTagsFixed(s[1..]);
    }
  }

  /** Removing tags twice removes nothing more. */
  lemma StripTagsIdempotent(s: string)
    ensures StripTags(StripTags(s)) == StripTags(s)
  {
    StripTagsTagFree(s);
    StripTagsFixed(StripTags(s));
  }

  /**
   * The entity replacements, in the script's order: `&amp;` is decoded
   * first, so `&amp;lt;` ends up as `<`.
   */
  function DecodeEntities(s: string): (r: string)
    ensures |r| <= |s|
    ensures '&' !in s ==> r == s
  {
    var a := ReplaceAll(s, "&amp;", "&");
    var b := ReplaceAll(a, "&lt;", "<");
    var c := ReplaceAll(b, "&gt;", ">");
    var d := ReplaceAll(c, "&quot;", "\"");
    var e := ReplaceAll(d, "&#39;", "'");
    ReplaceAll(e, "&nbsp;", " ")
  }

  /** `&amp;` goes first, so an escaped entity is decoded twice: `&amp;lt;` becomes `<`. */
  lemma DecodeTwice()
    ensures DecodeEntities("&amp;lt;") == "<"
  {
    var s := "&amp;lt;";
    assert s[..5] == "&amp;" && s[5..] == "lt;";
    assert ReplaceAll("lt;", "&amp;", "&") == "lt;";
    var a := ReplaceAll(s, "&amp;", "&");
    assert a == "&" + "lt;" == "&lt;";
    assert a[..4] == "&lt;" && a[4..] == [];
    var b := ReplaceAll(a, "&lt;", "<");
    assert b == "<" + [];
  }

  /** One heading's text: tags stripped, entities decoded, trimmed. */
  function Clean(inner: string): (t: string)
    ensures IsTrimmed(t) && |t| <= |inner|
  {
    Trim(DecodeEntities(StripTags(inner)))
  }

  /** The script's filter on a cleaned heading. */
  predicate Keep(t: string)
  {
    t != "" && |t| > 10 && !Contains(Lower(t), "launch your") && !Contains(Lower(t), "automated workflow")
  }

  /** The cleaned headings that pass the filter, in document order, repeats included. */
  function Kept(hs: seq<string>): (ts: seq<string>)
    ensures forall k :: 0 <= k < |ts| ==> Keep(ts[k]) && IsTrimmed(ts[k])
  {
    if hs == [] then []
    else
      var last := hs[|hs| - 1];
      Kept(hs[..|hs| - 1]) + (if last != "" && Keep(Clean(last)) then [Clean(last)] else [])
  }

  // ---------------------------------------------------------------------
  // The insertion-ordered `Set`.

  /** `[...new Set(xs)]`: each value once, at the place it first appears. */
  function Dedup<T(==)>(xs: seq<T>): seq<T>
  {
    if xs == [] then []
    else
      var d := Dedup(xs[..|xs| - 1]);
      if xs[|xs| - 1] in d then d else d + [xs[|xs| - 1]]
  }

  predicate Distinct<T(==)>(xs: seq<T>)
  {
    forall i, j :: 0 <= i < j < |xs| ==> xs[i] != xs[j]
  }

  /** Index of the first occurrence of `x` in `xs`. */
  function FirstIndex<T(==)>(xs: seq<T>, x: T): (i: nat)
    requires x in xs
    ensures i < |xs| && xs[i] == x && forall j :: 0 <= j < i ==> xs[j] != x
  {
    if xs[0] == x then 0 else 1 + FirstIndex(xs[1..], x)
  }

  lemma FirstIndexSnoc<T>(xs: seq<T>, y: T, x: T)
    requires x in xs
    ensures FirstIndex(xs + [y], x) == FirstIndex(xs, x)
  {
    var i := FirstIndex(xs, x);
    var j := FirstIndex(xs + [y], x);
    assert (xs + [y])[i] == x;
    assert j <= i;
    assert xs[j] == (xs + [y])[j];
  }

  /**
   * The values of the set are the input's values, each once, in the order
   * of their first appearance.
   */
  lemma {:induction false} DedupSpec<T>(xs: seq<T>)
    ensures Distinct(Dedup(xs))
    ensures forall x :: x in Dedup(xs) <==> x in xs
    ensures forall i, j :: 0 <= i < j < |Dedup(xs)| ==>
              FirstIndex(xs, Dedup(xs)[i]) < FirstIndex(xs, Dedup(xs)[j])
  {
    if xs != [] {
      var init := xs[..|xs| - 1];
      var y := xs[|xs| - 1];
      DedupSpec(init);
      var d := Dedup(init);
      assert xs == init + [y];
      forall x | x in init ensures FirstIndex(xs, x) == FirstIndex(init, x) {
        FirstIndexSnoc(init, y, x);
      }
      if y !in d {
        assert FirstIndex(xs, y) == |init| by {
          forall j | 0 <= j < |init| ensures xs[j] != y { assert xs[j] == init[j]; }
        }
        var r := d + [y];
        forall i, j | 0 <= i < j < |r| ensures FirstIndex(xs, r[i]) < FirstIndex(xs, r[j]) {
          assert r[i] == d[i] && d[i] in d;
          if j == |d| {
            assert FirstIndex(xs, r[i]) == FirstIndex(init, r[i]) < |init|;
          } else {
            assert r[j] == d[j];
          }
        }
      }
    }
  }

  /**
   * What `getTwosPopularUseCase` returns once it has the section's inner
   * HTML: nothing when the section is missing or empty, otherwise the
   * distinct kept texts of its headings in first-seen order.
   */
  function UseCasesOf(section: Option<string>): seq<string>
  {
    if section.None? || section.value == "" then [] else Dedup(Kept(Headings(section.value)))
  }

  /**
   * The use cases are distinct, in first-seen order, longer than ten
   * characters, trimmed, and free of the two excluded phrases; every kept
   * heading is among them.
   */
  lemma UseCasesSpec(section: string)
    requires section != ""
    ensures var r := UseCasesOf(Some(section));
            var ts := Kept(Headings(section));
            && Distinct(r)
            && (forall t :: t in r <==> t in ts)
            && (forall k :: 0 <= k < |r| ==>
                  |r[k]| > 10 && IsTrimmed(r[k])
                  && !Contains(Lower(r[k]), "launch your") && !Contains(Lower(r[k]), "automated workflow"))
            && (forall i, j :: 0 <= i < j < |r| ==> FirstIndex(ts, r[i]) < FirstIndex(ts, r[j]))
  {
    var ts := Kept(Headings(section));
    assert UseCasesOf(Some(section)) == Dedup(ts);
    DedupSpec(ts);
    DedupKeeps(ts);
  }

  lemma DedupKeeps(ts: seq<string>)
    requires forall k :: 0 <= k < |ts| ==> Keep(ts[k]) && IsTrimmed(ts[k])
    ensures forall k :: 0 <= k < |Dedup(ts)| ==> Keep(Dedup(ts)[k]) && IsTrimmed(Dedup(ts)[k])
  {
    DedupSpec(ts);
    forall k | 0 <= k < |Dedup(ts)| ensures Keep(Dedup(ts)[k]) && IsTrimmed(Dedup(ts)[k]) {
      var x := Dedup(ts)[k];
      assert x in ts;
      var i :| 0 <= i < |ts| && ts[i] == x;
    }
  }

  /** One more heading seen by the loop. */
  lemma KeptStep(ms: seq<string>, k: nat)
    requires k < |ms|
    ensures Kept(ms[..k + 1]) == Kept(ms[..k]) + (if ms[k] != "" && Keep(Clean(ms[k])) then [Clean(ms[k])] else [])
  {
    assert ms[..k + 1][..k] == ms[..k];
  }

  lemma DedupSnoc<T>(xs: seq<T>, x: T)
    ensures Dedup(xs + [x]) == if x in Dedup(xs) then Dedup(xs) else Dedup(xs) + [x]
  {
    assert (xs + [x])[..|xs|] == xs;
  }

  /** The set after one more heading: its cleaned text is added when it is kept and new. */
  lemma UseCaseStep(ms: seq<string>, k: nat, prev: seq<string>, m: string, text: string)
    requires k < |ms| && m == ms[k] && text == Clean(m) && prev == Dedup(Kept(ms[..k]))
    ensures Dedup(Kept(ms[..k + 1])) == if m != "" && Keep(text) && text !in prev then prev + [text] else prev
  {
    KeptStep(ms, k);
    if m != "" && Keep(text) {
      DedupSnoc(Kept(ms[..k]), text);
    } else {
      assert Kept(ms[..k]) + [] == Kept(ms[..k]);
    }
  }

  /** `getTwosPopularUseCase` from the section onwards: the heading loop adding to a `Set`. */
  method PopularUseCases(section: Option<string>) returns (useCases: seq<string>)
    ensures useCases == UseCasesOf(section)
  {
    if section.None? || section.value == "" {
      return [];
    }
    var html := section.value;
    var matches := Headings(html);
    useCases := [];
    for k := 0 to |matches|
      invariant useCases == Dedup(Kept(matches[..k]))
    {
      var m := matches[k];
      var text := Clean(m);
      UseCaseStep(matches, k, useCases, m, text);
      if m != "" && Keep(text) && text !in useCases {
        useCases := useCases + [text];
      }
    }
    assert matches[..|matches|] == matches;
  }

  // ---------------------------------------------------------------------
  // Longtail prompts.

  datatype LongtailPrompt = LongtailPrompt(original: string, longtail: string)

  /** The prompts for one use case: one per line of the reply, in order, each paired with the use case. */
  function PromptsFor(useCase: string, lines: seq<string>): (ps: seq<LongtailPrompt>)
    ensures |ps| == |lines|
    ensures forall k :: 0 <= k < |ps| ==> ps[k] == LongtailPrompt(useCase, lines[k])
  {
    seq(|lines|, k requires 0 <= k < |lines| => LongtailPrompt(useCase, lines[k]))
  }

  lemma PromptsStep(useCase: string, lines: seq<string>, j: nat)
    requires j < |lines|
    ensures PromptsFor(useCase, lines)[..j + 1] == PromptsFor(useCase, lines)[..j] + [LongtailPrompt(useCase, lines[j])]
  {
  }

  /** The prompts of one use case, the reply being the model's answer to it. */
  function ReplyPrompts(useCase: string, reply: string -> string): seq<LongtailPrompt>
  {
    PromptsFor(useCase, NonEmptyLines(reply(useCase)))
  }

  /** The prompts of each use case in turn. */
  function Longtails(useCases: seq<string>, reply: string -> string): seq<LongtailPrompt>
  {
    if useCases == [] then []
    else
      var n := |useCases| - 1;
      Longtails(useCases[..n], reply) + ReplyPrompts(useCases[n], reply)
  }

  /** The prompts of the use cases up to `k`, once those of `useCases[k]` are appended. */
  lemma LongtailsStep(useCases: seq<string>, reply: string -> string, k: nat, prior: seq<LongtailPrompt>, lines: seq<string>)
    requires k < |useCases| && prior == Longtails(useCases[..k], reply) && lines == NonEmptyLines(reply(useCases[k]))
    ensures prior + PromptsFor(useCases[k], lines) == Longtails(useCases[..k + 1], reply)
  {
    var xs := useCases[..k + 1];
    assert xs[..k] == useCases[..k];
    assert xs[k] == useCases[k];
    assert Longtails(xs, reply) == Longtails(xs[..k], reply) + ReplyPrompts(xs[k], reply);
  }

  /** Every prompt names the use case it came from and is a non-empty, trimmed line of that use case's reply. */
  lemma {:induction false} LongtailsFromReplies(useCases: seq<string>, reply: string -> string)
    ensures forall p :: p in Longtails(useCases, reply) ==>
              p.original in useCases && p.longtail in NonEmptyLines(reply(p.original))
              && p.longtail != [] && IsTrimmed(p.longtail)
  {
    if useCases != [] {
      var n := |useCases| - 1;
      var init := useCases[..n];
      LongtailsFromReplies(init, reply);
      assert forall u :: u in init ==> u in useCases;
      var u := useCases[n];
      var ls := NonEmptyLines(reply(u));
      NonEmptyLinesClean(reply(u));
      var last := PromptsFor(u, ls);
      forall p | p in last
        ensures p.original in useCases && p.longtail in NonEmptyLines(reply(p.original))
                && p.longtail != [] && IsTrimmed(p.longtail)
      {
        var k :| 0 <= k < |last| && last[k] == p;
        assert p.original == u && p.longtail == ls[k];
      }
    }
  }

  function Groups(useCases: seq<string>, reply: string -> string): (gs: seq<seq<LongtailPrompt>>)
    ensures |gs| == |useCases|
    ensures forall k :: 0 <= k < |gs| ==> gs[k] == ReplyPrompts(useCases[k], reply)
  {
    seq(|useCases|, k requires 0 <= k < |useCases| => ReplyPrompts(useCases[k], reply))
  }

  lemma GroupsSnoc(useCases: seq<string>, reply: string -> string, init: seq<string>, last: string)
    requires useCases == init + [last]
    ensures Groups(useCases, reply) == Groups(init, reply) + [ReplyPrompts(last, reply)]
  {
    var g := Groups(useCases, reply);
    var h := Groups(init, reply) + [ReplyPrompts(last, reply)];
    assert |g| == |h|;
    forall k | 0 <= k < |g| ensures g[k] == h[k] {
      if k < |init| {
        assert useCases[k] == init[k];
      } else {
        assert useCases[k] == last;
      }
    }
  }

  /** Prompts come grouped by use case, the groups in input order. */
  lemma {:induction false} LongtailsGrouped(useCases: seq<string>, reply: string -> string)
    ensures Longtails(useCases, reply) == Concat(Groups(useCases, reply))
  {
    if useCases != [] {
      var n := |useCases| - 1;
      var init := useCases[..n];
      LongtailsGrouped(init, reply);
      assert useCases == init + [useCases[n]];
      GroupsSnoc(useCases, reply, init, useCases[n]);
      ConcatSnoc(Groups(init, reply), ReplyPrompts(useCases[n], reply));
    }
  }

  /** `generateLongtailPrompts`: one model call per use case, its lines pushed in order. */
  method GenerateLongtailPrompts(useCases: seq<string>, reply: string -> string)
    returns (results: seq<LongtailPrompt>)
    ensures results == Longtails(useCases, reply)
  {
    results := [];
    for k := 0 to |useCases|
      invariant results == Longtails(useCases[..k], reply)
    {
      var useCase := useCases[k];
      var longtails := NonEmptyLines(reply(useCase));
      var prior := results;
      for j := 0 to |longtails|
        invariant results == prior + PromptsFor(useCase, longtails)[..j]
      {
        PromptsStep(useCase, longtails, j);
        results := results + [LongtailPrompt(useCase, longtails[j])];
      }
      assert PromptsFor(useCase, longtails)[..|longtails|] == PromptsFor(useCase, longtails);
      LongtailsStep(useCases, reply, k, prior, longtails);
    }
    assert useCases[..|useCases|] == useCases;
  }
}
