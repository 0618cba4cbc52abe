/**
 * The `split("\n").map(trim).filter(…)` chains the prompt generator applies
 * to a URL file (`readUrlsFromFile`) and to the model's reply
 * (`generateLongtailPrompts`).
 */
module Lines {
  import opened Text

  const Newline: char := '\n'

  /** Each line trimmed, in order, empty ones dropped: `text.split("\n").map(l => l.trim()).filter(l => l.length > 0)`. */
  function NonEmptyLines(text: string): seq<string>
  {
    KeepNonEmpty(TrimAll(Split(text, Newline)))
  }

  /** The lines are non-empty, trimmed and hold no line feed. */
  lemma NonEmptyLinesClean(text: string)
    ensures CleanLines(NonEmptyLines(text))
  {
    var parts := Split(text, Newline);
    var trimmed := TrimAll(parts);
    KeepNonEmptyMembers(trimmed);
    forall k | 0 <= k < |trimmed| ensures Newline !in trimmed[k] {
      TrimIsSlice(parts[k]);
      var i :| SpaceAround(parts[k], trimmed[k], i);
      assert forall c :: c in trimmed[k] ==> c in parts[k];
    }
  }

  function TrimAll(parts: seq<string>): seq<string>
  {
    seq(|parts|, k requires 0 <= k < |parts| => Trim(parts[k]))
  }

  function KeepNonEmpty(ls: seq<string>): seq<string>
  {
    if ls == [] then []
    else if ls[0] == [] then KeepNonEmpty(ls[1..])
    else [ls[0]] + KeepNonEmpty(ls[1..])
  }

  /** The lines kept are the non-empty ones. */
  lemma {:induction false} KeepNonEmptyMembers(ls: seq<string>)
    ensures forall k :: 0 <= k < |KeepNonEmpty(ls)| ==> KeepNonEmpty(ls)[k] != [] && KeepNonEmpty(ls)[k] in ls
    ensures forall l :: l in ls && l != [] ==> l in KeepNonEmpty(ls)
  {
    if ls != [] {
      KeepNonEmptyMembers(ls[1..]);
      assert forall l :: l in ls[1..] ==> l in ls;
      assert forall l :: l in ls ==> l == ls[0] || l in ls[1..];
    }
  }

  /** `readUrlsFromFile`'s filter: the non-empty trimmed lines that do not start with `#`. */
  function UrlLines(content: string): (urls: seq<string>)
    ensures forall k :: 0 <= k < |urls| ==> urls[k] != [] && IsTrimmed(urls[k]) && urls[k][0] != '#'
  {
    NonEmptyLinesClean(content);
    DropComments(NonEmptyLines(content))
  }

  function DropComments(ls: seq<string>): (r: seq<string>)
    requires forall k :: 0 <= k < |ls| ==> ls[k] != []
    ensures forall k :: 0 <= k < |r| ==> r[k] in ls && r[k][0] != '#'
    ensures forall l :: l in ls && l[0] != '#' ==> l in r
  {
    if ls == [] then []
    else if ls[0][0] == '#' then DropComments(ls[1..])
    else [ls[0]] + DropComments(ls[1..])
  }

  lemma {:induction false} KeepNonEmptyAppend(a: seq<string>, b: seq<string>)
    ensures KeepNonEmpty(a + b) == KeepNonEmpty(a) + KeepNonEmpty(b)
  {
    if a != [] {
      assert (a + b)[1..] == a[1..] + b;
      KeepNonEmptyAppend(a[1..], b);
    } else {
      assert a + b == b;
    }
  }

  lemma {:induction false} DropCommentsAppend(a: seq<string>, b: seq<string>)
    requires forall k :: 0 <= k < |a| ==> a[k] != []
    requires forall k :: 0 <= k < |b| ==> b[k] != []
    ensures DropComments(a + b) == DropComments(a) + DropComments(b)
  {
    if a != [] {
      assert (a + b)[1..] == a[1..] + b;
      DropCommentsAppend(a[1..], b);
    } else {
      assert a + b == b;
    }
  }

  lemma TrimAllAppend(p: seq<string>, q: seq<string>)
    ensures TrimAll(p + q) == TrimAll(p) + TrimAll(q)
  {
  }

  lemma SplitNoNewline(a: string)
    requires Newline !in a
    ensures Split(a, Newline) == [a]
  {
    SplitJoin([a], Newline);
  }

  /**
   * Line filtering keeps file order: the lines of two texts joined by a line
   * feed are the lines of the first followed by the lines of the second.
   */
  lemma NonEmptyLinesAppend(a: string, b: string)
    requires Newline !in a
    ensures NonEmptyLines(a + [Newline] + b) == NonEmptyLines(a) + NonEmptyLines(b)
  {
    var pb := Split(b, Newline);
    SplitAround(a, b, Newline);
    SplitNoNewline(a);
    TrimAllAppend([a], pb);
    KeepNonEmptyAppend(TrimAll([a]), TrimAll(pb));
  }

  lemma UrlLinesAppend(a: string, b: string)
    requires Newline !in a
    ensures UrlLines(a + [Newline] + b) == UrlLines(a) + UrlLines(b)
  {
    NonEmptyLinesClean(a);
    NonEmptyLinesClean(b);
    NonEmptyLinesAppend(a, b);
    DropCommentsAppend(NonEmptyLines(a), NonEmptyLines(b));
  }

  /** Lines as a file holds them after trimming and dropping the empty ones. */
  predicate CleanLines(ls: seq<string>)
  {
    forall k :: 0 <= k < |ls| ==> ls[k] != [] && IsTrimmed(ls[k]) && Newline !in ls[k]
  }

  /** Lines that are already trimmed, non-empty and free of line feeds come back unchanged from their join. */
  lemma {:induction false} NonEmptyLinesJoin(ls: seq<string>)
    requires CleanLines(ls)
    ensures NonEmptyLines(Join(ls, Newline)) == ls
  {
    if ls == [] {
      NoText();
    } else if |ls| == 1 {
      OneLine(ls[0]);
    } else {
      var tail := ls[1..];
      assert CleanLines(tail) by {
        forall k | 0 <= k < |tail| ensures tail[k] == ls[k + 1] { }
      }
      NonEmptyLinesJoin(tail);
      JoinCons(ls);
    }
  }

  lemma JoinCons(ls: seq<string>)
    requires CleanLines(ls) && |ls| > 1 && NonEmptyLines(Join(ls[1..], Newline)) == ls[1..]
    ensures NonEmptyLines(Join(ls, Newline)) == ls
  {
    var tail := ls[1..];
    assert ls == [ls[0]] + tail;
    JoinStep(ls[0], Join(tail, Newline), tail, Join(ls, Newline), ls);
  }

  lemma JoinStep(l: string, rest: string, tail: seq<string>, text: string, ls: seq<string>)
    requires l != [] && IsTrimmed(l) && Newline !in l && NonEmptyLines(rest) == tail
    requires text == l + [Newline] + rest && ls == [l] + tail
    ensures NonEmptyLines(text) == ls
  {
    NonEmptyLinesAppend(l, rest);
    OneLine(l);
  }

  lemma NoText()
    ensures NonEmptyLines("") == []
  {
    var e: string := [];
    assert Split(e, Newline) == [e];
    assert IsTrimmed(e);
    assert TrimAll([e]) == [e];
    assert KeepNonEmpty([e]) == [];
  }

  lemma OneLine(l: string)
    requires l != [] && IsTrimmed(l) && Newline !in l
    ensures NonEmptyLines(l) == [l]
  {
    SplitNoNewline(l);
    assert TrimAll([l]) == [l];
    assert KeepNonEmpty([l]) == [l] + KeepNonEmpty([]);
  }
}
