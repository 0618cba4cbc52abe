/**
 * CSV output of the prompt generator: `escapeCSV` quotes a field that holds
 * a comma, a double quote or a line feed, doubling the quotes inside, in the
 * manner of section 2 of RFC 4180. A reader for one record in that format is
 * the partner against which escaping is proved lossless.
 */
module Csv {
  import opened Common
  import opened Text

  const Quote: char := '"'

  /** The field holds one of the three characters `escapeCSV` tests for with `includes`. */
  predicate NeedsQuoting(v: string)
  {
    ',' in v || Quote in v || '\n' in v
  }

  /** `value.replace(/"/g, '""')`. */
  function DoubleQuotes(v: string): string
  {
    ReplaceAll(v, [Quote], [Quote, Quote])
  }

  /** `escapeCSV`. */
  function EscapeCsv(v: string): (r: string)
    ensures !NeedsQuoting(v) ==> r == v
    ensures NeedsQuoting(v) ==>
              |r| >= 2 && r[0] == Quote && r[|r| - 1] == Quote && r[1..|r| - 1] == DoubleQuotes(v)
  {
    if NeedsQuoting(v) then [Quote] + DoubleQuotes(v) + [Quote] else v
  }

  /** One step of the global replace on a one-character pattern. */
  lemma DoubleQuotesCons(c: char, v: string)
    ensures DoubleQuotes([c] + v) == (if c == Quote then [Quote, Quote] else [c]) + DoubleQuotes(v)
  {
    var s := [c] + v;
    assert s[..1] == [c];
    assert s[1..] == v;
  }

  /** Every quote in the doubled text comes in a pair, and no other character is touched. */
  lemma {:induction false} DoubleQuotesShape(v: string)
    ensures |DoubleQuotes(v)| == |v| + multiset(v)[Quote]
    ensures forall c :: c != Quote ==> multiset(DoubleQuotes(v))[c] == multiset(v)[c]
  {
    if v != [] {
      DoubleQuotesCons(v[0], v[1..]);
      DoubleQuotesShape(v[1..]);
      assert v == [v[0]] + v[1..];
    }
  }

  /**
   * The body of a quoted field, read up to its closing quote: `""` stands
   * for one quote, a lone quote ends the field. Gives the content and what
   * follows the closing quote; `None` when the closing quote is missing.
   */
  function ReadQuoted(t: string): (r: Option<(string, string)>)
    ensures r.Some? ==> |r.value.1| < |t|
  {
    if t == [] then None
    else if t[0] == Quote then
      if |t| >= 2 && t[1] == Quote then
        match ReadQuoted(t[2..])
        case None => None
        case Some(p) => Some(([Quote] + p.0, p.1))
      else Some(([], t[1..]))
    else
      match ReadQuoted(t[1..])
      case None => None
      case Some(p) => Some(([t[0]] + p.0, p.1))
  }

  /**
   * One field at the start of `s` and the rest of the record, which is empty
   * or starts with the comma before the next field. A quoted field followed
   * by anything else is not well formed.
   */
  function ReadField(s: string): (r: Option<(string, string)>)
    ensures r.Some? ==> |r.value.1| <= |s| && (r.value.1 == [] || r.value.1[0] == ',')
  {
    if s != [] && s[0] == Quote then
      match ReadQuoted(s[1..])
      case None => None
      case Some(p) =>
        if p.1 == [] || p.1[0] == ',' then Some(p) else None
    else
      var n := IndexOf(s, ',');
      Some((s[..n], s[n..]))
  }

  /** The fields of one record, in order. */
  function ReadRecord(s: string): (r: Option<seq<string>>)
    ensures r.Some? ==> |r.value| >= 1
    decreases |s|
  {
    match ReadField(s)
    case None => None
    case Some(p) =>
      if p.1 == [] then Some([p.0])
      else
        match ReadRecord(p.1[1..])
        case None => None
        case Some(fs) => Some([p.0] + fs)
  }

  /** A record as the generator writes it: the escaped fields joined by commas. */
  function Row(fields: seq<string>): string
  {
    Join(seq(|fields|, i requires 0 <= i < |fields| => EscapeCsv(fields[i])), ',')
  }

  /** Reading the doubled text back, closing quote included, gives the original. */
  lemma {:induction false} ReadQuotedDoubled(v: string, tail: string)
    requires tail == [] || tail[0] != Quote
    ensures ReadQuoted(DoubleQuotes(v) + [Quote] + tail) == Some((v, tail))
  {
    if v == [] {
      assert DoubleQuotes(v) + [Quote] + tail == [Quote] + tail;
      assert ([Quote] + tail)[1..] == tail;
    } else {
      var c := v[0];
      DoubleQuotesCons(c, v[1..]);
      assert v == [c] + v[1..];
      ReadQuotedDoubled(v[1..], tail);
      var t := DoubleQuotes(v) + [Quote] + tail;
      var rest := DoubleQuotes(v[1..]) + [Quote] + tail;
      if c == Quote {
        assert t == [Quote, Quote] + rest;
        assert t[2..] == rest;
      } else {
        assert t == [c] + rest;
        assert t[1..] == rest;
      }
    }
  }

  /** An escaped field followed by the end of the record or a comma reads back as the value. */
  lemma ReadEscaped(v: string, tail: string)
    requires tail == [] || tail[0] == ','
    ensures ReadField(EscapeCsv(v) + tail) == Some((v, tail))
  {
    if NeedsQuoting(v) {
      ReadQuotedField(v, tail);
    } else {
      ReadPlainField(v, tail);
    }
  }

  lemma ReadQuotedField(v: string, tail: string)
    requires NeedsQuoting(v) && (tail == [] || tail[0] == ',')
    ensures ReadField(EscapeCsv(v) + tail) == Some((v, tail))
  {
    var s := EscapeCsv(v) + tail;
    assert s == [Quote] + (DoubleQuotes(v) + [Quote] + tail);
    assert s[1..] == DoubleQuotes(v) + [Quote] + tail;
    ReadQuotedDoubled(v, tail);
  }

  lemma ReadPlainField(v: string, tail: string)
    requires !NeedsQuoting(v) && (tail == [] || tail[0] == ',')
    ensures ReadField(v + tail) == Some((v, tail))
  {
    var s := v + tail;
    assert forall k :: 0 <= k < |v| ==> s[k] == v[k] && s[k] in v;
    assert tail != [] ==> s[|v|] == tail[0];
    IndexOfAt(s, ',', |v|);
    assert s[..|v|] == v && s[|v|..] == tail;
    if v != [] {
      assert s[0] in v;
    }
  }

  /**
   * Lossless escaping: a row written by the generator reads back as
   * exactly its fields, whatever commas, quotes and line feeds they hold.
   */
  lemma {:induction false} RowRoundTrip(fields: seq<string>)
    requires |fields| >= 1
    ensures ReadRecord(Row(fields)) == Some(fields)
    decreases |fields|
  {
    var escaped := seq(|fields|, i requires 0 <= i < |fields| => EscapeCsv(fields[i]));
    if |fields| == 1 {
      assert escaped == [EscapeCsv(fields[0])];
      assert Row(fields) == EscapeCsv(fields[0]) + [];
      ReadEscaped(fields[0], []);
      assert ReadField(Row(fields)) == Some((fields[0], []));
      assert fields == [fields[0]];
    } else {
      var rest := fields[1..];
      assert escaped[1..] == seq(|rest|, i requires 0 <= i < |rest| => EscapeCsv(rest[i]));
      assert Row(fields) == EscapeCsv(fields[0]) + ([','] + Row(rest));
      ReadEscaped(fields[0], [','] + Row(rest));
      assert ([','] + Row(rest))[1..] == Row(rest);
      RowRoundTrip(rest);
      assert fields == [fields[0]] + rest;
    }
  }

  /** The single-field case: the outer quotes stripped and `""` collapsed give the value back. */
  lemma EscapeRoundTrip(v: string)
    ensures ReadRecord(EscapeCsv(v)) == Some([v])
  {
    RowRoundTrip([v]);
    assert Row([v]) == EscapeCsv(v);
  }
}
