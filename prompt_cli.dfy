/**
 * The prompt generator's command line: its arguments, where the URL list
 * comes from (a file of lines, or a sitemap walk), the product names given
 * to URLs that are not integration pages, and the CSV rows it writes in
 * question mode and, with `--popular`, in longtail mode. Files, the
 * network, `new URL` and the language model are inputs.
 */
module PromptCli {
  import opened Common
  import opened Text
  import opened Lines
  import opened IntegrationUrl
  import opened Csv
  import opened SitemapScan
  import opened UseCases

  // ---------------------------------------------------------------------
  // Arguments.

  const PopularFlag := "--popular"
  const SectionOption := "--section="
  const DefaultSectionId := "most-popular-integrations"
  const DefaultOutput := "output.csv"

  datatype Args = Args(popular: bool, sectionId: string, input: Option<string>, outputFile: string)

  /** `args.filter(arg => !arg.startsWith("--"))`. */
  function Positional(args: seq<string>): (ps: seq<string>)
    ensures forall k :: 0 <= k < |ps| ==> ps[k] in args && !StartsWith(ps[k], "--")
    ensures forall a :: a in args && !StartsWith(a, "--") ==> a in ps
  {
    if args == [] then []
    else
      var rest := Positional(args[1..]);
      assert forall a :: a in args ==> a == args[0] || a in args[1..];
      if StartsWith(args[0], "--") then rest else [args[0]] + rest
  }

  /** `args.find(arg => arg.startsWith("--section="))`. */
  function SectionArg(args: seq<string>): (r: Option<string>)
    ensures r.Some? ==> r.value in args && StartsWith(r.value, SectionOption)
    ensures r.None? <==> forall a :: a in args ==> !StartsWith(a, SectionOption)
  {
    if args == [] then None
    else if StartsWith(args[0], SectionOption) then Some(args[0])
    else
      assert forall a :: a in args ==> a == args[0] || a in args[1..];
      SectionArg(args[1..])
  }

  /**
   * The value of a `--section=` argument: `arg.split("=")[1]`, the text
   * after the first `=` up to the next one.
   */
  function SectionValueOf(arg: string): (v: string)
    requires StartsWith(arg, SectionOption)
    ensures v == Split(arg[|SectionOption|..], '=')[0]
  {
    var rest := arg[|SectionOption|..];
    assert arg == "--section" + ['='] + rest;
    SplitAround("--section", rest, '=');
    Split(arg, '=')[1]
  }

  /**
   * The script's argument handling: `--popular` anywhere switches longtail
   * mode on; the first `--section=` argument gives the section id; the
   * first positional argument is the input, missing when absent or empty
   * (`!input`); the second the output file, `output.csv` when absent or
   * empty.
   */
  function ParseArgs(args: seq<string>): Args
  {
    var section := SectionArg(args);
    var ps := Positional(args);
    Args(PopularFlag in args,
         if section.Some? then SectionValueOf(section.value) else DefaultSectionId,
         if ps == [] || ps[0] == "" then None else Some(ps[0]),
         if |ps| < 2 || ps[1] == "" then DefaultOutput else ps[1])
  }

  /** `--section=` followed by a value without `=` selects exactly that value. */
  lemma SectionValue(args: seq<string>, v: string)
    requires SectionArg(args) == Some(SectionOption + v) && '=' !in v
    ensures ParseArgs(args).sectionId == v
  {
    assert (SectionOption + v)[|SectionOption|..] == v;
    SplitJoin([v], '=');
  }

  /** With no section argument the default section is used; the first positional argument that is not empty is the input. */
  lemma ArgsDefaults(args: seq<string>)
    ensures (forall a :: a in args ==> !StartsWith(a, SectionOption)) ==> ParseArgs(args).sectionId == DefaultSectionId
    ensures ParseArgs(args).input.Some? ==>
              ParseArgs(args).input.value in args && ParseArgs(args).input.value != ""
              && !StartsWith(ParseArgs(args).input.value, "--")
  {
  }

  /** `find` takes the first `--section=` argument: none before it is one. */
  lemma {:induction false} SectionArgFirst(args: seq<string>)
    ensures SectionArg(args).Some? ==>
              exists i :: 0 <= i < |args| && args[i] == SectionArg(args).value
                          && forall j :: 0 <= j < i ==> !StartsWith(args[j], SectionOption)
  {
    if args != [] {
      if StartsWith(args[0], SectionOption) {
        assert args[0] == SectionArg(args).value;
      } else if SectionArg(args[1..]).Some? {
        var tail := args[1..];
        SectionArgFirst(tail);
        var i :| 0 <= i < |tail| && tail[i] == SectionArg(tail).value
                 && forall j :: 0 <= j < i ==> !StartsWith(tail[j], SectionOption);
        assert SectionArg(args) == SectionArg(tail);
        assert args[i + 1] == tail[i];
        forall j | 0 <= j < i + 1 ensures !StartsWith(args[j], SectionOption) {
          if j > 0 {
            assert args[j] == tail[j - 1];
          }
        }
      }
    }
  }

  /** `filter` keeps order: the positional arguments of a list are those of its two parts, one after the other. */
  lemma {:induction false} PositionalAppend(a: seq<string>, b: seq<string>)
    ensures Positional(a + b) == Positional(a) + Positional(b)
  {
    if a == [] {
      assert a + b == b;
    } else {
      assert (a + b)[0] == a[0] && (a + b)[1..] == a[1..] + b;
      PositionalAppend(a[1..], b);
    }
  }

  /** Every argument starts with `--`. */
  predicate Flags(args: seq<string>)
  {
    forall k :: 0 <= k < |args| ==> StartsWith(args[k], "--")
  }

  lemma {:induction false} FlagsPositional(args: seq<string>)
    requires Flags(args)
    ensures Positional(args) == []
  {
    if args != [] {
      FlagsPositional(args[1..]);
    }
  }

  lemma PositionalOne(a: string)
    requires !StartsWith(a, "--")
    ensures Positional([a]) == [a]
  {
    assert [a][1..] == [];
  }

  /** With options only, there is no input (the usage branch) and the output is `output.csv`. */
  lemma ArgsNoInput(args: seq<string>)
    requires Flags(args)
    ensures ParseArgs(args).input.None? && ParseArgs(args).outputFile == DefaultOutput
  {
    FlagsPositional(args);
  }

  /**
   * Options may come anywhere: the first argument not starting with `--`
   * is the input (missing when empty), and with no second one the output
   * is `output.csv`.
   */
  lemma ArgsInputOnly(f1: seq<string>, input: string, f2: seq<string>)
    requires Flags(f1) && Flags(f2) && !StartsWith(input, "--")
    ensures ParseArgs(f1 + [input] + f2).input == (if input == "" then None else Some(input))
    ensures ParseArgs(f1 + [input] + f2).outputFile == DefaultOutput
  {
    PositionalAppend(f1, [input]);
    PositionalAppend(f1 + [input], f2);
    FlagsPositional(f1);
    FlagsPositional(f2);
    PositionalOne(input);
  }

  /**
   * The first argument not starting with `--` is the input (missing when
   * empty) and the second the output file (`output.csv` when empty),
   * whatever options come around them and whatever follows.
   */
  lemma ArgsInputOutput(f1: seq<string>, input: string, f2: seq<string>, output: string, rest: seq<string>)
    requires Flags(f1) && Flags(f2) && !StartsWith(input, "--") && !StartsWith(output, "--")
    ensures ParseArgs(f1 + [input] + f2 + [output] + rest).input == (if input == "" then None else Some(input))
    ensures ParseArgs(f1 + [input] + f2 + [output] + rest).outputFile == (if output == "" then DefaultOutput else output)
  {
    PositionalAppend(f1, [input]);
    PositionalAppend(f1 + [input], f2);
    PositionalAppend(f1 + [input] + f2, [output]);
    PositionalAppend(f1 + [input] + f2 + [output], rest);
    FlagsPositional(f1);
    FlagsPositional(f2);
    PositionalOne(input);
    PositionalOne(output);
  }

  // ---------------------------------------------------------------------
  // Where the URLs come from.

  const HttpScheme := "http://"
  const HttpsScheme := "https://"

  /** `isLocalFile`: the input is read as a file unless it starts with one of the two web schemes. */
  predicate IsLocalFile(input: string)
  {
    !StartsWith(input, HttpScheme) && !StartsWith(input, HttpsScheme)
  }

  /**
   * An input is read from the web exactly when it is `http://` or
   * `https://` followed by anything; every other input, such as a relative
   * path, is read as a file.
   */
  lemma LocalFileCases(rest: string, input: string)
    ensures !IsLocalFile(HttpScheme + rest) && !IsLocalFile(HttpsScheme + rest)
    ensures !IsLocalFile(input) ==>
              input == HttpScheme + input[|HttpScheme|..] || input == HttpsScheme + input[|HttpsScheme|..]
    ensures (input == [] || input[0] != 'h') ==> IsLocalFile(input)
  {
    if !IsLocalFile(input) {
      if StartsWith(input, HttpScheme) {
        assert input == input[..|HttpScheme|] + input[|HttpScheme|..];
      } else {
        assert input == input[..|HttpsScheme|] + input[|HttpsScheme|..];
      }
    }
    assert (HttpScheme + rest)[..|HttpScheme|] == HttpScheme;
    assert (HttpsScheme + rest)[..|HttpsScheme|] == HttpsScheme;
    if input != [] && input[0] != 'h' {
      assert !StartsWith(input, HttpScheme) by {
        if |HttpScheme| <= |input| { assert input[..|HttpScheme|][0] == input[0]; }
      }
      assert !StartsWith(input, HttpsScheme) by {
        if |HttpsScheme| <= |input| { assert input[..|HttpsScheme|][0] == input[0]; }
      }
    }
  }

  const Unknown := "unknown"

  /**
   * The product name given to a URL that is not an integration page: the
   * last non-empty segment of its path (`pathname.split("/").filter(Boolean)`),
   * or `unknown` when there is none.
   */
  function PathProduct(pathname: string): (p: string)
    ensures p != [] && '/' !in p
    ensures p == Unknown || p in Split(pathname, '/')
  {
    var parts := Split(pathname, '/');
    var segments := KeepNonEmpty(parts);
    KeepNonEmptyMembers(parts);
    if segments == [] then Unknown
    else
      var last := segments[|segments| - 1];
      assert last in parts;
      var i :| 0 <= i < |parts| && parts[i] == last;
      last
  }

  function Empties(n: nat): (es: seq<string>)
    ensures |es| == n && forall k :: 0 <= k < n ==> es[k] == []
  {
    seq(n, _ => [])
  }

  lemma {:induction false} KeepNoneOfEmpties(n: nat)
    ensures KeepNonEmpty(Empties(n)) == []
  {
    if n > 0 {
      assert Empties(n)[1..] == Empties(n - 1);
      KeepNoneOfEmpties(n - 1);
    }
  }

  lemma NoSlashParts(dirs: seq<string>, name: string, trailing: nat, parts: seq<string>)
    requires forall k :: 0 <= k < |dirs| ==> '/' !in dirs[k]
    requires '/' !in name && parts == dirs + [name] + Empties(trailing)
    ensures |parts| >= 1 && forall k :: 0 <= k < |parts| ==> '/' !in parts[k]
  {
    forall k | 0 <= k < |parts| ensures '/' !in parts[k] {
      if k < |dirs| { assert parts[k] == dirs[k]; }
      else if k == |dirs| { assert parts[k] == name; }
      else { assert parts[k] == Empties(trailing)[k - |dirs| - 1]; }
    }
  }

  lemma KeepLast(dirs: seq<string>, name: string, trailing: nat)
    requires name != []
    ensures KeepNonEmpty(dirs + [name] + Empties(trailing)) == KeepNonEmpty(dirs) + [name]
  {
    KeepNonEmptyAppend(dirs + [name], Empties(trailing));
    KeepNonEmptyAppend(dirs, [name]);
    KeepNoneOfEmpties(trailing);
    assert KeepNonEmpty([name]) == [name] + KeepNonEmpty([]);
  }

  /**
   * The last segment wins, however many directories come before it and
   * however many slashes after it.
   */
  lemma PathProductLast(dirs: seq<string>, name: string, trailing: nat)
    requires forall k :: 0 <= k < |dirs| ==> '/' !in dirs[k]
    requires name != [] && '/' !in name
    ensures PathProduct(Join(dirs + [name] + Empties(trailing), '/')) == name
  {
    var parts := dirs + [name] + Empties(trailing);
    NoSlashParts(dirs, name, trailing, parts);
    SplitJoin(parts, '/');
    KeepLast(dirs, name, trailing);
  }

  /** A path of slashes only has no segment. */
  lemma {:induction false} PathOfSlashes(pathname: string)
    requires forall k :: 0 <= k < |pathname| ==> pathname[k] == '/'
    ensures KeepNonEmpty(Split(pathname, '/')) == []
    ensures PathProduct(pathname) == Unknown
  {
    if pathname == [] {
      assert KeepNonEmpty([""]) == KeepNonEmpty([]);
    } else {
      PathOfSlashes(pathname[1..]);
      var rest := Split(pathname[1..], '/');
      assert Split(pathname, '/') == [""] + rest;
      assert ([""] + rest)[1..] == rest;
    }
  }

  /**
   * One line of a URL file as the loop handles it: an integration URL keeps
   * its two products; any other URL gets the last path segment and an empty
   * second product. `pathOf` stands for `new URL(url).pathname`, `None`
   * where the constructor throws, which ends the run.
   */
  function FileRecord(url: string, pathOf: string -> Option<string>): Result<seq<Call>, string>
  {
    match ParseIntegrationUrl(url)
    case Some(p) => Ok([Call(url, p.product1, p.product2)])
    case None =>
      match pathOf(url)
      case None => Err(url)
      case Some(path) => Ok([Call(url, PathProduct(path), "")])
  }

  function FileSteps(urls: seq<string>, pathOf: string -> Option<string>): seq<Result<seq<Call>, string>>
  {
    seq(|urls|, k requires 0 <= k < |urls| => FileRecord(urls[k], pathOf))
  }

  /** The URL list built from a file's lines, or the line on which `new URL` threw. */
  function FileRecords(urls: seq<string>, pathOf: string -> Option<string>): Result<seq<Call>, string>
  {
    Sequence(FileSteps(urls, pathOf))
  }

  /** The record a file line gives. */
  predicate RecordOf(c: Call, url: string, pathOf: string -> Option<string>)
  {
    c.url == url
    && (IsIntegrationUrl(url) ==> Some(Products(c.product1, c.product2)) == ParseIntegrationUrl(url))
    && (!IsIntegrationUrl(url) ==> pathOf(url).Some? && c.product1 == PathProduct(pathOf(url).value) && c.product2 == "")
  }

  /**
   * The file branch succeeds exactly when every line is an integration URL
   * or a URL `new URL` accepts; it then gives one record per line, in line
   * order. Otherwise it fails on the first line that is neither.
   */
  lemma FileRecordsSpec(urls: seq<string>, pathOf: string -> Option<string>)
    ensures FileRecords(urls, pathOf).Ok? <==>
              forall k :: 0 <= k < |urls| ==> IsIntegrationUrl(urls[k]) || pathOf(urls[k]).Some?
    ensures FileRecords(urls, pathOf).Ok? ==>
              var cs := FileRecords(urls, pathOf).value;
              |cs| == |urls| && forall k :: 0 <= k < |urls| ==> RecordOf(cs[k], urls[k], pathOf)
    ensures forall k :: 0 <= k < |urls| && !IsIntegrationUrl(urls[k]) && pathOf(urls[k]).None?
              && (forall j :: 0 <= j < k ==> IsIntegrationUrl(urls[j]) || pathOf(urls[j]).Some?)
              ==> FileRecords(urls, pathOf) == Err(urls[k])
  {
    var rs := FileSteps(urls, pathOf);
    forall k | 0 <= k < |urls|
      ensures rs[k].Ok? <==> IsIntegrationUrl(urls[k]) || pathOf(urls[k]).Some?
      ensures rs[k].Ok? ==> |rs[k].value| == 1 && RecordOf(rs[k].value[0], urls[k], pathOf)
      ensures rs[k].Err? ==> rs[k] == Err(urls[k])
    {
      ParseIffIntegration(urls[k]);
    }
    SequenceSpec(rs);
    if FileRecords(urls, pathOf).Ok? {
      ConcatSingletons(Values(rs));
    }
  }

  lemma FileStep(urls: seq<string>, pathOf: string -> Option<string>, k: nat, records: seq<Call>)
    requires k < |urls| && Sequence(FileSteps(urls, pathOf)[..k]) == Ok(records)
    ensures Sequence(FileSteps(urls, pathOf)[..k + 1]) == AndThen(Ok(records), FileRecord(urls[k], pathOf))
  {
    var rs := FileSteps(urls, pathOf);
    assert rs[..k + 1][..k] == rs[..k];
    assert rs[..k + 1][k] == FileRecord(urls[k], pathOf);
  }

  /** `for (const url of fileUrls) { … urls.push({ url, product1, product2 }) }`. */
  method ReadFileRecords(urls: seq<string>, pathOf: string -> Option<string>)
    returns (records: Result<seq<Call>, string>)
    ensures records == FileRecords(urls, pathOf)
  {
    var acc: seq<Call> := [];
    for k := 0 to |urls|
      invariant Sequence(FileSteps(urls, pathOf)[..k]) == Ok(acc)
    {
      FileStep(urls, pathOf, k, acc);
      var url := urls[k];
      var parsed := ParseIntegrationUrl(url);
      if parsed.Some? {
        acc := acc + [Call(url, parsed.value.product1, parsed.value.product2)];
      } else {
        var path := pathOf(url);
        if path.None? {
          SequencePrefixErr(FileSteps(urls, pathOf), k + 1);
          return Err(url);
        }
        acc := acc + [Call(url, PathProduct(path.value), "")];
      }
    }
    assert FileSteps(urls, pathOf)[..|urls|] == FileSteps(urls, pathOf);
    records := Ok(acc);
  }

  // ---------------------------------------------------------------------
  // Question mode.

  const QuestionHeader := "url,product1,product2,question"

  /** One output row: the record's three fields and its question, each escaped, joined by commas. */
  function QuestionRow(c: Call): string
  {
    Row([c.url, c.product1, c.product2, GenerateQuestion(c.product1, c.product2)])
  }

  /** A question row reads back, as RFC 4180 reads a record, as exactly the URL, the two products and the question about them. */
  lemma QuestionRowReadBack(c: Call)
    ensures ReadRecord(QuestionRow(c)) == Some([c.url, c.product1, c.product2, GenerateQuestion(c.product1, c.product2)])
  {
    RowRoundTrip([c.url, c.product1, c.product2, GenerateQuestion(c.product1, c.product2)]);
  }

  /** The rows of question mode: the header, then one row per record in list order. */
  function QuestionRowsOf(records: seq<Call>): seq<string>
  {
    [QuestionHeader] + MapSeq(records, QuestionRow)
  }

  /** The question-mode loop over the URL list. */
  method QuestionRows(records: seq<Call>) returns (rows: seq<string>)
    ensures rows == QuestionRowsOf(records)
  {
    rows := [QuestionHeader];
    for k := 0 to |records|
      invariant rows == [QuestionHeader] + MapSeq(records[..k], QuestionRow)
    {
      MapSeqStep(records, QuestionRow, k);
      AppendAssoc([QuestionHeader], MapSeq(records[..k], QuestionRow), [QuestionRow(records[k])]);
      rows := rows + [QuestionRow(records[k])];
    }
    assert records[..|records|] == records;
  }

  // ---------------------------------------------------------------------
  // Longtail mode.

  const LongtailHeader := "url,product1,product2,longtail_prompt"

  /**
   * What `getTwosPopularUseCase` sees of a page: a fetch that is not ok
   * (it throws, and the loop's `catch` skips the URL), or the inner HTML of
   * the requested section when the section pattern matched.
   */
  datatype PageFetch = NotOk | Page(section: Option<string>)

  function LongtailRow(c: Call, p: LongtailPrompt): string
  {
    Row([c.url, c.product1, c.product2, p.longtail])
  }

  /** The rows one URL contributes: none when its fetch fails or no use case is found, else one per prompt. */
  function RecordRows(c: Call, fetch: string -> PageFetch, reply: string -> string -> string): seq<string>
  {
    match fetch(c.url)
    case NotOk => []
    case Page(section) =>
      var useCases := UseCasesOf(section);
      if useCases == [] then []
      else
        var ps := Longtails(useCases, reply(c.url));
        seq(|ps|, i requires 0 <= i < |ps| => LongtailRow(c, ps[i]))
  }

  /**
   * Each row of a URL reads back as its URL, its products and the matching
   * prompt of its use cases, in prompt order; a URL whose page fails or has
   * no use case gives no row.
   */
  lemma RecordRowsReadBack(c: Call, fetch: string -> PageFetch, reply: string -> string -> string)
    ensures fetch(c.url).NotOk? || UseCasesOf(fetch(c.url).section) == [] ==> RecordRows(c, fetch, reply) == []
    ensures fetch(c.url).Page? && UseCasesOf(fetch(c.url).section) != [] ==>
              var ps := Longtails(UseCasesOf(fetch(c.url).section), reply(c.url));
              var rows := RecordRows(c, fetch, reply);
              |rows| == |ps|
              && forall k :: 0 <= k < |ps| ==> ReadRecord(rows[k]) == Some([c.url, c.product1, c.product2, ps[k].longtail])
  {
    if fetch(c.url).Page? && UseCasesOf(fetch(c.url).section) != [] {
      var ps := Longtails(UseCasesOf(fetch(c.url).section), reply(c.url));
      forall k | 0 <= k < |ps|
        ensures ReadRecord(LongtailRow(c, ps[k])) == Some([c.url, c.product1, c.product2, ps[k].longtail])
      {
        RowRoundTrip([c.url, c.product1, c.product2, ps[k].longtail]);
      }
    }
  }

  /** The rows of longtail mode: the header, then each URL's rows in list order. */
  function LongtailRowsOf(records: seq<Call>, fetch: string -> PageFetch, reply: string -> string -> string): seq<string>
  {
    [LongtailHeader] + Concat(MapSeq(records, c => RecordRows(c, fetch, reply)))
  }

  lemma PromptRowsStep(c: Call, ps: seq<LongtailPrompt>, j: nat)
    requires j < |ps|
    ensures seq(j + 1, i requires 0 <= i < j + 1 => LongtailRow(c, ps[i]))
         == seq(j, i requires 0 <= i < j => LongtailRow(c, ps[i])) + [LongtailRow(c, ps[j])]
  {
  }

  /** The rows for one URL, inside the loop's `try`. */
  method UrlRows(c: Call, fetch: string -> PageFetch, reply: string -> string -> string) returns (rows: seq<string>)
    ensures rows == RecordRows(c, fetch, reply)
  {
    rows := [];
    var page := fetch(c.url);
    if page.NotOk? {
      return;
    }
    var useCases := PopularUseCases(page.section);
    if |useCases| == 0 {
      return;
    }
    var longtails := GenerateLongtailPrompts(useCases, reply(c.url));
    for j := 0 to |longtails|
      invariant rows == seq(j, i requires 0 <= i < j => LongtailRow(c, longtails[i]))
    {
      PromptRowsStep(c, longtails, j);
      rows := rows + [LongtailRow(c, longtails[j])];
    }
  }

  /** The `--popular` loop over the URL list. */
  method LongtailRows(records: seq<Call>, fetch: string -> PageFetch, reply: string -> string -> string)
    returns (rows: seq<string>)
    ensures rows == LongtailRowsOf(records, fetch, reply)
  {
    ghost var f := c => RecordRows(c, fetch, reply);
    rows := [LongtailHeader];
    for k := 0 to |records|
      invariant rows == [LongtailHeader] + Concat(MapSeq(records[..k], f))
    {
      ConcatMapStep(records, f, k);
      var more := UrlRows(records[k], fetch, reply);
      AppendAssoc([LongtailHeader], Concat(MapSeq(records[..k], f)), more);
      rows := rows + more;
    }
    assert records[..|records|] == records;
  }

  // ---------------------------------------------------------------------
  // The whole run.

  /** How a run ends: the usage text and exit code 1, an uncaught throw, or the CSV written to the output file. */
  datatype RunResult = Usage | Crashed(at: string) | Wrote(file: string, csv: string)

  /**
   * The inputs of one run: the files by name (`None` where reading throws),
   * `new URL(…).pathname`, the sitemap bodies, the depth bound of the walk,
   * the page section for a section id and URL, and the model's reply for a
   * URL and a use case.
   */
  datatype World = World(
    files: string -> Option<string>,
    pathOf: string -> Option<string>,
    pages: Pages,
    fuel: nat,
    fetch: string -> string -> PageFetch,
    reply: string -> string -> string)

  /** The URL records, from the file's lines or from the sitemap walk with `isIntegrationUrl` as filter. */
  function Records(input: string, w: World): Result<seq<Call>, string>
  {
    if IsLocalFile(input) then
      match w.files(input)
      case None => Err(input)
      case Some(content) => FileRecords(UrlLines(content), w.pathOf)
    else
      var o := Process(w.pages, w.fuel, input, Some((u: string) => IsIntegrationUrl(u)));
      if o.failure.Some? then Err(input) else Ok(o.calls)
  }

  function RunOf(args: seq<string>, w: World): RunResult
  {
    var a := ParseArgs(args);
    if a.input.None? then Usage
    else
      var recs := Records(a.input.value, w);
      if recs.Err? then Crashed(recs.error)
      else if a.popular then Wrote(a.outputFile, Join(LongtailRowsOf(recs.value, w.fetch(a.sectionId), w.reply), Newline))
      else Wrote(a.outputFile, Join(QuestionRowsOf(recs.value), Newline))
  }

  /**
   * Every question-mode row after the header reads back as its URL record
   * and the question about the record's products.
   */
  lemma QuestionRowsReadBack(cs: seq<Call>)
    ensures |QuestionRowsOf(cs)| == |cs| + 1 && QuestionRowsOf(cs)[0] == QuestionHeader
    ensures forall k :: 0 <= k < |cs| ==>
              ReadRecord(QuestionRowsOf(cs)[k + 1])
              == Some([cs[k].url, cs[k].product1, cs[k].product2, GenerateQuestion(cs[k].product1, cs[k].product2)])
  {
    forall k | 0 <= k < |cs|
      ensures ReadRecord(QuestionRowsOf(cs)[k + 1])
              == Some([cs[k].url, cs[k].product1, cs[k].product2, GenerateQuestion(cs[k].product1, cs[k].product2)])
    {
      QuestionRowAt(cs, k, QuestionRowsOf(cs)[k + 1]);
    }
  }

  lemma QuestionRowAt(cs: seq<Call>, k: nat, row: string)
    requires k < |cs| && row == QuestionRowsOf(cs)[k + 1]
    ensures ReadRecord(row) == Some([cs[k].url, cs[k].product1, cs[k].product2, GenerateQuestion(cs[k].product1, cs[k].product2)])
  {
    assert row == QuestionRow(cs[k]);
    QuestionRowReadBack(cs[k]);
  }

  /** A sitemap input yields records only for URLs that `parseIntegrationUrl` accepts, with its products. */
  lemma SitemapRecordsAccepted(input: string, w: World)
    requires !IsLocalFile(input) && Records(input, w).Ok?
    ensures forall c :: c in Records(input, w).value ==>
              IsIntegrationUrl(c.url) && ParseIntegrationUrl(c.url) == Some(Products(c.product1, c.product2))
  {
    ProcessCallsAccepted(w.pages, w.fuel, input, Some((u: string) => IsIntegrationUrl(u)));
  }

  /** Where the main block gets its URL list. */
  method ReadRecords(input: string, w: World) returns (recs: Result<seq<Call>, string>)
    ensures recs == Records(input, w)
  {
    if IsLocalFile(input) {
      var content := w.files(input);
      if content.None? {
        return Err(input);
      }
      recs := ReadFileRecords(UrlLines(content.value), w.pathOf);
    } else {
      var calls, failure := ProcessSitemap(w.pages, w.fuel, input, Some((u: string) => IsIntegrationUrl(u)));
      recs := if failure.Some? then Err(input) else Ok(calls);
    }
  }

  /**
   * How a run ends: the usage text exactly when no input is given, a crash
   * exactly when collecting the URL list fails, and otherwise the CSV in the
   * output file, whose first line is the header of the selected mode.
   */
  lemma RunOutcomes(args: seq<string>, w: World)
    ensures RunOf(args, w) == Usage <==> ParseArgs(args).input.None?
    ensures RunOf(args, w).Crashed? <==>
              ParseArgs(args).input.Some? && Records(ParseArgs(args).input.value, w).Err?
    ensures RunOf(args, w).Wrote? ==>
              RunOf(args, w).file == ParseArgs(args).outputFile
              && Split(RunOf(args, w).csv, Newline)[0] == (if PopularFlag in args then LongtailHeader else QuestionHeader)
  {
    var a := ParseArgs(args);
    if a.input.Some? && Records(a.input.value, w).Ok? {
      var recs := Records(a.input.value, w).value;
      var rows := if a.popular then LongtailRowsOf(recs, w.fetch(a.sectionId), w.reply) else QuestionRowsOf(recs);
      assert rows[0] == if a.popular then LongtailHeader else QuestionHeader;
      HeadersOneLine();
      assert RunOf(args, w) == Wrote(a.outputFile, Join(rows, Newline));
      HeaderLine(rows);
    }
  }

  lemma HeadersOneLine()
    ensures Newline !in LongtailHeader && Newline !in QuestionHeader
  {
  }

  /** A first row without a line feed is the first line of the joined rows. */
  lemma HeaderLine(rows: seq<string>)
    requires |rows| >= 1 && Newline !in rows[0]
    ensures Split(Join(rows, Newline), Newline)[0] == rows[0]
  {
    if |rows| == 1 {
      SplitNoNewline(rows[0]);
    } else {
      SplitAround(rows[0], Join(rows[1..], Newline), Newline);
    }
  }

  /** The script's main block. */
  method Run(args: seq<string>, w: World) returns (r: RunResult)
    ensures r == RunOf(args, w)
  {
    var a := ParseArgs(args);
    if a.input.None? {
      return Usage;
    }
    var recs := ReadRecords(a.input.value, w);
    if recs.Err? {
      return Crashed(recs.error);
    }
    var rows: seq<string>;
    if a.popular {
      rows := LongtailRows(recs.value, w.fetch(a.sectionId), w.reply);
    } else {
      rows := QuestionRows(recs.value);
    }
    return Wrote(a.outputFile, Join(rows, Newline));
  }
}
