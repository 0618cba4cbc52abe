# Zapier sitemap scripts, modelled in Dafny

This project models two command-line scripts of the `samples` repository.

- **The sitemap content-type validator** (`scripts/validate-urls/index.ts`) fetches a sitemap and follows nested sitemap indexes. It sends a HEAD request to every page URL, ten at a time, and reports which pages answer with a `text/markdown` content type. It exits with status 1 when any of them does not.
- **The prompt generator** (`scripts/prompt-gen/index.ts`) collects Zapier integration URLs. It reads them from a file of lines or walks a sitemap read as text. For each URL it writes a CSV row with the two product names and a question about connecting them. With `--popular` it instead reads the page's "most popular" use cases, asks a language model for everyday questions about each one, and writes one row per question.

The network, the file system, the XML parser, `new URL` and the language model are parameters of the model (maps and functions). Every loop of the scripts is a `method` with its loop invariants. Each method is proved equal to a recursive specification function, and the properties are proved about those functions as lemmas.

Modules, one per file:

| file | module | what it holds |
|---|---|---|
| `common.dfy` | `Common` | `Option`, `Result`, list concatenation, and `Sequence`, which turns a list of results into the first error or all values |
| `text.dfy` | `Text` | the JavaScript string operations the scripts use: `trim`, `startsWith`, `includes`, `split`, `join`, global `replace`, ASCII `toLowerCase`, and an unanchored regex search |
| `lines.dfy` | `Lines` | `split("\n").map(trim).filter(…)` for URL files and model replies |
| `sitemap_tree.dfy` | `SitemapTree` | the validator's `fetchSitemap` and `parseSitemap` |
| `validator.dfy` | `Validator` | `validateUrl`, the batched `validateSitemap`, and the exit status |
| `integration_url.dfy` | `IntegrationUrl` | `INTEGRATION_URL_PATTERN`, `isIntegrationUrl`, `parseIntegrationUrl`, `generateQuestion` |
| `sitemap_scan.dfy` | `SitemapScan` | the generator's `extractUrls`, `isSitemapIndex`, `processSitemap` |
| `csv.dfy` | `Csv` | `escapeCSV`, and a reader for one record in the format of section 2 of RFC 4180, used as its inverse |
| `use_cases.dfy` | `UseCases` | `getTwosPopularUseCase` after the section match, and `generateLongtailPrompts` |
| `prompt_cli.dfy` | `PromptCli` | the generator's main block: arguments, `readUrlsFromFile`, `isLocalFile`, the path fallback, both CSV modes |

## Model

| member | source | states |
|---|---|---|
| SitemapTree.FetchSitemap | scripts/validate-urls/index.ts:29-44 | a fetch succeeds exactly when the GET is ok and the body parses, giving that document; a status outside the ok range fails with that status |
| SitemapTree.IndexChildrenInOrder | scripts/validate-urls/index.ts:51-62 | an index resolves exactly when every child resolves; its URLs are the children's URLs concatenated in entry order; otherwise the result is the first failing child's error |
| SitemapTree.PageLocsInOrder | scripts/validate-urls/index.ts:65-72 | a urlset succeeds exactly when every entry has a `loc`; it then keeps each entry's `loc[0]` when that is non-empty, in entry order, and no kept URL is empty |
| SitemapTree.IndexBeforeUrlset | scripts/validate-urls/index.ts:46-75 | a document with both parts gives the index's URLs followed by the urlset's, and fails when either part fails |
| SitemapTree.NestedFailureAborts | scripts/validate-urls/index.ts:58-59 | a failed fetch of any sitemap reachable through the index tree fails the whole resolution |
| SitemapTree.ResolveMonotone | scripts/validate-urls/index.ts:58-59 | a resolution that succeeds within a depth bound gives the same URLs with one more level allowed |
| SitemapTree.ResolveStable | scripts/validate-urls/index.ts:58-59 | a resolution that succeeds within a depth bound gives the same URLs under every larger bound |
| SitemapTree.TwoLeafTree | scripts/validate-urls/index.ts:46-75 | an index of two urlsets resolves to the four page URLs in document order |
| SitemapTree.ResolveSitemap | scripts/validate-urls/index.ts:118-119 | the fetch-then-parse recursion computes the specified resolution |
| SitemapTree.ResolveIndexEntries | scripts/validate-urls/index.ts:52-61 | the loop over index entries computes the specified concatenation and stops at the first failure |
| SitemapTree.CollectPageLocs | scripts/validate-urls/index.ts:66-71 | the loop over urlset entries computes the specified list of page URLs |
| Validator.ValidateUrl | scripts/validate-urls/index.ts:77-105 | success exactly when the response has a content type whose lower-case form starts with `text/markdown`; the header is kept as observed; a thrown request fails with its message and no content type |
| Validator.MarkdownPrefix | scripts/validate-urls/index.ts:89-90 | a content type is markdown exactly when its first 13 characters, lower-cased, spell `text/markdown` |
| Validator.MarkdownExamples | scripts/validate-urls/index.ts:89-90 | `text/markdown; charset=utf-8` and `Text/Markdown` pass and `text/html` does not |
| Validator.Batches | scripts/validate-urls/index.ts:125-128 | the batches are non-empty, hold at most ten URLs, and all but the last hold exactly ten |
| Validator.BatchAt | scripts/validate-urls/index.ts:127-128 | batch `k` is the slice from `k*10` to `min(k*10+10, n)` |
| Validator.BatchesCover | scripts/validate-urls/index.ts:127-141 | concatenating the batches gives back the URL list |
| Validator.Summarize | scripts/validate-urls/index.ts:144-145 | the total is the number of results, and failed equals total minus successful, which is never negative |
| Validator.NoFailuresIffAllSucceed | scripts/validate-urls/index.ts:144-145 | every URL succeeds exactly when the success count is the total |
| Validator.FailedCountsFailures | scripts/validate-urls/index.ts:152-154 | the failed count is the number of entries in the list of failures |
| Validator.ValidateUrls | scripts/validate-urls/index.ts:124-170 | the batch loop gives one result per URL in input order, and one progress report per URL, numbered 1 to n |
| Validator.ProgressPerBatch | scripts/validate-urls/index.ts:131-134 | the report for slot `b` of batch `j` concerns that URL and carries counter `10j+b+1`, between 1 and the total |
| Validator.ValidateSitemap | scripts/validate-urls/index.ts:107-171 | a failed resolution propagates with no progress; otherwise it gives one result and one report per resolved URL, in order |
| Validator.Cli | scripts/validate-urls/index.ts:174-200 | the exit status is 0 exactly when an argument is given, the sitemap resolves, and every resolved URL validates; otherwise it is 1 |
| IntegrationUrl.MatchHereIff | scripts/prompt-gen/index.ts:11 | an anchored match gives products `p` exactly when the text is `zapier.com/apps/`, then `p.product1`, then `/integrations/`, then `p.product2`, where each name is a maximal non-empty run without `/` |
| IntegrationUrl.FirstMatchIsLeftmost | scripts/prompt-gen/index.ts:11-21 | the unanchored search fails exactly when no offset matches, and otherwise returns the match at the leftmost matching offset |
| IntegrationUrl.ParseIffIntegration | scripts/prompt-gen/index.ts:13-21 | `parseIntegrationUrl` returns products exactly when `isIntegrationUrl` holds, and they are the shape found at the leftmost match |
| IntegrationUrl.SegmentUnique | scripts/prompt-gen/index.ts:11 | the greedy `[^/]+` run is the only `/`-free prefix that ends at a `/` or at the end |
| IntegrationUrl.GenerateQuestion | scripts/prompt-gen/index.ts:79-81 | the question starts with `How do I connect `, ends with `?`, and holds both product names at fixed offsets |
| SitemapScan.MatchLocAtSound | scripts/prompt-gen/index.ts:32 | what the matcher finds at a position is a match of `<tag>\s*<loc>([^<]+)</loc>` there: the tag, white space, `<loc>`, a non-empty text without `<`, then `</loc>`, and the reported length is that match's |
| SitemapScan.MatchLocAtComplete | scripts/prompt-gen/index.ts:32 | wherever the text starts with such a match, the matcher finds it, with that group 1 and that length |
| SitemapScan.MatchLocAtIff | scripts/prompt-gen/index.ts:32 | the matcher gives text `h` and length `n` exactly when some all-space `w` makes the text start with `<tag>`, `w`, `<loc>`, `h`, `</loc>`, of total length `n` |
| SitemapScan.LocMatchesEmpty | scripts/prompt-gen/index.ts:34 | `matchAll` finds nothing exactly when the pattern matches at no offset |
| SitemapScan.LocMatchesFirst | scripts/prompt-gen/index.ts:34 | the first group `matchAll` yields is the one at the leftmost matching offset, and the search resumes where that match ends |
| SitemapScan.SkipFiller | scripts/prompt-gen/index.ts:34 | text containing no `<tag>` yields no match, even one running into what follows, when that starts with `<` |
| SitemapScan.ElementStep | scripts/prompt-gen/index.ts:34-38 | an element written in the pattern's shape yields its `loc` text, and the search goes on at the next element whatever stands between them, as long as it holds no `<tag>` |
| SitemapScan.LocMatchesElements | scripts/prompt-gen/index.ts:34-38 | over a sequence of such elements, `matchAll` yields each element's `loc` text once, in document order, duplicates included |
| SitemapScan.ExtractedUrls | scripts/prompt-gen/index.ts:31-40 | one URL per match of the global pattern, each trimmed and free of `<` |
| SitemapScan.ExtractedUrlsOfMatches | scripts/prompt-gen/index.ts:34-37 | the URL at each position is group 1 of the match at that position, trimmed |
| SitemapScan.ExtractElements | scripts/prompt-gen/index.ts:31-40 | a document of leading text without `<tag>` and then such elements, each with its own white space and any text after `</loc>` free of `<tag>`, gives one URL per element, in order: its `loc` text trimmed |
| SitemapScan.ExtractUrls | scripts/prompt-gen/index.ts:31-40 | the `matchAll` loop computes the specified URL list |
| SitemapScan.Filtered | scripts/prompt-gen/index.ts:64-66 | with a filter, every kept URL satisfies it and the list does not grow; with none, the list is unchanged |
| SitemapScan.FilteredAppend | scripts/prompt-gen/index.ts:64-66 | filtering keeps order: the kept URLs of two lists joined are the first's kept URLs followed by the second's |
| SitemapScan.FilteredOne | scripts/prompt-gen/index.ts:64-66 | a single URL is kept exactly when there is no filter or the filter accepts it |
| SitemapScan.PageCallsFiltered | scripts/prompt-gen/index.ts:63-75 | filtering and then calling back for each URL that parses gives, URL by URL in list order, one call for each URL that passes the filter and parses, and none for the others |
| SitemapScan.AcceptedCallsComplete | scripts/prompt-gen/index.ts:63-75 | every listed URL that passes the filter and parses gets a callback carrying its two products |
| SitemapScan.ProcessPage | scripts/prompt-gen/index.ts:62-75 | a fetched page sitemap that is not an index does not throw and calls back once per `<url>` URL that passes the filter and parses, in document order |
| SitemapScan.PageCallsParsed | scripts/prompt-gen/index.ts:70-75 | every callback comes from a listed URL that `parseIntegrationUrl` accepts, with its two products |
| SitemapScan.ProcessCallsAccepted | scripts/prompt-gen/index.ts:46-77 | every callback of a walk concerns a URL that passes the filter and parses as an integration URL |
| SitemapScan.ProcessAllInOrder | scripts/prompt-gen/index.ts:58-60 | the child walks succeed exactly when each does, giving their callbacks concatenated in order; otherwise the result is the first child's failure |
| SitemapScan.ProcessAllPrefixFail | scripts/prompt-gen/index.ts:58-60 | once a child walk throws, later children are never walked |
| SitemapScan.ProcessSitemap | scripts/prompt-gen/index.ts:46-77 | the recursive walk computes the specified callbacks and failure |
| SitemapScan.FilterUrls | scripts/prompt-gen/index.ts:64-66 | the filter loop computes the specified filtered list |
| SitemapScan.CallbackLoop | scripts/prompt-gen/index.ts:70-75 | the callback loop makes the specified calls in order |
| Csv.EscapeCsv | scripts/prompt-gen/index.ts:83-88 | a value without comma, quote or line feed is unchanged; any other value is wrapped in quotes with its quotes doubled |
| Csv.DoubleQuotesShape | scripts/prompt-gen/index.ts:85 | doubling adds one character per quote and leaves every other character's count unchanged |
| Csv.EscapeRoundTrip | scripts/prompt-gen/index.ts:83-88 | reading an escaped value as a record gives back the value |
| Csv.RowRoundTrip | scripts/prompt-gen/index.ts:294-296 | a row of escaped fields joined by commas reads back as exactly those fields |
| Lines.NonEmptyLinesClean | scripts/prompt-gen/index.ts:180-182 | every line kept is non-empty, trimmed, and holds no line feed |
| Lines.NonEmptyLinesAppend | scripts/prompt-gen/index.ts:180-182 | the lines of two texts joined by a line feed are the first text's lines followed by the second's |
| Lines.NonEmptyLinesJoin | scripts/prompt-gen/index.ts:180-182 | clean lines joined by line feeds split back into exactly those lines |
| Lines.UrlLines | scripts/prompt-gen/index.ts:205-211 | every URL read from a file is non-empty, trimmed, and does not start with `#` |
| Lines.UrlLinesAppend | scripts/prompt-gen/index.ts:205-211 | the URL lines of a file keep the file's order |
| UseCases.Headings | scripts/prompt-gen/index.ts:117-119 | no captured heading text contains a closing `</h2>`–`</h4>` tag, because the lazy capture stops at the first one |
| UseCases.FirstClose | scripts/prompt-gen/index.ts:117 | the lazy `([\s\S]*?)</h[2-4]>` ends at the first closing tag |
| UseCases.StripTagsTagFree | scripts/prompt-gen/index.ts:122 | after `replace(/<[^>]+>/g, "")` no `<…>` tag is left |
| UseCases.StripTagsIdempotent | scripts/prompt-gen/index.ts:122 | stripping tags a second time changes nothing |
| UseCases.DecodeTwice | scripts/prompt-gen/index.ts:123-128 | because `&amp;` is decoded first, `&amp;lt;` is decoded to `<` |
| UseCases.Kept | scripts/prompt-gen/index.ts:131-139 | every kept use case is trimmed, longer than 10 characters, and contains neither `launch your` nor `automated workflow` in lower case |
| UseCases.DedupSpec | scripts/prompt-gen/index.ts:114-143 | the set's spread is duplicate-free, has the same members as its input, and keeps the order of first insertion |
| UseCases.UseCasesSpec | scripts/prompt-gen/index.ts:106-143 | the use cases of a section are distinct, are exactly the kept cleaned headings, pass the length and phrase filter, and follow first occurrence |
| UseCases.PopularUseCases | scripts/prompt-gen/index.ts:106-143 | the heading loop computes the specified use cases, and a missing section gives none |
| UseCases.LongtailsFromReplies | scripts/prompt-gen/index.ts:151-190 | each prompt comes from a listed use case and is a non-empty, trimmed line of that use case's reply |
| UseCases.LongtailsGrouped | scripts/prompt-gen/index.ts:157-187 | the prompts are the per-use-case groups concatenated in use-case order |
| UseCases.GenerateLongtailPrompts | scripts/prompt-gen/index.ts:151-190 | the loop over use cases computes the specified prompts |
| PromptCli.Positional | scripts/prompt-gen/index.ts:226 | the positional arguments are exactly the arguments that do not start with `--` |
| PromptCli.PositionalAppend | scripts/prompt-gen/index.ts:226 | `filter` keeps order: the positional arguments of two lists joined are the first's followed by the second's |
| PromptCli.SectionArg | scripts/prompt-gen/index.ts:223 | the section option found is an argument starting with `--section=`, and none is found exactly when no argument starts that way |
| PromptCli.SectionArgFirst | scripts/prompt-gen/index.ts:223 | the section option found is the first argument starting with `--section=`: no argument before it starts that way |
| PromptCli.SectionValue | scripts/prompt-gen/index.ts:224 | `--section=v` selects section `v` when `v` holds no `=` |
| PromptCli.ArgsDefaults | scripts/prompt-gen/index.ts:219-229 | with no section option the default section id is used; the input is a non-empty positional argument |
| PromptCli.ArgsNoInput | scripts/prompt-gen/index.ts:226-231 | with options only there is no input, so the usage branch is taken, and the output file is `output.csv` |
| PromptCli.ArgsInputOnly | scripts/prompt-gen/index.ts:226-229 | with one argument not starting with `--`, wherever options stand around it, that argument is the input (none when it is empty) and the output file is `output.csv` |
| PromptCli.ArgsInputOutput | scripts/prompt-gen/index.ts:226-229 | the first argument not starting with `--` is the input (none when empty) and the second is the output file (`output.csv` when empty), whatever options come around them and whatever follows |
| PromptCli.LocalFileCases | scripts/prompt-gen/index.ts:213-215 | an input is read from the web exactly when it is `http://` or `https://` followed by anything; every other input, an empty one or one not starting with `h` among them, is read as a file |
| PromptCli.PathProduct | scripts/prompt-gen/index.ts:262-263 | the fallback product is non-empty, holds no `/`, and is `unknown` or a segment of the path |
| PromptCli.PathProductLast | scripts/prompt-gen/index.ts:262-263 | the fallback product is the last non-empty path segment, whatever trailing slashes follow |
| PromptCli.PathOfSlashes | scripts/prompt-gen/index.ts:262-263 | a path of slashes only has no segment and gives `unknown` |
| PromptCli.FileRecordsSpec | scripts/prompt-gen/index.ts:252-268 | the file branch succeeds exactly when each line is an integration URL or a valid URL; it then gives one record per line in order; otherwise it fails at the first bad line |
| PromptCli.ReadFileRecords | scripts/prompt-gen/index.ts:255-267 | the loop over file lines computes the specified records |
| PromptCli.QuestionRowReadBack | scripts/prompt-gen/index.ts:313-316 | a question row reads back as the URL, the two products, and the generated question |
| PromptCli.QuestionRowsReadBack | scripts/prompt-gen/index.ts:310-317 | question mode writes the header and then one row per record, and each row reads back as its record and question |
| PromptCli.QuestionRows | scripts/prompt-gen/index.ts:310-317 | the row loop builds the specified rows |
| PromptCli.RecordRowsReadBack | scripts/prompt-gen/index.ts:284-304 | a URL whose fetch fails or has no use cases gives no row; otherwise it gives one row per prompt, each reading back as the URL, its products, and the prompt |
| PromptCli.UrlRows | scripts/prompt-gen/index.ts:285-304 | one URL's rows in longtail mode are the specified ones |
| PromptCli.LongtailRows | scripts/prompt-gen/index.ts:282-305 | longtail mode writes the header, then each URL's rows in record order |
| PromptCli.SitemapRecordsAccepted | scripts/prompt-gen/index.ts:269-278 | every record taken from a sitemap is an integration URL carrying its parsed products |
| PromptCli.ReadRecords | scripts/prompt-gen/index.ts:252-278 | the URL list is built from the file or the sitemap walk as specified, or the run fails |
| PromptCli.RunOutcomes | scripts/prompt-gen/index.ts:231-321 | the run prints its usage exactly when no input is given, and crashes exactly when collecting the URL list fails; otherwise the CSV goes to the chosen output file, and its first line is the header of the selected mode |
| PromptCli.Run | scripts/prompt-gen/index.ts:218-321 | with no input the run prints its usage; a failure while collecting URLs crashes it; otherwise it writes the CSV of the selected mode to the output file |

## Left out

- HTTP requests (`fetch`, the HEAD probe, `fetchXml`) are inputs: a `Web` or `Pages` map, or a `Probe` or `PageFetch` per URL. The `User-Agent` header and `statusText` are not modelled.
- The xml2js parser is an input. The validator sees an already parsed `Document`, and a body that does not parse is `Unparsable`.
- The section pattern `<section[^>]*id=…>([\s\S]*?)</section>` is an input. The model receives the section's inner HTML, or `None` when the pattern does not match.
- `new URL(url).pathname` is the input `pathOf`. `None` stands for a URL the constructor rejects, which crashes the run.
- The OpenAI `generateText` call is the input `reply`. The prompt text, the model name and the `count` parameter are not modelled. An exception from the call is not modelled either; in the source it is caught per URL.
- `Promise.all` runs the URLs of a batch concurrently. The model runs them one after the other, so the interleaving of `onProgress` calls within a batch is not captured. Each result still lands in its own slot, and the progress counter does not depend on the order.
- Console output is not modelled: log lines, the usage text, the failure report, and the `\r` progress line.
- `Bun.file` reads come from the input `files`. `Bun.write` becomes the `Wrote(file, csv)` result, and the `process.exit` calls become `Usage`, `Crashed` or the exit status.
- Unbounded recursion: neither script detects sitemap cycles. Both walks take a `fuel` depth bound, and a deeper tree fails with `DepthExceeded`, which the source never reports.
- `toLowerCase` is modelled for ASCII letters only. Strings are sequences of characters, not UTF-16 code units.
- The other scripts in the repository are not part of this model: `scripts/tinybird-kafka`, `scripts/tpc-x402`, and `scripts/prompt-gen/longtail.ts` and `popular.ts`.
- Entries without `<loc>`: in the validator, an index or urlset entry without a `<loc>` child makes `loc[0]` throw a TypeError, which aborts the run. The model follows the code (`MissingLoc`) rather than a reading in which such entries are skipped. Only an empty `loc[0]` is skipped.
- Entity decoding runs `&amp;` first, so `&amp;lt;` becomes `<`. This is modelled as written; `UseCases.DecodeTwice` records the consequence.
- Quoted line feeds: longtail and question rows are joined with `"\n"`, and a quoted field may itself hold a line feed. The round-trip lemmas are stated per row, not over the joined file.
