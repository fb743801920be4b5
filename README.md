# llmwrap — a verified model of the command pipeline

`llmwrap` is a command-line tool. It takes a plain-English description of a shell task, asks the OpenAI Responses API for a command, and shows the proposal. It then runs the command with `sh -c` once the user types `y` or `yes`. The whole program is `src/main.rs`. This project models the parts of it that are pure logic:

- **Request** (`request.dfy`). The request body `fetch_command` posts has two messages: the fixed system instruction, then the user's description. The module also gives the body's JSON tree and a reader that inverts it. It builds the endpoint URL: the base, less any trailing `/`, then `/responses`.
- **Extract** (`extract.dfy`). `extract_text` searches the loosely typed reply for text, trying four shapes in priority order:
  1. the first string `text` of a `content` part in an `output` array;
  2. the same inside a single `output` object;
  3. a string `output_text`;
  4. an `output_text` array of strings, joined by newlines.

  The module has both a recursive definition and a method with the source's nested loops and early returns. The method is proved equal to the definition.
- **Sanitizer** (`sanitizer.dfy`). `sanitize_command` works in four steps: it takes the first line, trims it, strips every surrounding backtick, and trims again.
- **Confirm** (`confirm.dfy`). This is the decision in `confirm_run`: trim the answer, lowercase it, then compare it with `y` or `yes`.
- **Pipeline** (`pipeline.dfy`). `main` and `fetch_command` run as one pure function `Run`. It goes from the parsed command line to the outcome:
  - a missing description
  - a missing key
  - a failed fetch
  - declined
  - handed to the shell
- **Text** (`text.dfy`) and **JsonValue** (`json.dfy`). The `str` operations the code uses (`trim`, `trim_matches`, `trim_end_matches`, `join`), and `serde_json::Value` with its accessors `get`, `as_str` and `as_array`.

The network round trip is a parameter of `Run`. It is a function from URL, key and body to either a transport failure, or a body text with its JSON parse (absent if the text does not parse). The API key from the environment and the line the user types are parameters too.

Three behaviours of the code that are easy to misread:

- **Backticks.** `trim_matches('`')` strips every backtick at both ends, not just one layer, so ```` ```ls``` ```` gives `ls` (`Sanitizer.SanitizeExample3`).
- **Idempotence.** The sanitiser is not idempotent: ``"` `x"`` sanitises to ``"`x"``, and that sanitises to `"x"` (`Sanitizer.SanitizeNotIdempotent`). A second pass leaves the result unchanged exactly when the first result neither starts nor ends with a backtick (`Sanitizer.SanitizeStableIff`).
- **Which content part.** The loops skip `content` parts with no string `text` and return the first part that has one, not necessarily the first part (`Extract.OutputArrayHit`, `Extract.OutputObjectHit`).

## Model

| member | source | states |
|---|---|---|
| JsonValue.Get | src/main.rs:133 | `get` yields a value exactly for an object holding the key, and that value is the key's member |
| JsonValue.GetStr | src/main.rs:137 | `get(..).and_then(as_str)` yields exactly when the member exists and is a string, and yields that string |
| JsonValue.GetArr | src/main.rs:135 | `get(..).and_then(as_array)` yields exactly when the member exists and is an array, and yields its elements |
| Text.IsWhitespace | src/main.rs:179 | definition of `char::is_whitespace` as the Unicode White_Space code points; used by `Trim` at lines 59, 179, 181 and 192 |
| Text.TrimStartWhile | src/main.rs:179-181 | definition of `trim_start_matches(p)`; its properties are `TrimStartWhileSpec`, `TrimStartWhileSkips`, `TrimStartWhileKeeps` |
| Text.TrimEndWhile | src/main.rs:109 | definition of `trim_end_matches(p)`; its properties are `TrimEndWhileSpec`, `TrimEndWhileSkips` |
| Text.TrimWhile | src/main.rs:180 | definition of `trim_matches(p)`; its properties are `TrimWhileSpec`, `TrimWhilePadded`, `TrimWhileEmptyIff`, `TrimWhileShrinks` |
| Text.Trim | src/main.rs:59 | definition of `str::trim`; its properties are those of `TrimWhile` with the whitespace predicate |
| Text.JoinWith | src/main.rs:57 | definition of `join` with a one-character separator; its properties are `JoinWithEmptyIff`, `JoinWithAll` |
| Text.TrimStartWhileSpec | src/main.rs:179-181 | leading trimming keeps a suffix of the input that does not start with a trimmed character, and every dropped character is trimmable |
| Text.TrimEndWhileSpec | src/main.rs:109 | `trim_end_matches` keeps a prefix that does not end with a trimmed character, and every dropped character is trimmable |
| Text.TrimWhileSpec | src/main.rs:179-181 | `trim`/`trim_matches` keep a contiguous part of the input that neither starts nor ends with a trimmed character |
| Text.TrimWhileEmptyIff | src/main.rs:59 | trimming leaves nothing if and only if every character is trimmable |
| Text.TrimWhilePadded | src/main.rs:179-181 | trimming a core padded on both sides by trimmable characters gives exactly the core |
| Text.TrimWhileDropsTrailing | src/main.rs:179 | one more trimmable character at the end does not change the trimmed text |
| Text.TrimWhileNoLonger | src/main.rs:179-181 | trimming never lengthens a text |
| Text.TrimWhileShrinks | src/main.rs:180 | a text that starts or ends with a trimmed character gets strictly shorter |
| Text.TrimEndWhileSkips | src/main.rs:109 | trailing trimmable characters appended to a text do not change its end-trimmed form |
| Text.JoinWithEmptyIff | src/main.rs:161-166 | a join is empty if and only if there are no parts or a single empty one |
| Text.JoinWithAll | src/main.rs:57-59 | when the separator satisfies a property, every character of the join does if and only if every part's characters do |
| Extract.PartText | src/main.rs:137 | definition of a part's string `text`; its properties are `OutputArrayHit`, `MessageTextIff` |
| Extract.MessageText | src/main.rs:135-140 | definition of a message's first string `text`; its property is `MessageTextIff` |
| Extract.First | src/main.rs:134-142 | definition of an in-order scan with early return; its properties are `FirstAt`, `FirstNone`, `FirstFound` |
| Extract.FromOutputArray | src/main.rs:133-143 | definition of shape 1; its properties are `OutputArrayHit`, `OutputArrayFallsThrough` |
| Extract.FromOutputObject | src/main.rs:146-154 | definition of shape 2; its property is `OutputObjectHit` |
| Extract.FromOutputText | src/main.rs:157-169 | definition of shapes 3 and 4; its properties are `OutputTextString`, `OutputTextArray` |
| Extract.ExtractText | src/main.rs:131-172 | definition of `extract_text`; its properties are `ExtractTextScan`, `ExtractNoneIff`, `OutputArrayBeatsOutputText`, `NoKnownShape` |
| Extract.Strings | src/main.rs:161-163 | `filter_map(as_str)` keeps at most as many values as it was given, keeps only strings of the array, and keeps none when there are none |
| Extract.StringsOne | src/main.rs:163 | `filter_map(as_str)` keeps a single string element as its text and drops a single non-string element |
| Extract.StringsAppend | src/main.rs:161-164 | filtering the concatenation of two arrays gives the two filtered lists one after the other, so with `StringsOne` every string element is kept, in order |
| Extract.ScanParts | src/main.rs:136-140 | the inner `for c in contents` loop returns the first part with a string `text`, and returns nothing if and only if no part has one |
| Extract.ExtractTextScan | src/main.rs:131-172 | the nested loops with early returns compute exactly the priority-ordered search `ExtractText` |
| Extract.FirstAt | src/main.rs:134-140 | a scan returns the hit at the first index that has one |
| Extract.FirstNone | src/main.rs:134-142 | a scan finds nothing if and only if no element yields a hit |
| Extract.FirstFound | src/main.rs:134-140 | any hit of a scan comes from some element, and every earlier element yields none |
| Extract.OutputArrayHit | src/main.rs:133-143 | the first string `text` met scanning `output[i].content[j]` in order is the result |
| Extract.OutputObjectHit | src/main.rs:146-154 | with a single message object under `output`, the first string `text` met scanning its `content` parts in order is the result |
| Extract.OutputArrayBeatsOutputText | src/main.rs:133-159 | when the `output` array yields text, no value of `output_text` changes the result |
| Extract.OutputArrayFallsThrough | src/main.rs:133-154 | an `output` array with no string `text` falls through to `output_text`, and the object branch cannot fire on an array |
| Extract.OutputTextString | src/main.rs:157-159 | a string `output_text` is returned verbatim, the empty string included |
| Extract.OutputTextArray | src/main.rs:160-169 | an array `output_text` yields nothing if and only if its strings are none or one empty one; otherwise it yields their newline join |
| Extract.NoKnownShape | src/main.rs:131-172 | a non-object document, or one with neither `output` nor `output_text`, yields nothing |
| Extract.OnlyOutputText | src/main.rs:133-154 | with no `output` member, only the `output_text` fallback decides the result |
| Extract.MessageTextIff | src/main.rs:135-140 | a message yields text if and only if it has a `content` array with a part whose `text` is a string |
| Extract.ExtractNoneIff | src/main.rs:131-172 | extraction fails if and only if none of the four shapes applies: no message of an `output` array or the `output` object has a string `text` part, `output_text` is no string, and an `output_text` array joins to nothing |
| Extract.ExtractExampleEmpty | src/main.rs:131-172 | `{}` yields nothing |
| Extract.ExtractExampleJoined | src/main.rs:160-168 | `output_text: ["a","b"]` yields `"a\nb"` |
| Extract.ExtractExampleOneEmpty | src/main.rs:166-171 | `output_text: [""]` joins to nothing and yields nothing |
| Extract.ExtractExampleTwoEmpty | src/main.rs:160-168 | `output_text: ["",""]` yields `"\n"` |
| Extract.ExtractExampleEmptyString | src/main.rs:157-159 | `output_text: ""` yields the empty string |
| Extract.ExtractExampleOutputFirst | src/main.rs:133-159 | the `output` array's text wins over a string `output_text` |
| Sanitizer.IsBacktick | src/main.rs:180 | definition of the `` '`' `` pattern of `trim_matches`; used by `Sanitize` |
| Sanitizer.Sanitize | src/main.rs:174-184 | definition of `sanitize_command`; its properties are `SanitizeShape`, `SanitizeFirstLineOnly`, `SanitizeStripsWrapping`, `SanitizeStableIff`, `SanitizeNotIdempotent` |
| Sanitizer.LineEnd | src/main.rs:176-177 | the end of the first line: no `'\n'` before it, and a `'\n'` at it unless it is the end of the text |
| Sanitizer.FirstLine | src/main.rs:175-178 | the first line is a newline-free prefix of the text, ended by `'\n'` or `"\r\n"` or by the end of the text; when it ends at a `'\n'`, it does not keep a `'\r'` |
| Sanitizer.FirstLineWhole | src/main.rs:175-178 | a text without a newline is its own first line |
| Sanitizer.FirstLineBefore | src/main.rs:175-178 | the first line is the text before the first `'\n'`, less the `'\r'` of a `"\r\n"` ending |
| Sanitizer.SanitizeShape | src/main.rs:174-184 | the command is a contiguous part of the model's text, has no `'\n'`, and neither starts nor ends with whitespace |
| Sanitizer.SanitizeFirstLineOnly | src/main.rs:175-178 | only the text before the first `'\n'` matters |
| Sanitizer.SanitizeCrLf | src/main.rs:175-179 | a `"\r\n"` line ending is dropped whole |
| Sanitizer.SanitizeLeadingNewline | src/main.rs:175-178 | text starting with `'\n'` sanitises to the empty command |
| Sanitizer.SanitizeStripsWrapping | src/main.rs:179-181 | whitespace outside any number of surrounding backticks, and the backticks, are all removed from a one-line command |
| Sanitizer.SanitizeKeepsClean | src/main.rs:174-184 | a one-line command with no surrounding whitespace or backticks is returned unchanged |
| Sanitizer.SanitizeStableWithoutEdgeBackticks | src/main.rs:174-184 | a second pass changes nothing when the first result neither starts nor ends with a backtick |
| Sanitizer.SanitizeStableIff | src/main.rs:174-184 | a second pass changes nothing if and only if the first result neither starts nor ends with a backtick |
| Sanitizer.SanitizeNotIdempotent | src/main.rs:179-181 | ``"` `x"`` sanitises to ``"`x"``, which sanitises to `"x"`: the sanitiser is not idempotent |
| Sanitizer.SanitizeDropsBacktick | src/main.rs:180 | a single leading backtick before a clean command is removed |
| Sanitizer.SanitizeExposesBacktick | src/main.rs:179-181 | backtick, whitespace, backtick: only the first backtick and the whitespace go |
| Sanitizer.SanitizeExample1 | src/main.rs:174-184 | `ls -la` is unchanged |
| Sanitizer.SanitizeExample2 | src/main.rs:180 | `` `ls -la` `` gives `ls -la` |
| Sanitizer.SanitizeExample3 | src/main.rs:180 | ```` ```ls``` ```` gives `ls` |
| Sanitizer.SanitizeExample4 | src/main.rs:179-181 | `` "  `ls -la`  " `` gives `ls -la` |
| Sanitizer.SanitizeExample5 | src/main.rs:175-178 | `"cmd1\ncmd2"` sanitises as `"cmd1"` does |
| Sanitizer.SanitizeExample6 | src/main.rs:175-179 | `"ls -la\r\nexplanation"` gives `ls -la` |
| Sanitizer.SanitizeExample7 | src/main.rs:175-178 | `"\nls"` gives the empty command |
| Sanitizer.SanitizeExample8 | src/main.rs:175-178 | `"ls -la\n"` gives `ls -la` |
| Confirm.LowerChar | src/main.rs:192 | definition of lowercasing one character, ASCII letters only; its property is `LowerCharIs` |
| Confirm.Lower | src/main.rs:192 | definition of `to_lowercase`, character by character; its property is used in `DecideIff` |
| Confirm.Decide | src/main.rs:192-193 | definition of the decision; its properties are `DecideIff`, `DecideIgnoresPadding` |
| Confirm.DecideIff | src/main.rs:192-193 | the answer is accepted if and only if its trimmed text is `y` or `yes` in any mix of cases |
| Confirm.DecideIgnoresPadding | src/main.rs:192 | whitespace around the answer, a trailing newline included, does not change the decision |
| Confirm.DecideAccepts | src/main.rs:192-193 | `y`, `Y`, `yes`, `YES`, `"Y\n"` and `"  y  "` are accepted |
| Confirm.DecideDeclines | src/main.rs:192-193 | the empty line, `n`, `no`, `maybe`, `yes please` and `y e s` are declined |
| Request.BuildRequest | src/main.rs:89-107 | the body has the model and exactly two messages, `system` and then `user`, each with one `input_text` part; these hold the fixed instruction and the user's text |
| Request.IsSlash | src/main.rs:109 | definition of the `'/'` pattern of `trim_end_matches`; used by `ResponsesUrl` |
| Request.ResponsesUrl | src/main.rs:109 | definition of the endpoint URL; its properties are `ResponsesUrlShape`, `ResponsesUrlIgnoresTrailingSlashes` |
| Request.ResponsesUrlShape | src/main.rs:109 | the URL ends in `/responses`; what precedes it is a prefix of the base that does not end in `/`, and only slashes follow that prefix in the base |
| Request.ResponsesUrlIgnoresTrailingSlashes | src/main.rs:109 | any number of trailing slashes on the base gives the same URL |
| Request.PartJson | src/main.rs:43-48 | definition of the serialised content part; its property is `PartRoundTrip` |
| Request.PartsJson | src/main.rs:40 | definition of the serialised part list; its property is `PartsRoundTrip` |
| Request.MessageJson | src/main.rs:37-41 | definition of the serialised message; its property is `MessageRoundTrip` |
| Request.MessagesJson | src/main.rs:34 | definition of the serialised message list; its property is `MessagesRoundTrip` |
| Request.RequestJson | src/main.rs:31-35 | definition of the serialised body; its property is `RequestRoundTrip` |
| Request.PartRoundTrip | src/main.rs:43-48 | one content part, with `part_type` under the key `type`, reads back from its JSON form |
| Request.PartsRoundTrip | src/main.rs:40 | a list of content parts reads back from its JSON form |
| Request.MessageRoundTrip | src/main.rs:37-41 | one message reads back from its JSON form |
| Request.MessagesRoundTrip | src/main.rs:34 | a list of messages reads back from its JSON form |
| Request.RequestRoundTrip | src/main.rs:31-48 | the serialised body loses nothing: it reads back as the same request |
| Pipeline.Description | src/main.rs:57 | definition of the space-joined prompt; its properties are `BlankIff`, `ListFilesDescription` |
| Pipeline.IsBlank | src/main.rs:59 | definition of the blank-description gate; its property is `BlankIff` |
| Pipeline.FetchCommand | src/main.rs:82-129 | definition of `fetch_command` over the transport; its properties are `NoTextFails`, `ProposedCommand`, `RunSendsOneRequest` |
| Pipeline.Run | src/main.rs:55-80 | definition of `main` up to the shell; its properties are `BlankPromptRejected`, `RunSendsOneRequest`, `NoTextFails`, `ProposedCommand`, `ListFilesScenario` |
| Pipeline.ExitsCleanly | src/main.rs:73-79 | definition of the outcomes that reach one of `main`'s `Ok` returns: declined, or handed to the shell, whose own exit status is not modelled; its property is `ProposedCommand` |
| Pipeline.BlankIff | src/main.rs:57-59 | the joined description is blank if and only if every word of the prompt is whitespace |
| Pipeline.BlankPromptRejected | src/main.rs:57-61 | a whitespace-only prompt ends the run with the missing-description error, whatever the transport would answer |
| Pipeline.RunSendsOneRequest | src/main.rs:63-69 | the outcome depends on the transport only through its answer to one request: the URL, the key, and the body built around the space-joined prompt |
| Pipeline.NoTextFails | src/main.rs:119-126 | a reply with no text in any known shape fails the run, and the error carries the full body |
| Pipeline.ProposedCommand | src/main.rs:67-79 | the sanitised text is handed to the shell after an affirmative answer and dropped otherwise, and the run reaches `Declined` or `Executed`, `main`'s outcomes before `run_command` |
| Pipeline.DefaultEndpoint | src/main.rs:26 | the default base, with or without a trailing slash, gives `https://api.openai.com/v1/responses` |
| Pipeline.ListFilesReplyText | src/main.rs:133-143 | the reply `{"output":[{"content":[{"text":"ls -la\n"}]}]}` yields `"ls -la\n"` |
| Pipeline.ListFilesDescription | src/main.rs:57-59 | the prompt `list files` joins to `"list files"`, which is not blank |
| Pipeline.ListFilesScenario | src/main.rs:55-80 | `llmwrap list files`, with that reply, hands exactly `ls -la` to the shell after `y` and leaves it unexecuted after `n` |

## Left out

- HTTP transport (`reqwest` client, bearer authentication, `error_for_status`, async runtime, lines 66 and 110-119). This is network I/O. `Run` takes it as a function parameter, and any failure is one `TransportError`.
- Parsing and serialising JSON text with `serde_json` (lines 31-48 and 120-121). The model works on the value tree. The transport hands back the body text together with its parse, or no parse. The derived serialisation is modelled as a JSON tree with its inverse reader, not as text.
- `clap` argument parsing, the environment-variable default for `--api-base`, and the `std::env::var` key lookup (lines 9-29, 63-64). The parsed `Cli` and the key, present or absent, are inputs. The defaults are constants.
- Printing and reading in `confirm_run` and `main` (lines 71, 74, 187-191). `Confirm.Decide` models only the decision on the typed line, which is an input. When `flush` or `read_line` fails (lines 188, 191), `main` returns an error; `Outcome` has no case for this.
- `run_command` (lines 196-208): spawning `sh -c` and failing on a non-zero exit status. These are operating-system effects; the model ends at `Executed(command)`.
- The text of `anyhow` errors and contexts. Failures are the constructors of `Outcome` and `FetchError`.
- Confirm.Decide: `to_lowercase` is modelled on ASCII letters only. This loses nothing for this decision, because no other character lowercases to `y`, `e` or `s`.
- Text.IsWhitespace: this is the fixed list of characters with the Unicode White_Space property, as `char::is_whitespace` uses. It is written out as code points, not derived from Unicode data tables.
- JsonValue.Json: numbers are integers, because they play no part in the core.
