/**
 * The run of `main` and `fetch_command` (src/main.rs:55-80, 82-129) as one pure
 * function: the description gate, the key lookup, the single request, extraction,
 * sanitising and the confirmation. The network round trip, the key lookup and the
 * typed answer are inputs.
 */
module Pipeline {
  import opened Wrappers
  import opened JsonValue
  import opened Text
  import opened Extract
  import opened Sanitizer
  import opened Confirm
  import opened Request

  /** The parsed command line. */
  datatype Cli = Cli(prompt: seq<string>, model: string, apiBase: string)

  const DefaultModel: string := "gpt-5.1-codex-max"
  const DefaultApiBase: string := "https://api.openai.com/v1"

  /** What the transport hands back: a failure, or the body text and its JSON parse (if it parses). */
  datatype Reply = Unreachable | Received(body: string, parsed: Option<Json>)

  /** The transport: one POST of the body to the URL with the bearer key. */
  type Transport = (string, string, ResponsesRequest) -> Reply

  datatype FetchError = TransportError | UndecodableBody(body: string) | NoTextOutput(body: string)

  datatype Outcome =
    | MissingDescription
    | MissingApiKey
    | FetchFailed(error: FetchError)
    | Declined(command: string)
    | Executed(command: string)

  /** `cli.prompt.join(" ")`. */
  function Description(prompt: seq<string>): string {
    JoinWith(prompt, ' ')
  }

  /** `description.trim().is_empty()`. */
  predicate IsBlank(description: string) {
    Trim(description) == []
  }

  /** `fetch_command`: build and send the body, parse, extract and sanitise the reply. */
  function FetchCommand(transport: Transport, apiKey: string, apiBase: string, model: string,
                        userRequest: string): Result<string, FetchError>
  {
    var body := BuildRequest(model, userRequest);
    var url := ResponsesUrl(apiBase);
    match transport(url, apiKey, body)
    case Unreachable => Err(TransportError)
    case Received(text, None) => Err(UndecodableBody(text))
    case Received(text, Some(doc)) =>
      match ExtractText(doc)
      case None => Err(NoTextOutput(text))
      case Some(raw) => Ok(Sanitize(raw))
  }

  /** `main`, up to the point where the confirmed command is handed to the shell. */
  function Run(cli: Cli, apiKey: Option<string>, transport: Transport, answer: string): Outcome {
    var description := Description(cli.prompt);
    if IsBlank(description) then MissingDescription
    else if apiKey.None? then MissingApiKey
    else
      match FetchCommand(transport, apiKey.value, cli.apiBase, cli.model, description)
      case Err(e) => FetchFailed(e)
      case Ok(command) => if Decide(answer) then Executed(command) else Declined(command)
  }

  /** The outcomes that reach one of `main`'s `Ok` returns: declined, or handed to the shell (whose own status is not modelled). */
  predicate ExitsCleanly(outcome: Outcome) {
    outcome.Declined? || outcome.Executed?
  }

  // ---------------------------------------------------------------------

  /** The description is blank exactly when every word of the prompt is whitespace. */
  lemma BlankIff(prompt: seq<string>)
    ensures IsBlank(Description(prompt)) <==> forall i :: 0 <= i < |prompt| ==> All(prompt[i], IsWhitespace)
  {
    TrimWhileEmptyIff(Description(prompt), IsWhitespace);
    JoinWithAll(prompt, ' ', IsWhitespace);
  }

  /** A whitespace-only prompt is rejected whatever the transport would answer: nothing is sent. */
  lemma BlankPromptRejected(cli: Cli, apiKey: Option<string>, transport: Transport, answer: string)
    requires forall i :: 0 <= i < |cli.prompt| ==> All(cli.prompt[i], IsWhitespace)
    ensures Run(cli, apiKey, transport, answer) == MissingDescription
    ensures !ExitsCleanly(Run(cli, apiKey, transport, answer))
  {
    BlankIff(cli.prompt);
  }

  /**
   * A run sends exactly one request, to `ResponsesUrl(cli.apiBase)` with the key and the
   * two-message body around the space-joined prompt: two transports that agree on that
   * one request give the same outcome.
   */
  lemma RunSendsOneRequest(cli: Cli, key: string, t1: Transport, t2: Transport, answer: string)
    requires var req := BuildRequest(cli.model, Description(cli.prompt));
             t1(ResponsesUrl(cli.apiBase), key, req) == t2(ResponsesUrl(cli.apiBase), key, req)
    ensures Run(cli, Some(key), t1, answer) == Run(cli, Some(key), t2, answer)
  {
  }

  /** A reply with no text in any known shape fails the run, carrying the full body. */
  lemma NoTextFails(cli: Cli, key: string, transport: Transport, answer: string, body: string, doc: Json)
    requires !IsBlank(Description(cli.prompt))
    requires transport(ResponsesUrl(cli.apiBase), key, BuildRequest(cli.model, Description(cli.prompt)))
             == Received(body, Some(doc))
    requires ExtractText(doc).None?
    ensures Run(cli, Some(key), transport, answer) == FetchFailed(NoTextOutput(body))
  {
  }

  /**
   * When the reply holds text, the sanitised text is what is proposed: it is handed to the
   * shell when the answer is affirmative and dropped otherwise, so the run reaches `Declined`
   * or `Executed`, the outcomes of `main` before `run_command`.
   */
  lemma ProposedCommand(cli: Cli, key: string, transport: Transport, answer: string,
                        body: string, doc: Json, raw: string)
    requires !IsBlank(Description(cli.prompt))
    requires transport(ResponsesUrl(cli.apiBase), key, BuildRequest(cli.model, Description(cli.prompt)))
             == Received(body, Some(doc))
    requires ExtractText(doc) == Some(raw)
    ensures Decide(answer) ==> Run(cli, Some(key), transport, answer) == Executed(Sanitize(raw))
    ensures !Decide(answer) ==> Run(cli, Some(key), transport, answer) == Declined(Sanitize(raw))
    ensures ExitsCleanly(Run(cli, Some(key), transport, answer))
  {
  }

  /** The reply `{"output":[{"content":[{"text":"ls -la\n"}]}]}`. */
  function ListFilesReply(): Json {
    JObj(map["output" := JArr([JObj(map["content" := JArr([JObj(map["text" := JStr("ls -la\n")])])])])])
  }

  /** The default base gives the public endpoint, with or without a trailing slash. */
  lemma DefaultEndpoint(base: string)
    requires base == DefaultApiBase || base == DefaultApiBase + "/"
    ensures ResponsesUrl(base) == "https://api.openai.com/v1/responses"
  {
    TrimEndWhileNoop(DefaultApiBase, IsSlash);
    ResponsesUrlIgnoresTrailingSlashes(DefaultApiBase, "/");
  }

  lemma ListFilesReplyText()
    ensures ExtractText(ListFilesReply()) == Some("ls -la\n")
  {
    var doc := ListFilesReply();
    var part := JObj(map["text" := JStr("ls -la\n")]);
    var msg := JObj(map["content" := JArr([part])]);
    assert Get(doc, "output") == Some(JArr([msg]));
    assert GetArr(msg, "content") == Some([part]);
    OutputArrayHit(doc, [msg], 0, [part], 0);
  }

  lemma ListFilesDescription(cli: Cli)
    requires cli.prompt == ["list", "files"]
    ensures Description(cli.prompt) == "list files" && !IsBlank(Description(cli.prompt))
  {
    assert cli.prompt[1..] == ["files"];
    assert JoinWith(cli.prompt, ' ') == "list" + [' '] + "files";
    BlankIff(cli.prompt);
    assert !IsWhitespace(cli.prompt[0][0]);
  }

  /**
   * The `list files` run: given a reply proposing `ls -la` on a line of its own, exactly
   * `ls -la` reaches the shell after `y`, and it is left unexecuted after `n`.
   */
  lemma ListFilesScenario(cli: Cli, key: string, transport: Transport, body: string, answer: string)
    requires cli == Cli(["list", "files"], DefaultModel, DefaultApiBase)
    requires transport(ResponsesUrl(cli.apiBase), key, BuildRequest(cli.model, "list files"))
             == Received(body, Some(ListFilesReply()))
    requires answer == "y" || answer == "n"
    ensures answer == "y" ==> Run(cli, Some(key), transport, answer) == Executed("ls -la")
    ensures answer == "n" ==> Run(cli, Some(key), transport, answer) == Declined("ls -la")
  {
    ListFilesDescription(cli);
    ListFilesReplyText();
    SanitizeExample8();
    ProposedCommand(cli, key, transport, answer, body, ListFilesReply(), "ls -la\n");
    if answer == "y" {
      DecideAccepts(answer);
    } else {
      DecideDeclines(answer);
    }
  }
}
