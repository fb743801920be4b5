/**
 * The outgoing request of `fetch_command` (src/main.rs:89-109): the two-message
 * body for the Responses API, its JSON form, and the endpoint URL.
 */
module Request {
  import opened Wrappers
  import opened JsonValue
  import opened Text

  datatype ContentPart = ContentPart(partType: string, text: string)

  datatype Message = Message(role: string, content: seq<ContentPart>)

  datatype ResponsesRequest = ResponsesRequest(model: string, input: seq<Message>)

  /** The fixed instruction sent as the system message. */
  const SystemPrompt: string :=
    "You translate natural-language requests into a single shell command. "
    + "Respond with only the runnable command, no explanations, no code fences. "
    + "Prefer safe quoting for filenames. If the request is impossible, reply with a brief reason."

  /** The body `fetch_command` posts: a system message with the instruction, then the user's text. */
  function BuildRequest(model: string, userRequest: string): (req: ResponsesRequest)
    ensures req.model == model && |req.input| == 2
    ensures req.input[0].role == "system" && req.input[1].role == "user"
    ensures forall i :: 0 <= i < 2 ==>
              |req.input[i].content| == 1 && req.input[i].content[0].partType == "input_text"
    ensures req.input[0].content[0].text == SystemPrompt
    ensures req.input[1].content[0].text == userRequest
  {
    ResponsesRequest(model, [
      Message("system", [ContentPart("input_text", SystemPrompt)]),
      Message("user", [ContentPart("input_text", userRequest)])
    ])
  }

  predicate IsSlash(c: char) {
    c == '/'
  }

  const ResponsesPath: string := "/responses"

  /** `format!("{}/responses", api_base.trim_end_matches('/'))`. */
  function ResponsesUrl(apiBase: string): string {
    TrimEndWhile(apiBase, IsSlash) + ResponsesPath
  }

  /**
   * The URL is the base without its trailing slashes, then `/responses`: what precedes
   * the path is a prefix of the base that does not end in `/`, and only slashes follow it.
   */
  lemma ResponsesUrlShape(apiBase: string)
    ensures var url := ResponsesUrl(apiBase);
      && |url| >= |ResponsesPath| && url[|url| - |ResponsesPath|..] == ResponsesPath
      && var stem := url[..|url| - |ResponsesPath|];
      && |stem| <= |apiBase| && apiBase[..|stem|] == stem
      && (stem == [] || stem[|stem| - 1] != '/')
      && (forall k :: |stem| <= k < |apiBase| ==> apiBase[k] == '/')
  {
    var stem := TrimEndWhile(apiBase, IsSlash);
    TrimEndWhileSpec(apiBase, IsSlash);
    var url := stem + ResponsesPath;
    assert url[..|url| - |ResponsesPath|] == stem;
    assert url[|url| - |ResponsesPath|..] == ResponsesPath;
  }

  /** Any number of trailing slashes on the base gives the same URL. */
  lemma ResponsesUrlIgnoresTrailingSlashes(apiBase: string, slashes: string)
    requires All(slashes, IsSlash)
    ensures ResponsesUrl(apiBase + slashes) == ResponsesUrl(apiBase)
  {
    TrimEndWhileSkips(apiBase, slashes, IsSlash);
  }

  // ---------------------------------------------------------------------
  // The JSON tree `serde` derives for the body (lines 31-48), and its inverse.

  function PartJson(part: ContentPart): Json {
    JObj(map["type" := JStr(part.partType), "text" := JStr(part.text)])
  }

  function PartsJson(parts: seq<ContentPart>): seq<Json> {
    if |parts| == 0 then [] else [PartJson(parts[0])] + PartsJson(parts[1..])
  }

  function MessageJson(msg: Message): Json {
    JObj(map["role" := JStr(msg.role), "content" := JArr(PartsJson(msg.content))])
  }

  function MessagesJson(msgs: seq<Message>): seq<Json> {
    if |msgs| == 0 then [] else [MessageJson(msgs[0])] + MessagesJson(msgs[1..])
  }

  /** The body as `serde_json` serialises it: `{model, input: [{role, content: [{type, text}]}]}`. */
  function RequestJson(req: ResponsesRequest): Json {
    JObj(map["model" := JStr(req.model), "input" := JArr(MessagesJson(req.input))])
  }

  function PartFromJson(j: Json): Option<ContentPart> {
    match (GetStr(j, "type"), GetStr(j, "text"))
    case (Some(t), Some(x)) => Some(ContentPart(t, x))
    case _ => None
  }

  function PartsFromJson(items: seq<Json>): Option<seq<ContentPart>> {
    if |items| == 0 then Some([])
    else
      match (PartFromJson(items[0]), PartsFromJson(items[1..]))
      case (Some(p), Some(ps)) => Some([p] + ps)
      case _ => None
  }

  function MessageFromJson(j: Json): Option<Message> {
    match (GetStr(j, "role"), GetArr(j, "content"))
    case (Some(r), Some(items)) =>
      (match PartsFromJson(items)
       case Some(ps) => Some(Message(r, ps))
       case None => None)
    case _ => None
  }

  function MessagesFromJson(items: seq<Json>): Option<seq<Message>> {
    if |items| == 0 then Some([])
    else
      match (MessageFromJson(items[0]), MessagesFromJson(items[1..]))
      case (Some(m), Some(ms)) => Some([m] + ms)
      case _ => None
  }

  /** Reads a body back from its JSON tree; the inverse of `RequestJson`. */
  function RequestFromJson(j: Json): Option<ResponsesRequest> {
    match (GetStr(j, "model"), GetArr(j, "input"))
    case (Some(m), Some(items)) =>
      (match MessagesFromJson(items)
       case Some(ms) => Some(ResponsesRequest(m, ms))
       case None => None)
    case _ => None
  }

  lemma PartRoundTrip(part: ContentPart)
    ensures PartFromJson(PartJson(part)) == Some(part)
  {
    assert GetStr(PartJson(part), "type") == Some(part.partType);
    assert GetStr(PartJson(part), "text") == Some(part.text);
  }

  lemma {:induction false} PartsRoundTrip(parts: seq<ContentPart>)
    ensures PartsFromJson(PartsJson(parts)) == Some(parts)
  {
    if |parts| > 0 {
      var items := PartsJson(parts);
      PartsRoundTrip(parts[1..]);
      PartRoundTrip(parts[0]);
      assert items[0] == PartJson(parts[0]);
      assert items[1..] == PartsJson(parts[1..]);
      assert [parts[0]] + parts[1..] == parts;
    }
  }

  lemma MessageRoundTrip(msg: Message)
    ensures MessageFromJson(MessageJson(msg)) == Some(msg)
  {
    PartsRoundTrip(msg.content);
    assert GetStr(MessageJson(msg), "role") == Some(msg.role);
    assert GetArr(MessageJson(msg), "content") == Some(PartsJson(msg.content));
  }

  lemma {:induction false} MessagesRoundTrip(msgs: seq<Message>)
    ensures MessagesFromJson(MessagesJson(msgs)) == Some(msgs)
  {
    if |msgs| > 0 {
      var items := MessagesJson(msgs);
      MessagesRoundTrip(msgs[1..]);
      MessageRoundTrip(msgs[0]);
      assert items[0] == MessageJson(msgs[0]);
      assert items[1..] == MessagesJson(msgs[1..]);
      assert [msgs[0]] + msgs[1..] == msgs;
    }
  }

  /** Serialising the body loses nothing: it reads back as the same request. */
  lemma RequestRoundTrip(req: ResponsesRequest)
    ensures RequestFromJson(RequestJson(req)) == Some(req)
  {
    MessagesRoundTrip(req.input);
    assert GetStr(RequestJson(req), "model") == Some(req.model);
    assert GetArr(RequestJson(req), "input") == Some(MessagesJson(req.input));
  }
}
