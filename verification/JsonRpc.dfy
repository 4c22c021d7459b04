/** Answering one line of JSON-RPC 2.0 (tools/mcp-terminal-server.js, `handleLine` and below). */
module JsonRpc {
  import opened Prelude

  datatype Json =
    | Null
    | Bool(b: bool)
    | Number(n: real)
    | Str(s: string)
    | Arr(items: seq<Json>)
    | Obj(fields: map<string, Json>)

  datatype Message = Response(id: Json, result: Json) | Error(id: Json, code: int)

  /** How the awaited work of a request ended; an error may carry an integer code of its own. */
  datatype Outcome = Returned(value: Json) | Threw(code: Option<int>)

  /** The fixed descriptions the server returns: of itself, of its tools, and of its connection. */
  datatype Info = Info(server: Json, tools: Json, connection: Json)

  const PARSE_ERROR := -32700
  const INVALID_REQUEST := -32600
  const METHOD_NOT_FOUND := -32601
  const INVALID_PARAMS := -32602
  const INTERNAL_ERROR := -32603

  /** `isJsonRpcMessage`: anything but an object lacks the two members. */
  predicate IsRequest(m: Json) {
    && m.Obj?
    && "jsonrpc" in m.fields && m.fields["jsonrpc"] == Str("2.0")
    && "method" in m.fields && m.fields["method"].Str?
  }

  /** Section 4 of JSON-RPC 2.0: an id is a string, a number or null. */
  predicate LegalId(id: Json) { id.Str? || id.Number? || id.Null? }

  /** An id could be read from the message. */
  predicate HasLegalId(m: Json) { m.Obj? && "id" in m.fields && LegalId(m.fields["id"]) }

  /** `getMessageId`. */
  function MessageId(m: Json): Json {
    if HasLegalId(m) then m.fields["id"] else Null
  }

  /** Section 4.1 of JSON-RPC 2.0: a request without an id is a notification. */
  predicate IsNotification(m: Json) { IsRequest(m) && "id" !in m.fields }

  /** `callTool`; `ran` is how `runCommand` ended, should it be reached. */
  function CallTool(params: Json, info: Info, ran: Outcome): Outcome {
    if !(params.Obj? && "name" in params.fields && params.fields["name"].Str?) then Threw(Some(INVALID_PARAMS))
    else if params.fields["name"] == Str("terminal_ping") then Returned(info.connection)
    else if params.fields["name"] == Str("terminal_run") then ran
    else Threw(Some(INVALID_PARAMS))
  }

  /** `handleRequest`. */
  function HandleRequest(m: Json, info: Info, ran: Outcome): Outcome
    requires IsRequest(m)
  {
    var name := m.fields["method"].s;
    if name == "initialize" then Returned(info.server)
    else if name == "tools/list" then Returned(info.tools)
    else if name == "ping" then Returned(Obj(map[]))
    else if name == "tools/call" then
      CallTool(if "params" in m.fields then m.fields["params"] else Null, info, ran)
    else Threw(Some(METHOD_NOT_FOUND))
  }

  /** `handleLine`, given what `JSON.parse` made of the line: the messages written for it, in order. */
  function HandleLine(parsed: Option<Json>, info: Info, ran: Outcome): seq<Message> {
    if parsed.None? then [Error(Null, PARSE_ERROR)]
    else
      var m := parsed.value;
      if !IsRequest(m) then [Error(MessageId(m), INVALID_REQUEST)]
      else if "id" !in m.fields then []
      else
        match HandleRequest(m, info, ran)
        case Returned(value) => [Response(m.fields["id"], value)]
        case Threw(code) => [Error(m.fields["id"], if code.Some? then code.value else INTERNAL_ERROR)]
  }

  /**
    Sections 4.1, 5 and 5.1 of JSON-RPC 2.0: every line gets exactly one answer, a notification none;
    the answer carries the message's own id, or null where none could be read; and its id is a legal
    one unless the request itself came with an illegal one.
   */
  lemma OneReplyPerLine(parsed: Option<Json>, info: Info, ran: Outcome)
    ensures var replies := HandleLine(parsed, info, ran);
            && |replies| == (if parsed.Some? && IsNotification(parsed.value) then 0 else 1)
            && (replies != [] ==>
                && (parsed.None? ==> replies[0] == Error(Null, PARSE_ERROR))
                && (parsed.Some? && !IsRequest(parsed.value) ==>
                      && replies[0].Error? && replies[0].code == INVALID_REQUEST
                      && (HasLegalId(parsed.value) ==> replies[0].id == parsed.value.fields["id"])
                      && (!HasLegalId(parsed.value) ==> replies[0].id == Null))
                && (parsed.Some? && IsRequest(parsed.value) ==> replies[0].id == parsed.value.fields["id"])
                && (LegalId(replies[0].id) <==>
                    !(parsed.Some? && IsRequest(parsed.value) && !LegalId(parsed.value.fields["id"]))))
  {
  }

  /** The request calls the tool of this name. */
  predicate CallsTool(m: Json, tool: string) {
    && m.Obj? && "params" in m.fields && m.fields["params"].Obj?
    && "name" in m.fields["params"].fields && m.fields["params"].fields["name"] == Str(tool)
  }

  /** What a request with an id is answered, method by method and tool by tool. */
  ghost predicate IsReply(reply: Message, id: Json, m: Json, name: string, info: Info, ran: Outcome) {
    if name == "ping" then reply == Response(id, Obj(map[]))
    else if name == "initialize" then reply == Response(id, info.server)
    else if name == "tools/list" then reply == Response(id, info.tools)
    else if name != "tools/call" then reply == Error(id, -32601)
    else if CallsTool(m, "terminal_ping") then reply == Response(id, info.connection)
    else if !CallsTool(m, "terminal_run") then reply == Error(id, -32602)
    else
      match ran
      case Returned(value) => reply == Response(id, value)
      case Threw(Some(code)) => reply == Error(id, code)
      case Threw(None) => reply == Error(id, -32603)
  }

  /**
    The whole of a line's answer. What is not JSON gives -32700. What is not an object with `jsonrpc` "2.0"
    and a string `method` gives -32600, with its id if that is a string, a number or null. A notification
    gives nothing. A request with an id gives what `IsReply` says.
   */
  lemma LineMeaning(parsed: Option<Json>, info: Info, ran: Outcome)
    ensures parsed.None? ==> HandleLine(parsed, info, ran) == [Error(Null, -32700)]
    ensures parsed.Some? ==>
              var m, replies := parsed.value, HandleLine(parsed, info, ran);
              if m.Obj? && "jsonrpc" in m.fields && m.fields["jsonrpc"] == Str("2.0") &&
                 "method" in m.fields && m.fields["method"].Str? then
                if "id" in m.fields then
                  |replies| == 1 && IsReply(replies[0], m.fields["id"], m, m.fields["method"].s, info, ran)
                else replies == []
              else
                var readable := m.Obj? && "id" in m.fields &&
                                (m.fields["id"].Str? || m.fields["id"].Number? || m.fields["id"].Null?);
                replies == [Error(if readable then m.fields["id"] else Null, -32600)]
  {
    if parsed.Some? && IsRequest(parsed.value) && parsed.value.fields["method"].s == "tools/call" {
      ToolMeaning(parsed.value, info, ran);
    }
  }

  lemma ToolMeaning(m: Json, info: Info, ran: Outcome)
    requires IsRequest(m) && m.fields["method"].s == "tools/call"
    ensures HandleRequest(m, info, ran) ==
            if CallsTool(m, "terminal_ping") then Returned(info.connection)
            else if CallsTool(m, "terminal_run") then ran else Threw(Some(-32602))
  {
  }
}
