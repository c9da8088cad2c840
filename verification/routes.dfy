/** The backend's AI endpoints: `/ai/status` and `/ai/models` relay a probe of the
    model server, and `/ai/chat` builds a context-augmented prompt, calls the model
    server and wraps its answer. Upstream calls are abstract exchanges. */
module Routes {
  import opened Wrappers
  import opened JsonValue
  import opened Text
  import opened Http
  import Auth

  /** The `/ai/status` body: `ollama` is `"running"` exactly when the upstream tags call
      answered 200, `"offline"` otherwise; `url` is always the configured upstream address. */
  function StatusBody(upstream: Exchange, url: string): (body: Json)
    ensures body.JObject? && body.fields.Keys == {"ollama", "url"}
    ensures body.fields["url"] == JString(url)
    ensures body.fields["ollama"] == JString("running") <==> Is200(upstream)
    ensures body.fields["ollama"] in {JString("running"), JString("offline")}
  {
    Object2("ollama", JString(if Is200(upstream) then "running" else "offline"), "url", JString(url))
  }

  /** `[m["name"] for m in models]`: iterating an array takes each element's `name`, which
      must exist on an object; an empty object or string iterates nothing; any other value
      makes the comprehension raise (`None`). */
  function ModelNames(models: Json): (names: Option<seq<Json>>)
    ensures models.JArray? ==>
              (names.Some? <==> forall k | 0 <= k < |models.items| :: Member(models.items[k], "name").Some?)
    ensures names.Some? && models.JArray? ==> |names.value| == |models.items|
    ensures names.Some? && models.JArray? ==>
              forall k | 0 <= k < |models.items| :: names.value[k] == models.items[k].fields["name"]
    ensures names.Some? && !models.JArray? ==> names.value == []
    ensures !models.JArray? ==> (names.Some? <==> models == JObject(map[]) || models == JString(""))
  {
    match models
    case JArray(items) => NamesOf(items)
    case JObject(fields) => if |fields| == 0 then Some([]) else None
    case JString(s) => if s == "" then Some([]) else None
    case _ => None
  }

  function NamesOf(items: seq<Json>): (names: Option<seq<Json>>)
    ensures names.Some? <==> forall k | 0 <= k < |items| :: Member(items[k], "name").Some?
    ensures names.Some? ==> |names.value| == |items|
    ensures names.Some? ==> forall k | 0 <= k < |items| :: names.value[k] == items[k].fields["name"]
    decreases |items|
  {
    if |items| == 0 then Some([])
    else
      match Member(items[0], "name")
      case None => None
      case Some(n) =>
        match NamesOf(items[1..])
        case None => None
        case Some(rest) => Some([n] + rest)
  }

  const ModelsError: string := "Ollama not running. Start it with: ollama serve"

  /** The body of a tags reply that answered 200 does not have the expected shape: it did
      not decode, is not an object (so `.get` raises), or its `models` member (`[]` when
      absent) does not yield names. */
  function TagsMalformed(reply: Reply): (malformed: bool)
    ensures reply.json.None? ==> malformed
    ensures reply.json.Some? && !reply.json.value.JObject? ==> malformed
    ensures reply.json.Some? && reply.json.value.JObject? && "models" !in reply.json.value.fields ==> !malformed
    ensures reply.json.Some? && reply.json.value.JObject? && "models" in reply.json.value.fields &&
            reply.json.value.fields["models"].JArray? ==>
              var items := reply.json.value.fields["models"].items;
              (malformed <==> exists k | 0 <= k < |items| :: Member(items[k], "name").None?)
    ensures reply.json.Some? && reply.json.value.JObject? && "models" in reply.json.value.fields ==>
              (malformed <==> ModelNames(reply.json.value.fields["models"]).None?)
  {
    || reply.json.None?
    || !reply.json.value.JObject?
    || ModelNames(Member(reply.json.value, "models").GetOr(JArray([]))).None?
  }

  /** The `/ai/models` body: the upstream model names in upstream order, or an empty list
      and an error message when the call raised, did not answer 200, or its body did not
      have the expected shape. */
  function ModelsBody(upstream: Exchange): (body: Json)
    ensures body.JObject? && "models" in body.fields && body.fields["models"].JArray?
    ensures "error" in body.fields ==> body.fields["models"] == JArray([]) && body.fields["error"] == JString(ModelsError)
    ensures "error" in body.fields <==> !Is200(upstream) || TagsMalformed(upstream.reply)
    ensures "error" !in body.fields ==>
              && body.fields.Keys == {"models"}
              && body.fields["models"] ==
                 JArray(ModelNames(Member(upstream.reply.json.value, "models").GetOr(JArray([]))).value)
  {
    var failure := Object2("models", JArray([]), "error", JString(ModelsError));
    if !Is200(upstream) then failure
    else
      match upstream.reply.json
      case None => failure
      case Some(data) =>
        if !data.JObject? then failure
        else
          match ModelNames(Member(data, "models").GetOr(JArray([])))
          case None => failure
          case Some(names) => Object1("models", JArray(names))
  }

  /** An upstream tags reply listing model objects yields exactly their names, in order, and
      no error. */
  lemma ModelsInUpstreamOrder(upstream: Exchange, items: seq<Json>)
    requires Is200(upstream)
    requires upstream.reply.json.Some? && upstream.reply.json.value.JObject?
    requires upstream.reply.json.value.fields.Keys >= {"models"}
    requires upstream.reply.json.value.fields["models"] == JArray(items)
    requires forall k | 0 <= k < |items| :: items[k].JObject? && "name" in items[k].fields
    ensures "error" !in ModelsBody(upstream).fields
    ensures ModelsBody(upstream).fields["models"] == JArray(seq(|items|, k requires 0 <= k < |items| => items[k].fields["name"]))
  {
  }

  /** The context documents for the prompt: the index's best matches for the message, or
      none when there is no index or the query raised (`None`). */
  function ContextDocs(indexerRunning: bool, query: Option<seq<string>>): (docs: seq<string>)
    ensures !indexerRunning || query.None? ==> docs == []
    ensures indexerRunning && query.Some? ==> docs == query.value
  {
    if indexerRunning then query.GetOr([]) else []
  }

  const ContextHeader: string := "Codebase context:\n"
  const DocSeparator: string := "\n---\n"
  const QuestionMarker: string := "\n\nUser Question: "

  /** The augmented prompt sent to the model server: the context header first, the
      question marker and the user's message last. */
  function Prompt(docs: seq<string>, message: string): (p: string)
    ensures |p| >= |ContextHeader| + |QuestionMarker| + |message|
    ensures p[..|ContextHeader|] == ContextHeader
    ensures p[|p| - |message| - |QuestionMarker|..] == QuestionMarker + message
  {
    ContextHeader + Join(docs, DocSeparator) + QuestionMarker + message
  }

  /** The prompt's parts sit at fixed offsets: the header first, the user's message last,
      preceded by the question marker, and the joined documents between. With no documents
      the context is empty. */
  lemma PromptLayout(docs: seq<string>, message: string)
    ensures var p := Prompt(docs, message);
            var mid := |p| - |message| - |QuestionMarker|;
            && |ContextHeader| <= mid
            && p[..|ContextHeader|] == ContextHeader
            && p[mid..] == QuestionMarker + message
            && p[|ContextHeader|..mid] == Join(docs, DocSeparator)
    ensures docs == [] ==> Prompt(docs, message) == "Codebase context:\n\n\nUser Question: " + message
  {
    var p := Prompt(docs, message);
    var j := Join(docs, DocSeparator);
    var mid := |ContextHeader| + |j|;
    assert p == ContextHeader + j + (QuestionMarker + message);
    assert |p| - |message| - |QuestionMarker| == mid;
    assert p[..|ContextHeader|] == ContextHeader;
    assert p[mid..] == QuestionMarker + message;
    assert p[|ContextHeader|..mid] == j;
    if docs == [] {
      assert ContextHeader + QuestionMarker == "Codebase context:\n\n\nUser Question: ";
    }
  }

  const NoResponseText: string := "No response from model."
  const ConnectFailurePrefix: string := "Failed to connect to Ollama (Is it running?): "

  const UpstreamErrorPrefix: string := "Ollama error: "

  /** `"Ollama error: <code> - <text>"`: the fixed prefix, the status code in decimal,
      `" - "` and the upstream body verbatim, so both the code and the body can be read
      back from the message. */
  function UpstreamErrorText(status: nat, text: string): (msg: string)
    ensures |msg| > |UpstreamErrorPrefix| + 3 + |text|
    ensures msg[..|UpstreamErrorPrefix|] == UpstreamErrorPrefix
    ensures msg[|msg| - |text|..] == text
    ensures msg[|msg| - |text| - 3..|msg| - |text|] == " - "
    ensures var digits := msg[|UpstreamErrorPrefix|..|msg| - |text| - 3];
            AllDigits(digits) && DigitsValue(digits) == status
  {
    var digits := NatToString(status);
    DecimalRoundTrip(status);
    var msg := UpstreamErrorPrefix + digits + " - " + text;
    assert msg[|UpstreamErrorPrefix|..|msg| - |text| - 3] == digits;
    assert msg[|msg| - |text| - 3..|msg| - |text|] == " - ";
    assert msg[|msg| - |text|..] == text;
    msg
  }

  /** The reply text of `/ai/chat`. On a 200 it is the upstream `response` member (or a
      fixed text when absent); on another status it names the status and body; when the call
      raised — including when a 200 body is not a JSON object — it is the connect-failure
      text followed by the exception message `raisedMessage`. */
  function ResponseText(upstream: Exchange, raisedMessage: string): (text: Json)
    ensures upstream.Threw? ==> text == JString(ConnectFailurePrefix + upstream.message)
    ensures upstream.Replied? && upstream.reply.status != 200 ==>
              text == JString(UpstreamErrorText(upstream.reply.status, upstream.reply.text))
    ensures Is200(upstream) && upstream.reply.json.Some? && upstream.reply.json.value.JObject? ==>
              text == (if "response" in upstream.reply.json.value.fields
                       then upstream.reply.json.value.fields["response"] else JString(NoResponseText))
    ensures Is200(upstream) && (upstream.reply.json.None? || !upstream.reply.json.value.JObject?) ==>
              text == JString(ConnectFailurePrefix + raisedMessage)
  {
    match upstream
    case Threw(msg) => JString(ConnectFailurePrefix + msg)
    case Replied(r) =>
      if r.status == 200 then
        match r.json
        case Some(data) =>
          if data.JObject? then Member(data, "response").GetOr(JString(NoResponseText))
          else JString(ConnectFailurePrefix + raisedMessage)
        case None => JString(ConnectFailurePrefix + raisedMessage)
      else JString(UpstreamErrorText(r.status, r.text))
  }

  /** The body of `/ai/chat` once validated into `ChatRequest`. */
  datatype ChatBody = ChatBody(message: string, model: string)

  /** Validation of the request body into `ChatRequest`: an object whose `message` and
      `model` are strings; other members are ignored. */
  function ParseChatBody(body: Option<Json>): (req: Option<ChatBody>)
    ensures req.Some? <==>
              && body.Some?
              && Member(body.value, "message").Some? && body.value.fields["message"].JString?
              && Member(body.value, "model").Some? && body.value.fields["model"].JString?
    ensures req.Some? ==> JString(req.value.message) == body.value.fields["message"]
    ensures req.Some? ==> JString(req.value.model) == body.value.fields["model"]
  {
    match body
    case None => None
    case Some(b) =>
      match (Member(b, "message"), Member(b, "model"))
      case (Some(JString(m)), Some(JString(md))) => Some(ChatBody(m, md))
      case _ => None
  }

  const SystemPrompt: string :=
    "You are Black-bird, a helpful AI assistant integrated into a modern IDE. Use the provided codebase context to answer the user's question accurately."

  /** The `/api/generate` request body: the caller's model, the augmented prompt, no
      streaming, and the fixed system prompt. */
  function GenerateBody(req: ChatBody, docs: seq<string>): (body: Json)
    ensures body.JObject? && body.fields.Keys == {"model", "prompt", "stream", "system"}
    ensures body.fields["model"] == JString(req.model)
    ensures body.fields["prompt"] == JString(Prompt(docs, req.message))
    ensures body.fields["stream"] == JBool(false) && body.fields["system"] == JString(SystemPrompt)
  {
    JObject(map["model" := JString(req.model), "prompt" := JString(Prompt(docs, req.message)),
                "stream" := JBool(false), "system" := JString(SystemPrompt)])
  }

  /** The largest magnitude SQLite stores as an integer parameter: a signed 64-bit value. */
  const Int64Min: int := -0x8000_0000_0000_0000
  const Int64Max: int := 0x7FFF_FFFF_FFFF_FFFF

  /** Values `sqlite3` binds as statement parameters: `None`, booleans, 64-bit integers and
      strings. Binding a list or dict raises `ProgrammingError`, an integer outside 64 bits
      raises `OverflowError`. */
  function SqliteBindable(v: Json): (bindable: bool)
    ensures v.JArray? || v.JObject? ==> !bindable
    ensures v.JNull? || v.JBool? || v.JString? ==> bindable
    ensures v.JNumber? ==> (bindable <==> -0x8000_0000_0000_0000 <= v.n < 0x8000_0000_0000_0000)
  {
    match v
    case JNull => true
    case JBool(_) => true
    case JNumber(n) => Int64Min <= n <= Int64Max
    case JString(_) => true
    case JArray(_) => false
    case JObject(_) => false
  }

  /** A `conversation_history` row: user id, message, reply text. */
  datatype HistoryRow = HistoryRow(userId: Json, message: string, response: Json)

  /** What one `/ai/chat` request does: the reply, the generate request sent upstream
      (if any) and the history row stored (if any). */
  datatype ChatOutcome = ChatOutcome(reply: ServerReply, generate: Option<Json>, stored: Option<HistoryRow>)

  /** The `/ai/chat` endpoint. A refused caller gets 401 with the detail and nothing is sent
      upstream; an exception in `verify_token` gives 500. An accepted caller's prompt, built
      from the index's matches for the message, is sent upstream; then storing the history row raises (500) when the user object has no `id`
      or either the id or the reply text cannot be bound; otherwise the row is stored and
      the reply is 200 with `{"response": <reply text>}`. */
  function ChatEndpoint(verdict: Auth.Verdict, req: ChatBody, indexerRunning: bool, query: Option<seq<string>>,
                        upstream: Exchange, raisedMessage: string): (out: ChatOutcome)
    ensures verdict.Unauthorized? ==>
              out.reply == ServerReply(401, Some(Object1("detail", JString(verdict.detail))))
    ensures out.reply.status == 401 <==> verdict.Unauthorized?
    ensures out.reply.status == 500 <==>
              || verdict.ServerError?
              || (verdict.Verified? && out.reply.status != 200)
    ensures out.reply.status == 500 ==> out.reply.body.None?
    ensures out.generate.Some? <==> verdict.Verified?
    ensures out.generate.Some? ==> out.generate.value == GenerateBody(req, ContextDocs(indexerRunning, query))
    ensures out.reply.status == 200 <==>
              && verdict.Verified?
              && Member(verdict.user, "id").Some?
              && SqliteBindable(verdict.user.fields["id"])
              && SqliteBindable(ResponseText(upstream, raisedMessage))
    ensures out.reply.status == 200 ==>
              out.reply.body == Some(Object1("response", ResponseText(upstream, raisedMessage)))
    ensures out.stored.Some? <==> out.reply.status == 200
    ensures out.stored.Some? ==>
              out.stored.value == HistoryRow(verdict.user.fields["id"], req.message, ResponseText(upstream, raisedMessage))
    ensures out.reply.status in {200, 401, 500}
  {
    match verdict
    case Unauthorized(detail) => ChatOutcome(ServerReply(401, Some(Object1("detail", JString(detail)))), None, None)
    case ServerError => ChatOutcome(ServerReply(500, None), None, None)
    case Verified(user) =>
      var sent := Some(GenerateBody(req, ContextDocs(indexerRunning, query)));
      var text := ResponseText(upstream, raisedMessage);
      match Member(user, "id")
      case None => ChatOutcome(ServerReply(500, None), sent, None)
      case Some(id) =>
        if SqliteBindable(id) && SqliteBindable(text)
        then ChatOutcome(ServerReply(200, Some(Object1("response", text))), sent, Some(HistoryRow(id, req.message, text)))
        else ChatOutcome(ServerReply(500, None), sent, None)
  }

  /** The prompt an accepted chat request sends upstream carries the index's matches,
      joined by the separator, between the header and the question, when the index is
      running and its query succeeded; otherwise the context is empty. Either way the
      prompt ends with the user's message. */
  lemma ChatPromptContext(user: Json, req: ChatBody, indexerRunning: bool, query: Option<seq<string>>,
                          upstream: Exchange, raisedMessage: string)
    ensures var out := ChatEndpoint(Auth.Verified(user), req, indexerRunning, query, upstream, raisedMessage);
            && out.generate.Some?
            && out.generate.value.fields["prompt"].JString?
            && var p := out.generate.value.fields["prompt"].s;
               var mid := |p| - |req.message| - |QuestionMarker|;
               && |ContextHeader| <= mid
               && p[..|ContextHeader|] == ContextHeader
               && p[mid..] == QuestionMarker + req.message
               && (indexerRunning && query.Some? ==> p[|ContextHeader|..mid] == Join(query.value, DocSeparator))
               && (!indexerRunning || query.None? ==> p == "Codebase context:\n\n\nUser Question: " + req.message)
  {
    var docs := ContextDocs(indexerRunning, query);
    PromptLayout(docs, req.message);
  }
}
