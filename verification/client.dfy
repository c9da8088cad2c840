/** The frontend's backend client (`aiService`): three calls that never raise and
    collapse every failure to a fixed fallback, plus the headers that carry the
    session's access token. Each call's HTTP exchange is an input. */
module Client {
  import opened Wrappers
  import opened JsonValue
  import opened Text
  import opened Http

  const ApiBaseUrl: string := "http://127.0.0.1:3002"

  /** The identity provider's session, as far as the client reads it. */
  datatype Session = Session(accessToken: Option<string>)

  /** An outgoing request. */
  datatype Request = Request(verb: string, url: string, headers: map<string, string>, body: Option<Json>)

  /** The access token of the current session, or the empty string when there is no
      session or it has no token (`session?.access_token ?? ''`). */
  function AccessToken(session: Option<Session>): (token: string)
    ensures session.Some? && session.value.accessToken.Some? ==> token == session.value.accessToken.value
    ensures session.None? || session.value.accessToken.None? ==> token == ""
  {
    match session
    case None => ""
    case Some(s) => s.accessToken.GetOr("")
  }

  /** `getAuthHeaders`: JSON content type and a bearer credential, which is exactly
      `"Bearer "` when there is no token. */
  function AuthHeaders(session: Option<Session>): (headers: map<string, string>)
    ensures headers.Keys == {"Content-Type", "Authorization"}
    ensures headers["Content-Type"] == "application/json"
    ensures headers["Authorization"] == "Bearer " + AccessToken(session)
    ensures AccessToken(session) == "" ==> headers["Authorization"] == "Bearer "
  {
    map["Content-Type" := "application/json", "Authorization" := "Bearer " + AccessToken(session)]
  }

  /** The `Authorization` value the request actually carries once `fetch` has normalized
      it: `"Bearer "` followed by the token without its trailing HTTP whitespace, and just
      `"Bearer"` when there is no token or it is HTTP whitespace only. */
  function SentAuthorization(session: Option<Session>): (sent: string)
    ensures AllSpace(AccessToken(session), IsHttpSpace) ==> sent == "Bearer"
    ensures !AllSpace(AccessToken(session), IsHttpSpace) ==>
              sent == "Bearer " + TrimEnd(AccessToken(session), IsHttpSpace)
  {
    assert "Bearer " == "Bearer" + " ";
    TrimWordSpaceTail("Bearer", " ", AccessToken(session), IsHttpSpace);
    FetchHeaderValue(AuthHeaders(session)["Authorization"])
  }

  /** The request `chat` sends: a POST to `/ai/chat` with the auth headers and a body
      holding exactly the message and the model. */
  function ChatRequest(message: string, model: string, session: Option<Session>): (req: Request)
    ensures req.verb == "POST" && req.url == ApiBaseUrl + "/ai/chat"
    ensures req.headers == AuthHeaders(session)
    ensures req.body.Some? && req.body.value.JObject? && req.body.value.fields.Keys == {"message", "model"}
    ensures req.body.value.fields["message"] == JString(message)
    ensures req.body.value.fields["model"] == JString(model)
  {
    Request("POST", ApiBaseUrl + "/ai/chat", AuthHeaders(session),
            Some(Object2("message", JString(message), "model", JString(model))))
  }

  /** The requests `getModels` and `getStatus` send: a bare GET of `route` without
      credentials or body. */
  function PublicRequest(route: string): (req: Request)
    ensures req.verb == "GET" && req.url == ApiBaseUrl + route
    ensures "Authorization" !in req.headers && req.body.None?
  {
    Request("GET", ApiBaseUrl + route, map[], None)
  }

  /** The exchange produced an ok response whose body decoded. */
  predicate OkWithBody(e: Exchange) {
    e.Replied? && IsOk(e.reply.status) && e.reply.json.Some?
  }

  /** `chat`: the decoded body of an ok response, and `null` (`JNull`) on a non-ok status,
      an undecodable body or a raised call. */
  function Chat(e: Exchange): (r: Json)
    ensures OkWithBody(e) ==> r == e.reply.json.value
    ensures !OkWithBody(e) ==> r == JNull
  {
    if OkWithBody(e) then e.reply.json.value else JNull
  }

  /** `getModels`: `data.models` of an ok response when it is neither null nor undefined,
      and `[]` in every other case. */
  function GetModels(e: Exchange): (models: Json)
    ensures OkWithBody(e) && Member(e.reply.json.value, "models").Some? && Member(e.reply.json.value, "models").value != JNull
            ==> models == e.reply.json.value.fields["models"]
    ensures !(OkWithBody(e) && Member(e.reply.json.value, "models").Some? && Member(e.reply.json.value, "models").value != JNull)
            ==> models == JArray([])
  {
    if OkWithBody(e) then
      match Member(e.reply.json.value, "models")
      case Some(m) => if m == JNull then JArray([]) else m
      case None => JArray([])
    else JArray([])
  }

  /** The backend status the client reports. */
  datatype Status = Running | Offline

  /** `getStatus`: `Running` iff the response is ok and `data.ollama === 'running'`. */
  function GetStatus(e: Exchange): (s: Status)
    ensures s == Running <==> OkWithBody(e) && Member(e.reply.json.value, "ollama") == Some(JString("running"))
  {
    if OkWithBody(e) && Member(e.reply.json.value, "ollama") == Some(JString("running")) then Running else Offline
  }

  /** A raised call never escapes: it yields each call's fallback. */
  lemma FailuresCollapse(message: string, status: nat, text: string, json: Option<Json>)
    ensures Chat(Threw(message)) == JNull
    ensures GetModels(Threw(message)) == JArray([])
    ensures GetStatus(Threw(message)) == Offline
    ensures !IsOk(status) ==> Chat(Replied(Reply(status, text, json))) == JNull
    ensures !IsOk(status) ==> GetModels(Replied(Reply(status, text, json))) == JArray([])
    ensures !IsOk(status) ==> GetStatus(Replied(Reply(status, text, json))) == Offline
  {
  }
}
