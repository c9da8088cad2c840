/** How the frontend client, the backend endpoints and the chat panel compose: what
    the user sees for each upstream outcome. The backend's JSON replies are delivered
    to the client with status 200 unless the endpoint says otherwise. */
module EndToEnd {
  import opened Wrappers
  import opened JsonValue
  import opened Text
  import opened Http
  import Auth
  import Routes
  import Client
  import ChatPanel

  /** The client reports `running` iff the backend returned `{"ollama": "running", ...}`,
      and the backend does so iff the upstream tags call returned 200. An unreachable
      backend reads as offline. */
  lemma StatusEndToEnd(upstream: Exchange, url: string, text: string, message: string)
    ensures var body := Routes.StatusBody(upstream, url);
            (Client.GetStatus(Deliver(ServerReply(200, Some(body)), text)) == Client.Running)
            <==> (body.fields["ollama"] == JString("running"))
    ensures (Client.GetStatus(Deliver(ServerReply(200, Some(Routes.StatusBody(upstream, url))), text)) == Client.Running)
            <==> Is200(upstream)
    ensures Client.GetStatus(Threw(message)) == Client.Offline
  {
  }

  /** Model names listed upstream as strings reach the client unchanged and in order; a
      failed upstream call reaches it as an empty list. */
  lemma ModelsEndToEnd(upstream: Exchange, names: seq<string>, text: string)
    requires Is200(upstream)
    requires upstream.reply.json.Some? && upstream.reply.json.value.JObject?
    requires "models" in upstream.reply.json.value.fields
    requires var ms := upstream.reply.json.value.fields["models"];
             ms.JArray? && |ms.items| == |names| &&
             forall k | 0 <= k < |names| :: ms.items[k].JObject? && Member(ms.items[k], "name") == Some(JString(names[k]))
    ensures Client.GetModels(Deliver(ServerReply(200, Some(Routes.ModelsBody(upstream))), text)) == StringArray(names)
  {
    var items := upstream.reply.json.value.fields["models"].items;
    Routes.ModelsInUpstreamOrder(upstream, items);
    var body := Routes.ModelsBody(upstream);
    assert body.fields["models"] == StringArray(names);
  }

  lemma ModelsFailureEndToEnd(upstream: Exchange, text: string)
    requires !Is200(upstream)
    ensures Client.GetModels(Deliver(ServerReply(200, Some(Routes.ModelsBody(upstream))), text)) == JArray([])
  {
  }

  /** The chat results the panel's typing admits: `null`, or an object whose `response` is a string. */
  predicate ConformsToChatResponse(j: Json) {
    j == JNull || (j.JObject? && "response" in j.fields && j.fields["response"].JString?)
  }

  /** The panel's view of a conforming chat result. */
  function PanelReply(j: Json): (r: Option<string>)
    requires ConformsToChatResponse(j)
    ensures j == JNull <==> r.None?
    ensures r.Some? ==> j.fields["response"] == JString(r.value)
  {
    if j == JNull then None else Some(j.fields["response"].s)
  }

  /** The body the client sends validates into exactly the message and model it was given. */
  lemma ChatBodyRoundTrip(message: string, model: string, session: Option<Client.Session>)
    ensures Routes.ParseChatBody(Client.ChatRequest(message, model, session).body)
              == Some(Routes.ChatBody(message, model))
  {
  }

  /** An authenticated chat whose upstream answers 200 with a string `response` stores the
      exchange in the history and shows that string as the AI message. */
  lemma ChatAnswerShown(s: ChatPanel.State, user: Json, req: Routes.ChatBody, indexerRunning: bool,
                        query: Option<seq<string>>, upstream: Exchange, raised: string, text: string, answer: string)
    requires s.inFlight > 0
    requires Member(user, "id").Some? && Routes.SqliteBindable(user.fields["id"])
    requires Is200(upstream) && upstream.reply.json.Some? && upstream.reply.json.value.JObject?
    requires Member(upstream.reply.json.value, "response") == Some(JString(answer))
    ensures var out := Routes.ChatEndpoint(Auth.Verified(user), req, indexerRunning, query, upstream, raised);
            var j := Client.Chat(Deliver(out.reply, text));
            && out.stored == Some(Routes.HistoryRow(user.fields["id"], req.message, JString(answer)))
            && ConformsToChatResponse(j)
            && ChatPanel.Reply(s, PanelReply(j)).messages == s.messages + [ChatPanel.Message(ChatPanel.Ai, answer)]
  {
  }

  /** A refused caller gets 401, nothing reaches the model server, the client turns the
      401 into `null`, and the panel shows the apology. */
  lemma RefusedChatShowsApology(s: ChatPanel.State, detail: string, req: Routes.ChatBody, indexerRunning: bool,
                                query: Option<seq<string>>, upstream: Exchange, raised: string, text: string)
    requires s.inFlight > 0
    ensures var out := Routes.ChatEndpoint(Auth.Unauthorized(detail), req, indexerRunning, query, upstream, raised);
            var j := Client.Chat(Deliver(out.reply, text));
            && out.generate.None?
            && j == JNull
            && ChatPanel.Reply(s, PanelReply(j)).messages == s.messages + [ChatPanel.Message(ChatPanel.Ai, ChatPanel.Apology)]
  {
  }

  /** The backend reads back the token the client sent. `fetch` drops the token's
      trailing HTTP whitespace from the header value, and the backend strips what remains;
      so a token that is not blank and does not itself hold `"Bearer "` arrives as the
      token stripped of surrounding whitespace. */
  lemma TokenRoundTrip(session: Client.Session, token: string)
    requires session.accessToken == Some(token)
    requires !AllSpace(token, IsHttpSpace)
    requires !Contains(token, Auth.BearerPrefix)
    ensures Auth.ExtractBearer(Some(Client.SentAuthorization(Some(session)))).Header?
    ensures Auth.ExtractBearer(Some(Client.SentAuthorization(Some(session)))).token == PyStrip(token)
  {
    var u := TrimEnd(token, IsHttpSpace);
    var h := Client.SentAuthorization(Some(session));
    assert h == Auth.BearerPrefix + u;
    assert !Contains(u, Auth.BearerPrefix) by {
      ContainsPrefix(u, token, Auth.BearerPrefix);
    }
    assert Auth.ExtractBearer(Some(h)) == Auth.Header(h, PyStrip(u)) by {
      Auth.BearerTokenOfStandardHeader(u);
    }
    assert PyStrip(u) == PyStrip(token) by {
      TrimAfterTrimEnd(token, IsHttpSpace, IsPySpace);
    }
  }

  /** Without a session, or with a blank token, the client's `"Bearer "` header arrives as
      `"Bearer"` once `fetch` has removed the trailing space; the backend extracts the token
      `"Bearer"`, which holds no dot and so has no payload, and unless the auth service
      vouches for the caller the chat is refused with 401. */
  lemma NoSessionRefused(session: Option<Client.Session>, service: Exchange, codecs: Auth.Codecs)
    requires AllSpace(Client.AccessToken(session), IsHttpSpace)
    requires !Auth.ServiceAccepts(service)
    ensures Auth.ExtractBearer(Some(Client.SentAuthorization(session))) == Auth.Header("Bearer", "Bearer")
    ensures Auth.VerifyToken(Some(Client.SentAuthorization(session)), service, codecs)
              == Auth.Unauthorized(Auth.InvalidTokenDetail)
  {
    Auth.BareSchemeRefused(service, codecs);
  }
}
