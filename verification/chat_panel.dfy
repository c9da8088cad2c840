/** The AI chat panel of the IDE view as an event-driven state machine: loading the
    backend status and model list, typing, sending a message, the reply arriving,
    the stop button, and picking a model. Rendering is left out. */
module ChatPanel {
  import opened Wrappers
  import opened Text
  import Client

  datatype Role = User | Ai

  /** One entry of the chat history. */
  datatype Message = Message(role: Role, content: string)

  /** The backend status badge: `loading` until the first status arrives. */
  datatype Badge = Loading | Running | Offline

  /** The panel's state. `inFlight` counts chat requests issued whose reply has not
      arrived yet; the component keeps no such variable, it records the pending awaits. */
  datatype State = State(
    messages: seq<Message>,
    input: string,
    isSending: bool,
    activeModel: string,
    models: seq<string>,
    badge: Badge,
    inFlight: nat)

  const Greeting: string := "How can I help you build BLACK BIRD today?"
  const Apology: string := "Sorry, I couldn't reach the backend. Check if your services are running."

  /** The state on mount: the greeting alone, empty input, not sending, no model, status loading. */
  function Initial(): (s: State)
    ensures s.messages == [Message(Ai, Greeting)]
    ensures s.input == "" && !s.isSending && s.activeModel == "" && s.models == []
    ensures s.badge == Loading && s.inFlight == 0
  {
    State([Message(Ai, Greeting)], "", false, "", [], Loading, 0)
  }

  /** Things that happen to the panel. `Replied(None)` is the client's `null`;
      `Replied(Some(t))` is a response object whose `response` is `t`. */
  datatype Event =
    | Loaded(status: Client.Status, models: seq<string>)
    | Typed(text: string)
    | Submit
    | Click
    | Replied(response: Option<string>)
    | Picked(model: string)

  /** The result of the load effect: status and model list are taken over; the first
      model becomes active when there is one, otherwise the active model is unchanged. */
  function Load(s: State, status: Client.Status, models: seq<string>): (s': State)
    ensures s'.badge == (if status == Client.Running then Running else Offline)
    ensures s'.models == models
    ensures |models| > 0 ==> s'.activeModel == models[0]
    ensures |models| == 0 ==> s'.activeModel == s.activeModel
    ensures s'.messages == s.messages && s'.input == s.input && s'.isSending == s.isSending && s'.inFlight == s.inFlight
  {
    s.(badge := if status == Client.Running then Running else Offline,
       models := models,
       activeModel := if |models| > 0 then models[0] else s.activeModel)
  }

  /** A send is accepted when the trimmed input is non-empty and no send is in progress. */
  predicate Accepts(s: State) {
    JsTrim(s.input) != "" && !s.isSending
  }

  /** The message and model an accepted send passes to the client's `chat`. */
  function Outgoing(s: State): (out: Option<(string, string)>)
    ensures out.Some? <==> Accepts(s)
    ensures out.Some? ==> out.value.0 == JsTrim(s.input) && out.value.1 == s.activeModel
  {
    if Accepts(s) then Some((JsTrim(s.input), s.activeModel)) else None
  }

  /** The synchronous part of `handleSend`: nothing happens when the trimmed input is
      empty or a send is in progress; otherwise exactly one user message with the trimmed
      input is appended, the input is cleared and the panel is sending. */
  function HandleSend(s: State): (s': State)
    ensures !Accepts(s) ==> s' == s
    ensures Accepts(s) ==>
              && s'.messages == s.messages + [Message(User, JsTrim(s.input))]
              && s'.input == "" && s'.isSending && s'.inFlight == s.inFlight + 1
              && s'.activeModel == s.activeModel && s'.models == s.models && s'.badge == s.badge
  {
    if !Accepts(s) then s
    else s.(messages := s.messages + [Message(User, JsTrim(s.input))], input := "", isSending := true,
            inFlight := s.inFlight + 1)
  }

  /** The text shown for a chat result: the response text, or the apology for `null`. */
  function ReplyText(response: Option<string>): (text: string)
    ensures response.Some? ==> text == response.value
    ensures response.None? ==> text == Apology
  {
    response.GetOr(Apology)
  }

  /** The rest of `handleSend`, when the client's promise resolves: exactly one AI message
      is appended and sending ends, even if the stop button was pressed meanwhile. */
  function Reply(s: State, response: Option<string>): (s': State)
    requires s.inFlight > 0
    ensures s'.messages == s.messages + [Message(Ai, ReplyText(response))]
    ensures !s'.isSending && s'.inFlight == s.inFlight - 1
    ensures s'.input == s.input && s'.activeModel == s.activeModel && s'.models == s.models && s'.badge == s.badge
  {
    s.(messages := s.messages + [Message(Ai, ReplyText(response))], isSending := false, inFlight := s.inFlight - 1)
  }

  /** The send button is disabled iff the trimmed input is empty and no send is in
      progress (while sending it is the enabled stop button). When not sending, it is
      disabled exactly when a send would be refused. */
  function SendDisabled(s: State): (disabled: bool)
    ensures disabled ==> !Accepts(s) && !s.isSending
    ensures !s.isSending ==> (disabled <==> !Accepts(s))
  {
    JsTrim(s.input) == "" && !s.isSending
  }

  /** The send/stop button: while sending it only clears `isSending` (the request is not
      cancelled); otherwise it sends, and a disabled button does nothing. */
  function Press(s: State): (s': State)
    ensures s.isSending ==> s' == s.(isSending := false)
    ensures !s.isSending ==> s' == HandleSend(s)
  {
    if s.isSending then s.(isSending := false)
    else if SendDisabled(s) then s
    else HandleSend(s)
  }

  /** A reply can only arrive for a request in flight. */
  predicate Enabled(s: State, e: Event) {
    e.Replied? ==> s.inFlight > 0
  }

  /** One transition of the panel. The message list only ever grows, by at most one entry. */
  function Step(s: State, e: Event): (s': State)
    requires Enabled(s, e)
    ensures s.messages <= s'.messages && |s'.messages| <= |s.messages| + 1
  {
    match e
    case Loaded(status, models) => Load(s, status, models)
    case Typed(text) => s.(input := text)
    case Submit => HandleSend(s)
    case Click => Press(s)
    case Replied(response) => Reply(s, response)
    case Picked(model) => s.(activeModel := model)
  }

  /** Every event of the sequence is enabled when it occurs. */
  predicate Feasible(s: State, events: seq<Event>)
    decreases |events|
  {
    |events| == 0 || (Enabled(s, events[0]) && Feasible(Step(s, events[0]), events[1..]))
  }

  /** The state after a feasible sequence of events. */
  function Run(s: State, events: seq<Event>): State
    requires Feasible(s, events)
    decreases |events|
  {
    if |events| == 0 then s else Run(Step(s, events[0]), events[1..])
  }

  /** The history is append-only over any run: earlier messages are never removed,
      reordered or edited. */
  lemma {:induction false} RunAppendOnly(s: State, events: seq<Event>)
    requires Feasible(s, events)
    ensures s.messages <= Run(s, events).messages
    decreases |events|
  {
    if |events| > 0 {
      RunAppendOnly(Step(s, events[0]), events[1..]);
    }
  }

  /** Number of messages with the given role. */
  function CountRole(ms: seq<Message>, role: Role): nat
    decreases |ms|
  {
    if |ms| == 0 then 0
    else CountRole(ms[..|ms| - 1], role) + (if ms[|ms| - 1].role == role then 1 else 0)
  }

  /** Sends and replies pair up: besides the greeting, every user message is matched by
      one AI reply or by a request still in flight; and the panel can only be sending
      while a request is in flight. */
  predicate Inv(s: State) {
    && CountRole(s.messages, User) + 1 == CountRole(s.messages, Ai) + s.inFlight
    && (s.isSending ==> s.inFlight > 0)
  }

  lemma CountRoleSnoc(ms: seq<Message>, m: Message, role: Role)
    ensures CountRole(ms + [m], role) == CountRole(ms, role) + (if m.role == role then 1 else 0)
  {
    assert (ms + [m])[..|ms|] == ms;
  }

  /** Every transition keeps the pairing invariant. */
  lemma StepKeepsInv(s: State, e: Event)
    requires Inv(s) && Enabled(s, e)
    ensures Inv(Step(s, e))
  {
    match e
    case Submit =>
      CountRoleSnoc(s.messages, Message(User, JsTrim(s.input)), User);
      CountRoleSnoc(s.messages, Message(User, JsTrim(s.input)), Ai);
    case Click =>
      CountRoleSnoc(s.messages, Message(User, JsTrim(s.input)), User);
      CountRoleSnoc(s.messages, Message(User, JsTrim(s.input)), Ai);
    case Replied(response) =>
      CountRoleSnoc(s.messages, Message(Ai, ReplyText(response)), User);
      CountRoleSnoc(s.messages, Message(Ai, ReplyText(response)), Ai);
    case _ =>
  }

  /** From the initial state, every feasible run pairs each accepted send with exactly one
      reply: once nothing is in flight, there is one AI message per user message plus the greeting. */
  lemma {:induction false} RunKeepsInv(s: State, events: seq<Event>)
    requires Inv(s) && Feasible(s, events)
    ensures Inv(Run(s, events))
    ensures Run(s, events).inFlight == 0 ==>
              CountRole(Run(s, events).messages, Ai) == CountRole(Run(s, events).messages, User) + 1
    decreases |events|
  {
    if |events| > 0 {
      StepKeepsInv(s, events[0]);
      RunKeepsInv(Step(s, events[0]), events[1..]);
    }
  }

  lemma InitialInv()
    ensures Inv(Initial())
  {
    assert CountRole([Message(Ai, Greeting)], User) == 0;
    assert CountRole([Message(Ai, Greeting)], Ai) == 1;
  }

  /** Stop does not cancel: after pressing stop while sending, the pending reply is still
      appended when it arrives. */
  lemma StopThenReplyStillAppends(s: State, response: Option<string>)
    requires s.isSending && s.inFlight > 0
    ensures Step(Step(s, Click), Replied(response)).messages == s.messages + [Message(Ai, ReplyText(response))]
    ensures !Step(s, Click).isSending && Step(s, Click).messages == s.messages
  {
  }

  /** What `Outgoing` hands to the client is exactly what a submit shows: an accepted send
      appends one user message holding the outgoing text and starts sending; a refused one
      changes nothing. */
  lemma OutgoingIsShown(s: State)
    ensures Outgoing(s).Some? ==>
              && Step(s, Submit).messages == s.messages + [Message(User, Outgoing(s).value.0)]
              && Step(s, Submit).isSending
    ensures Outgoing(s).None? <==> Step(s, Submit) == s
  {
  }

  /** Pressing a disabled send button, or sending while one is in progress, does nothing;
      an enabled button that is not stopping always sends. */
  lemma DisabledMeansNoSend(s: State)
    ensures SendDisabled(s) ==> Press(s) == s && HandleSend(s) == s
    ensures !SendDisabled(s) && !s.isSending ==> Press(s).messages == s.messages + [Message(User, JsTrim(s.input))]
  {
  }

  /** The label of a model badge: the model id up to its first `:` (`model.split(':')[0]`). */
  function BadgeLabel(model: string): (shown: string)
    ensures shown <= model && ':' !in shown
    ensures |shown| < |model| ==> model[|shown|] == ':'
    ensures |shown| == |model| <==> ':' !in model
  {
    SplitHead(model, ':');
    Split(model, ':')[0]
  }
}
