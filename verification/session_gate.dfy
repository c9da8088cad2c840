/** The application's session gate: a loading screen until the identity provider's
    initial session lookup resolves, then the sign-in screen or the IDE depending on
    whether a session exists, kept current by the provider's auth-change listener
    until the component is torn down. */
module SessionGate {
  import opened Wrappers
  import Client

  /** `isLoading`, `session`, and whether the component is still mounted with its
      auth-change listener subscribed. */
  datatype State = State(isLoading: bool, session: Option<Client.Session>, subscribed: bool)

  /** The state on mount: loading, no session, listener subscribed. */
  function Initial(): (s: State)
    ensures s.isLoading && s.session.None? && s.subscribed
  {
    State(true, None, true)
  }

  datatype Event =
    | InitialSessionResolved(session: Option<Client.Session>)
    | AuthChanged(session: Option<Client.Session>)
    | Teardown

  /** One transition. The initial lookup stores the session and ends loading; an auth
      change replaces the session and leaves loading alone; teardown unsubscribes, after
      which nothing changes the state. */
  function Step(s: State, e: Event): (s': State)
    ensures !s.subscribed ==> s' == s
    ensures s.subscribed && e.InitialSessionResolved? ==> s' == State(false, e.session, true)
    ensures s.subscribed && e.AuthChanged? ==> s' == s.(session := e.session)
    ensures e.Teardown? ==> !s'.subscribed
    ensures !s.isLoading ==> !s'.isLoading
  {
    if !s.subscribed then s
    else
      match e
      case InitialSessionResolved(session) => s.(session := session, isLoading := false)
      case AuthChanged(session) => s.(session := session)
      case Teardown => s.(subscribed := false)
  }

  function Run(s: State, events: seq<Event>): State
    decreases |events|
  {
    if |events| == 0 then s else Run(Step(s, events[0]), events[1..])
  }

  /** Once loaded, the gate stays loaded over any run; once torn down, no later event
      changes anything. */
  lemma {:induction false} RunMonotone(s: State, events: seq<Event>)
    ensures !s.isLoading ==> !Run(s, events).isLoading
    ensures !s.subscribed ==> Run(s, events) == s
    decreases |events|
  {
    if |events| > 0 {
      RunMonotone(Step(s, events[0]), events[1..]);
    }
  }

  /** Loading ends exactly when the initial lookup has resolved before teardown: auth
      changes alone never end it. */
  lemma {:induction false} LoadingEndsOnlyByInitialLookup(events: seq<Event>)
    requires forall k | 0 <= k < |events| :: !events[k].InitialSessionResolved?
    ensures Run(Initial(), events).isLoading
  {
    LoadingStays(Initial(), events);
  }

  lemma {:induction false} LoadingStays(s: State, events: seq<Event>)
    requires s.isLoading
    requires forall k | 0 <= k < |events| :: !events[k].InitialSessionResolved?
    ensures Run(s, events).isLoading
    decreases |events|
  {
    if |events| > 0 {
      LoadingStays(Step(s, events[0]), events[1..]);
    }
  }

  datatype View = LoadingView | AuthView | IdeView

  /** The render decision: the loading view while loading whatever the session; then
      the sign-in screen iff there is no session, the IDE iff there is one. */
  function Render(s: State): (v: View)
    ensures s.isLoading ==> v == LoadingView
    ensures !s.isLoading ==> (v == AuthView <==> s.session.None?)
    ensures !s.isLoading ==> (v == IdeView <==> s.session.Some?)
  {
    if s.isLoading then LoadingView
    else if s.session.None? then AuthView
    else IdeView
  }

  /** Mounting with no session shows the loading view, then the sign-in screen once the
      lookup resolves; a later sign-in shows the IDE without a second lookup. */
  lemma SignInScenario(session: Client.Session)
    ensures Render(Initial()) == LoadingView
    ensures Render(Run(Initial(), [InitialSessionResolved(None)])) == AuthView
    ensures Render(Run(Initial(), [InitialSessionResolved(None), AuthChanged(Some(session))])) == IdeView
  {
    var s1 := Step(Initial(), InitialSessionResolved(None));
    assert Run(Initial(), [InitialSessionResolved(None)]) == Run(s1, []);
    var s2 := Step(s1, AuthChanged(Some(session)));
    assert Run(Initial(), [InitialSessionResolved(None), AuthChanged(Some(session))]) == Run(s1, [AuthChanged(Some(session))]);
    assert Run(s1, [AuthChanged(Some(session))]) == Run(s2, []);
  }

  /** After teardown the view is frozen: no event sequence changes it. */
  lemma NoRenderAfterTeardown(s: State, events: seq<Event>)
    ensures Render(Run(Step(s, Teardown), events)) == Render(Step(s, Teardown))
  {
    RunMonotone(Step(s, Teardown), events);
  }
}
