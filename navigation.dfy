/**
 * The activity's navigation bridge.  A tap on the widget's "add" button opens the
 * activity with the intent action "OPEN_TODO_EDITOR"; the activity forwards it to
 * the application as a `navigate("open_todo_editor")` call on the
 * "ghostty/navigation" method channel.  The channel exists only once the engine
 * has been configured; a request that arrives before that is parked in a single
 * slot (a newer one overwrites it) and is sent, once, when the channel is created.
 *
 * The method channel is abstracted as the sequence of calls sent on it.
 */
module Navigation {
  import opened Wrappers

  const OpenTodoEditorAction: string := "OPEN_TODO_EDITOR"
  const OpenTodoEditorRoute: string := "open_todo_editor"
  const NavigateMethod: string := "navigate"

  /** One `invokeMethod(method, argument)` on the navigation channel. */
  datatype Invocation = Invocation(name: string, argument: string)

  /** The two fields of the activity, plus everything sent so far on the channel. */
  datatype NavState = NavState(channelReady: bool, pending: Option<string>, sent: seq<Invocation>)

  /** What can happen to the activity: an intent arrives (its action, if any), or the engine is configured. */
  datatype Event = IntentArrived(action: Option<string>) | EngineConfigured

  /** A freshly created activity: no channel, nothing parked, nothing sent. */
  const Initial: NavState := NavState(false, None, [])

  /** The intent handler: forward now when the channel exists, otherwise park the request. */
  function AfterIntent(s: NavState, action: Option<string>): (t: NavState)
    ensures t.channelReady == s.channelReady
    ensures s.sent <= t.sent && |t.sent| <= |s.sent| + 1
    ensures |t.sent| == |s.sent| + 1 <==> action == Some(OpenTodoEditorAction) && s.channelReady
    ensures t.pending == s.pending || (t.pending == Some(OpenTodoEditorRoute) && !s.channelReady)
  {
    if action == Some(OpenTodoEditorAction) then
      if s.channelReady then s.(sent := s.sent + [Invocation(NavigateMethod, OpenTodoEditorRoute)])
      else s.(pending := Some(OpenTodoEditorRoute))
    else s
  }

  /** The end of engine configuration: create the channel and flush the parked request, if any. */
  function AfterConfigure(s: NavState): (t: NavState)
    ensures t.channelReady && t.pending == None
    ensures s.sent <= t.sent
    ensures |t.sent| == |s.sent| + (if s.pending.Some? then 1 else 0)
  {
    match s.pending
    case Some(route) => NavState(true, None, s.sent + [Invocation(NavigateMethod, route)])
    case None => s.(channelReady := true)
  }

  /** One event, handled by the activity. */
  function Step(s: NavState, e: Event): (t: NavState)
  {
    match e
    case IntentArrived(action) => AfterIntent(s, action)
    case EngineConfigured => AfterConfigure(s)
  }

  /** The state after a sequence of events, in order. */
  function Run(s: NavState, events: seq<Event>): (t: NavState)
    decreases |events|
  {
    if events == [] then s else Run(Step(s, events[0]), events[1..])
  }

  /** Every call sent on the channel is `navigate("open_todo_editor")`. */
  predicate OnlyEditorNavigations(sent: seq<Invocation>)
  {
    forall k :: 0 <= k < |sent| ==> sent[k] == Invocation(NavigateMethod, OpenTodoEditorRoute)
  }

  /**
   * The mailbox invariant: nothing stays parked once the channel exists, only the
   * editor route is ever parked, and only editor navigations are ever sent.
   */
  predicate Inv(s: NavState)
  {
    && (s.channelReady ==> s.pending == None)
    && (s.pending != None ==> s.pending == Some(OpenTodoEditorRoute))
    && OnlyEditorNavigations(s.sent)
  }

  predicate OpensEditor(e: Event)
  {
    e == IntentArrived(Some(OpenTodoEditorAction))
  }

  /** The number of editor-opening intents among `events`. */
  function CountOpens(events: seq<Event>): nat
    decreases |events|
  {
    if events == [] then 0 else (if OpensEditor(events[0]) then 1 else 0) + CountOpens(events[1..])
  }

  /**
   * How many navigations a run from `s` sends, described without simulating the
   * mailbox: with the channel ready, one per editor intent; without it, the
   * intents before the first configuration collapse into at most one message,
   * sent at that configuration (or none if the engine is never configured),
   * and every editor intent after it is sent on its own.
   */
  function ExpectedSends(s: NavState, events: seq<Event>): (n: nat)
    decreases |events|
  {
    if s.channelReady then CountOpens(events)
    else if events == [] then 0
    else if events[0] == EngineConfigured then (if s.pending != None then 1 else 0) + CountOpens(events[1..])
    else ExpectedSends(s.(pending := if OpensEditor(events[0]) then Some(OpenTodoEditorRoute) else s.pending), events[1..])
  }

  /** Both handlers keep the mailbox invariant. */
  lemma StepKeepsInv(s: NavState, e: Event)
    requires Inv(s)
    ensures Inv(Step(s, e))
    ensures s.sent <= Step(s, e).sent
  {
  }

  /** An editor intent with the channel ready sends exactly one `navigate` and leaves the slot alone. */
  lemma IntentWithChannelSendsOnce(s: NavState)
    requires s.channelReady
    ensures var t := AfterIntent(s, Some(OpenTodoEditorAction));
      t.sent == s.sent + [Invocation(NavigateMethod, OpenTodoEditorRoute)] && t.pending == s.pending && t.channelReady
  {
  }

  /**
   * Without a channel an editor intent sends nothing and parks the route;
   * repeated arrivals leave the same single parked value.
   */
  lemma IntentWithoutChannelParks(s: NavState)
    requires !s.channelReady
    ensures var t := AfterIntent(s, Some(OpenTodoEditorAction));
      t.sent == s.sent && t.pending == Some(OpenTodoEditorRoute)
      && AfterIntent(t, Some(OpenTodoEditorAction)) == t
  {
  }

  /** Any other action, or no action (a null intent), changes nothing. */
  lemma OtherIntentIgnored(s: NavState, action: Option<string>)
    requires action != Some(OpenTodoEditorAction)
    ensures AfterIntent(s, action) == s
  {
  }

  /**
   * Configuring the engine creates the channel, sends the parked request exactly
   * once (nothing if none was parked) and empties the slot; configuring again
   * sends nothing more.
   */
  lemma ConfigureFlushesOnce(s: NavState)
    ensures var t := AfterConfigure(s);
      && t.channelReady && t.pending == None
      && t.sent == s.sent + (if s.pending.Some? then [Invocation(NavigateMethod, s.pending.value)] else [])
      && AfterConfigure(t) == t
  {
  }

  /** Runs from a state satisfying the invariant keep it and only ever append to the channel. */
  lemma {:induction false} RunKeepsInv(s: NavState, events: seq<Event>)
    requires Inv(s)
    ensures Inv(Run(s, events)) && s.sent <= Run(s, events).sent
    decreases |events|
  {
    if events != [] {
      StepKeepsInv(s, events[0]);
      RunKeepsInv(Step(s, events[0]), events[1..]);
    }
  }

  /** Once the channel exists, every editor intent sends one message and nothing else sends. */
  lemma {:induction false} ReadyRunSendsPerOpen(s: NavState, events: seq<Event>)
    requires Inv(s) && s.channelReady
    ensures |Run(s, events).sent| == |s.sent| + CountOpens(events)
    decreases |events|
  {
    if events != [] {
      var t := Step(s, events[0]);
      assert t.channelReady && Inv(t);
      ReadyRunSendsPerOpen(t, events[1..]);
    }
  }

  /**
   * The mailbox loses no request and duplicates none: a run sends exactly the
   * number of navigations `ExpectedSends` describes.
   */
  lemma {:induction false} RunSendsExpected(s: NavState, events: seq<Event>)
    requires Inv(s)
    ensures |Run(s, events).sent| == |s.sent| + ExpectedSends(s, events)
    decreases |events|
  {
    if s.channelReady {
      ReadyRunSendsPerOpen(s, events);
    } else if events != [] {
      var t := Step(s, events[0]);
      StepKeepsInv(s, events[0]);
      if events[0] == EngineConfigured {
        ReadyRunSendsPerOpen(t, events[1..]);
      } else {
        RunSendsExpected(t, events[1..]);
        assert t == s.(pending := if OpensEditor(events[0]) then Some(OpenTodoEditorRoute) else s.pending);
      }
    }
  }

  /**
   * From a fresh activity: editor taps made before the engine is ready produce one
   * navigation when it becomes ready, and every message sent opens the editor.
   */
  lemma EarlyTapsDeliveredOnce(before: seq<Event>, after: seq<Event>)
    requires forall k :: 0 <= k < |before| ==> before[k].IntentArrived?
    requires CountOpens(before) > 0
    ensures var t := Run(Initial, before + [EngineConfigured] + after);
      |t.sent| == 1 + CountOpens(after) && OnlyEditorNavigations(t.sent)
  {
    var evs := before + [EngineConfigured] + after;
    RunSendsExpected(Initial, evs);
    RunKeepsInv(Initial, evs);
    EarlySends(Initial, before, after);
  }

  /** Intents before the first configuration are counted once, at that configuration. */
  lemma {:induction false} EarlySends(s: NavState, before: seq<Event>, after: seq<Event>)
    requires !s.channelReady
    requires forall k :: 0 <= k < |before| ==> before[k].IntentArrived?
    ensures ExpectedSends(s, before + [EngineConfigured] + after)
      == (if s.pending != None || CountOpens(before) > 0 then 1 else 0) + CountOpens(after)
    decreases |before|
  {
    var evs := before + [EngineConfigured] + after;
    if before == [] {
      assert evs[0] == EngineConfigured && evs[1..] == after;
    } else {
      var s' := s.(pending := if OpensEditor(before[0]) then Some(OpenTodoEditorRoute) else s.pending);
      assert evs[0] == before[0] && evs[1..] == before[1..] + [EngineConfigured] + after;
      EarlySends(s', before[1..], after);
    }
  }

  /** The activity's navigation fields and the channel it sends on. */
  class MainActivity {
    var navigationChannelReady: bool
    var pendingNavigation: Option<string>
    var sent: seq<Invocation>

    function State(): NavState
      reads this
    {
      NavState(navigationChannelReady, pendingNavigation, sent)
    }

    constructor ()
      ensures State() == Initial
    {
      navigationChannelReady := false;
      pendingNavigation := None;
      sent := [];
    }

    /** Forward an editor request now, or park it until the channel exists. */
    method HandleIntent(action: Option<string>)
      modifies this
      ensures action == Some(OpenTodoEditorAction) && old(navigationChannelReady) ==>
        sent == old(sent) + [Invocation(NavigateMethod, OpenTodoEditorRoute)] && pendingNavigation == old(pendingNavigation)
      ensures action == Some(OpenTodoEditorAction) && !old(navigationChannelReady) ==>
        sent == old(sent) && pendingNavigation == Some(OpenTodoEditorRoute)
      ensures action != Some(OpenTodoEditorAction) ==> sent == old(sent) && pendingNavigation == old(pendingNavigation)
      ensures navigationChannelReady == old(navigationChannelReady)
      ensures State() == Step(old(State()), IntentArrived(action))
    {
      if action == Some(OpenTodoEditorAction) {
        if navigationChannelReady {
          sent := sent + [Invocation(NavigateMethod, OpenTodoEditorRoute)];
        } else {
          pendingNavigation := Some(OpenTodoEditorRoute);
        }
      }
    }

    /** The navigation part of engine configuration: create the channel, then flush the slot. */
    method ConfigureFlutterEngine()
      modifies this
      ensures navigationChannelReady && pendingNavigation == None
      ensures sent == old(sent) + (if old(pendingNavigation).Some? then [Invocation(NavigateMethod, old(pendingNavigation).value)] else [])
      ensures State() == Step(old(State()), EngineConfigured)
    {
      navigationChannelReady := true;
      if pendingNavigation.Some? {
        var route := pendingNavigation.value;
        sent := sent + [Invocation(NavigateMethod, route)];
        pendingNavigation := None;
      }
    }
  }
}
