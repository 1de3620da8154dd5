/** The pause flag of a session and the player's own pause state. Commands travel to the player
    and its events travel back, so the two can disagree for a while: this says for how long. */
module Pause {
  import opened Wrappers
  import opened SessionModel

  /** The session, the player, and everything on its way between them. */
  datatype World = World(
    session: Session,
    playerPaused: bool,
    commands: seq<Call>,
    wire: seq<PlayerEvent>,
    channel: seq<PlayerEvent>)

  datatype Action =
    | Press(input: Input)
    | PauseElsewhere(paused: bool)
    | Emit(event: PlayerEvent)
    | Obey
    | ReadLine
    | Deliver

  /** The session acts on an input, and its calls are sent. */
  function Take(resolve: Resolver, w: World, input: Input): World {
    var s := Act(resolve, w.session, input).0;
    CallsGrow(resolve, w.session, input);
    w.(session := s, commands := w.commands + s.calls[|w.session.calls|..])
  }

  /** The player's pause property: observers hear of changes only. */
  function PlayerPause(w: World, paused: bool): World {
    if paused == w.playerPaused then w else w.(playerPaused := paused, wire := w.wire + [Paused(paused)])
  }

  /** `read_events`: position ticks are dropped when the channel is full, anything else waits. */
  function ReadEvent(capacity: nat, w: World): World
    requires w.wire != [] && (|w.channel| < capacity || w.wire[0].Position?)
  {
    var rest := w.(wire := w.wire[1..]);
    if |w.channel| < capacity then rest.(channel := w.channel + [w.wire[0]]) else rest
  }

  predicate Enabled(capacity: nat, w: World, action: Action) {
    match action
    case Press(input) => !input.Event?
    case PauseElsewhere(_) => true
    case Emit(event) => !event.Paused?
    case Obey => w.commands != []
    case ReadLine => w.wire != [] && (|w.channel| < capacity || w.wire[0].Position?)
    case Deliver => w.channel != []
  }

  function Apply(resolve: Resolver, capacity: nat, w: World, action: Action): World
    requires Enabled(capacity, w, action)
  {
    match action
    case Press(input) => Take(resolve, w, input)
    case PauseElsewhere(paused) => PlayerPause(w, paused)
    case Emit(event) => w.(wire := w.wire + [event])
    case Obey =>
      var rest := w.(commands := w.commands[1..]);
      if w.commands[0].SetPause? then PlayerPause(rest, w.commands[0].paused) else rest
    case ReadLine => ReadEvent(capacity, w)
    case Deliver => Take(resolve, w.(channel := w.channel[1..]), Event(w.channel[0]))
  }

  predicate Runs(resolve: Resolver, capacity: nat, w: World, actions: seq<Action>)
    decreases |actions|
  {
    actions == [] ||
    (Enabled(capacity, w, actions[0]) && Runs(resolve, capacity, Apply(resolve, capacity, w, actions[0]), actions[1..]))
  }

  function After(resolve: Resolver, capacity: nat, w: World, actions: seq<Action>): World
    requires Runs(resolve, capacity, w, actions)
    decreases |actions|
  {
    if actions == [] then w else After(resolve, capacity, Apply(resolve, capacity, w, actions[0]), actions[1..])
  }

  // ---- what an input makes the session send ----

  function LastSetPause(calls: seq<Call>): Option<bool> {
    if calls == [] then None
    else if LastSetPause(calls[1..]).Some? then LastSetPause(calls[1..])
    else if calls[0].SetPause? then Some(calls[0].paused) else None
  }

  function LastPaused(events: seq<PlayerEvent>): Option<bool> {
    if events == [] then None
    else if LastPaused(events[1..]).Some? then LastPaused(events[1..])
    else if events[0].Paused? then Some(events[0].paused) else None
  }

  function OrElse(a: Option<bool>, b: Option<bool>): Option<bool> {
    if a.Some? then a else b
  }

  lemma {:induction false} LastSetPauseConcat(a: seq<Call>, b: seq<Call>)
    ensures LastSetPause(a + b) == OrElse(LastSetPause(b), LastSetPause(a))
  {
    if a == [] {
      assert a + b == b;
    } else {
      assert (a + b)[1..] == a[1..] + b;
      LastSetPauseConcat(a[1..], b);
    }
  }

  lemma {:induction false} LastPausedConcat(a: seq<PlayerEvent>, b: seq<PlayerEvent>)
    ensures LastPaused(a + b) == OrElse(LastPaused(b), LastPaused(a))
  {
    if a == [] {
      assert a + b == b;
    } else {
      assert (a + b)[1..] == a[1..] + b;
      LastPausedConcat(a[1..], b);
    }
  }

  /** At most a load and an unpause; the flag is what the last pause command says. */
  predicate Sends(s: Session, s': Session, sent: seq<Call>) {
    && s'.calls == s.calls + sent && |sent| <= 2
    && s'.paused == (if LastSetPause(sent).Some? then LastSetPause(sent).value else s.paused)
  }

  predicate SendsSome(s: Session, s': Session) {
    |s.calls| <= |s'.calls| && Sends(s, s', s'.calls[|s.calls|..])
  }

  lemma {:induction false} PlayCurrentSends(resolve: Resolver, s: Session)
    ensures SendsSome(s, PlayCurrent(resolve, s).0)
    decreases |s.tracks| - s.cursor
  {
    if s.cursor < |s.tracks| {
      match resolve(s.tracks[s.cursor])
      case Some(target) =>
        LastSetPauseConcat([Load(target)], [SetPause(false)]);
      case None =>
        if s.cursor + 1 < |s.tracks| {
          PlayCurrentSends(resolve, s.(cursor := s.cursor + 1));
        }
    }
  }

  lemma ActSends(resolve: Resolver, s: Session, input: Input)
    requires !(input.Event? && input.event.Paused?)
    ensures SendsSome(s, Act(resolve, s, input).0)
  {
    PlayCurrentSends(resolve, s.(cursor := if s.cursor == 0 then 0 else s.cursor - 1));
    PlayCurrentSends(resolve, s.(cursor := s.cursor + 1));
  }

  lemma CallsGrow(resolve: Resolver, s: Session, input: Input)
    ensures |s.calls| <= |Act(resolve, s, input).0.calls|
  {
    if !(input.Event? && input.event.Paused?) {
      ActSends(resolve, s, input);
    }
  }

  // ---- agreement ----

  /** The last pause event on its way tells the player's state. When none is on its way, the flag
      tells it too, unless a command that will make it true is on its way. */
  predicate Converging(w: World) {
    match LastPaused(w.channel + w.wire)
    case Some(paused) => paused == w.playerPaused
    case None => w.session.paused == w.playerPaused || LastSetPause(w.commands) == Some(w.session.paused)
  }

  lemma TakeConverges(resolve: Resolver, w: World, input: Input)
    requires Converging(w) && !(input.Event? && input.event.Paused?)
    ensures Converging(Take(resolve, w, input))
  {
    ActSends(resolve, w.session, input);
    var sent := Act(resolve, w.session, input).0.calls[|w.session.calls|..];
    LastSetPauseConcat(w.commands, sent);
  }

  lemma PlayerPauseConverges(w: World, paused: bool)
    requires Converging(w) || (w.playerPaused != paused)
    ensures Converging(PlayerPause(w, paused))
  {
    if paused != w.playerPaused {
      LastPausedConcat(w.channel + w.wire, [Paused(paused)]);
      assert w.channel + (w.wire + [Paused(paused)]) == w.channel + w.wire + [Paused(paused)];
    }
  }

  lemma ObeyConverges(resolve: Resolver, capacity: nat, w: World)
    requires Converging(w) && w.commands != []
    ensures Converging(Apply(resolve, capacity, w, Obey))
  {
    var rest := w.(commands := w.commands[1..]);
    if w.commands[0].SetPause? {
      PlayerPauseConverges(rest, w.commands[0].paused);
    }
  }

  lemma DeliverConverges(resolve: Resolver, capacity: nat, w: World)
    requires Converging(w) && w.channel != []
    ensures Converging(Apply(resolve, capacity, w, Deliver))
  {
    var rest := w.(channel := w.channel[1..]);
    var event := w.channel[0];
    assert w.channel + w.wire == [event] + (rest.channel + rest.wire);
    LastPausedConcat([event], rest.channel + rest.wire);
    if event.Paused? {
      assert Act(resolve, w.session, Event(event)).0.calls == w.session.calls;
    } else {
      TakeConverges(resolve, rest, Event(event));
    }
  }

  lemma ReadConverges(capacity: nat, w: World)
    requires Converging(w) && w.wire != [] && (|w.channel| < capacity || w.wire[0].Position?)
    ensures Converging(ReadEvent(capacity, w))
  {
    var event, rest := w.wire[0], w.wire[1..];
    assert w.wire == [event] + rest;
    LastPausedConcat(w.channel, w.wire);
    LastPausedConcat([event], rest);
    LastPausedConcat(w.channel, rest);
    assert w.channel + w.wire == (w.channel + [event]) + rest;
  }

  lemma ApplyConverges(resolve: Resolver, capacity: nat, w: World, action: Action)
    requires Converging(w) && Enabled(capacity, w, action)
    ensures Converging(Apply(resolve, capacity, w, action))
  {
    match action
    case Press(input) => TakeConverges(resolve, w, input);
    case PauseElsewhere(paused) => PlayerPauseConverges(w, paused);
    case Emit(event) =>
      LastPausedConcat(w.channel + w.wire, [event]);
      assert w.channel + (w.wire + [event]) == w.channel + w.wire + [event];
    case Obey => ObeyConverges(resolve, capacity, w);
    case ReadLine => ReadConverges(capacity, w);
    case Deliver => DeliverConverges(resolve, capacity, w);
  }

  lemma {:induction false} RunConverges(resolve: Resolver, capacity: nat, w: World, actions: seq<Action>)
    requires Converging(w) && Runs(resolve, capacity, w, actions)
    ensures Converging(After(resolve, capacity, w, actions))
    decreases |actions|
  {
    if actions != [] {
      ApplyConverges(resolve, capacity, w, actions[0]);
      RunConverges(resolve, capacity, Apply(resolve, capacity, w, actions[0]), actions[1..]);
    }
  }

  /** A session that has just been started, and its player: observing the pause property brings
      one event at once. */
  function Boot(session: Session): World {
    World(session, false, session.calls, [Paused(false)], [])
  }

  predicate PauseOnItsWay(w: World) {
    LastPaused(w.channel + w.wire).Some? || LastSetPause(w.commands).Some?
  }

  /** In every run of key presses, pauses made elsewhere, events and deliveries, the last pause
      event on its way is the player's state. With none on its way the session's flag is, or the
      last pause command on its way will make it so. With neither, the flag is. */
  lemma PauseFlagIsRight(resolve: Resolver, capacity: nat, session: Session, actions: seq<Action>)
    requires !session.paused && Runs(resolve, capacity, Boot(session), actions)
    ensures var w := After(resolve, capacity, Boot(session), actions);
            && (match LastPaused(w.channel + w.wire)
                case Some(paused) => paused == w.playerPaused
                case None =>
                  w.session.paused == w.playerPaused || LastSetPause(w.commands) == Some(w.session.paused))
            && (!PauseOnItsWay(w) ==> w.session.paused == w.playerPaused)
  {
    RunConverges(resolve, capacity, Boot(session), actions);
  }

  // ---- no event is lost on the way ----

  /** What the player reports when an action is taken. */
  function Reported(w: World, action: Action): seq<PlayerEvent> {
    match action
    case Emit(event) => [event]
    case PauseElsewhere(paused) => if paused == w.playerPaused then [] else [Paused(paused)]
    case Obey =>
      if w.commands != [] && w.commands[0].SetPause? && w.commands[0].paused != w.playerPaused
      then [Paused(w.commands[0].paused)] else []
    case _ => []
  }

  function AllReported(resolve: Resolver, capacity: nat, w: World, actions: seq<Action>): seq<PlayerEvent>
    requires Runs(resolve, capacity, w, actions)
    decreases |actions|
  {
    if actions == [] then []
    else
      Reported(w, actions[0]) + AllReported(resolve, capacity, Apply(resolve, capacity, w, actions[0]), actions[1..])
  }

  /** The events the session was given. */
  function Delivered(resolve: Resolver, capacity: nat, w: World, actions: seq<Action>): seq<PlayerEvent>
    requires Runs(resolve, capacity, w, actions)
    decreases |actions|
  {
    if actions == [] then []
    else
      (if actions[0].Deliver? then [w.channel[0]] else [])
      + Delivered(resolve, capacity, Apply(resolve, capacity, w, actions[0]), actions[1..])
  }

  /** Whether the channel had room at every line read. */
  predicate HadRoom(resolve: Resolver, capacity: nat, w: World, actions: seq<Action>)
    requires Runs(resolve, capacity, w, actions)
    decreases |actions|
  {
    actions == [] ||
    ((actions[0].ReadLine? ==> |w.channel| < capacity)
     && HadRoom(resolve, capacity, Apply(resolve, capacity, w, actions[0]), actions[1..]))
  }

  /** All events, or all but position ticks. */
  function Kept(events: seq<PlayerEvent>, ticks: bool): seq<PlayerEvent> {
    if events == [] then []
    else (if events[0].Position? && !ticks then [] else [events[0]]) + Kept(events[1..], ticks)
  }

  lemma {:induction false} KeptConcat(a: seq<PlayerEvent>, b: seq<PlayerEvent>, ticks: bool)
    ensures Kept(a + b, ticks) == Kept(a, ticks) + Kept(b, ticks)
  {
    if a == [] {
      assert a + b == b;
    } else {
      assert (a + b)[1..] == a[1..] + b;
      KeptConcat(a[1..], b, ticks);
    }
  }

  lemma {:induction false} KeptAll(events: seq<PlayerEvent>)
    ensures Kept(events, true) == events
  {
    if events != [] {
      KeptAll(events[1..]);
    }
  }

  function OnItsWay(w: World): seq<PlayerEvent> {
    w.channel + w.wire
  }

  lemma KeptThree(a: seq<PlayerEvent>, event: PlayerEvent, b: seq<PlayerEvent>, ticks: bool)
    ensures Kept(a + [event] + b, ticks) == Kept(a, ticks) + Kept([event], ticks) + Kept(b, ticks)
  {
    KeptConcat(a + [event], b, ticks);
    KeptConcat(a, [event], ticks);
  }

  lemma ReadKeeps(capacity: nat, w: World, ticks: bool)
    requires w.wire != [] && (|w.channel| < capacity || w.wire[0].Position?)
    requires ticks ==> |w.channel| < capacity
    ensures Kept(OnItsWay(ReadEvent(capacity, w)), ticks) == Kept(OnItsWay(w), ticks)
  {
    assert w.channel + w.wire == w.channel + [w.wire[0]] + w.wire[1..];
    KeptThree(w.channel, w.wire[0], w.wire[1..], ticks);
    KeptConcat(w.channel, w.wire[1..], ticks);
  }

  lemma DeliverKeeps(resolve: Resolver, capacity: nat, w: World, ticks: bool)
    requires w.channel != []
    ensures Kept([w.channel[0]] + OnItsWay(Apply(resolve, capacity, w, Deliver)), ticks) == Kept(OnItsWay(w), ticks)
  {
    assert [w.channel[0]] + (w.channel[1..] + w.wire) == w.channel + w.wire;
  }

  lemma StepReports(resolve: Resolver, capacity: nat, w: World, action: Action)
    requires Enabled(capacity, w, action) && !action.ReadLine? && !action.Deliver?
    ensures OnItsWay(Apply(resolve, capacity, w, action)) == OnItsWay(w) + Reported(w, action)
  {
  }

  /** One action: what was on its way and what is reported is delivered or on its way. */
  lemma StepKeeps(resolve: Resolver, capacity: nat, w: World, action: Action, ticks: bool)
    requires Enabled(capacity, w, action) && (ticks && action.ReadLine? ==> |w.channel| < capacity)
    ensures var given := if action.Deliver? then [w.channel[0]] else [];
            Kept(OnItsWay(w) + Reported(w, action), ticks)
            == Kept(given, ticks) + Kept(OnItsWay(Apply(resolve, capacity, w, action)), ticks)
  {
    assert OnItsWay(w) + [] == OnItsWay(w);
    if action.ReadLine? {
      ReadKeeps(capacity, w, ticks);
    } else if action.Deliver? {
      DeliverKeeps(resolve, capacity, w, ticks);
      KeptConcat([w.channel[0]], OnItsWay(Apply(resolve, capacity, w, action)), ticks);
    } else {
      StepReports(resolve, capacity, w, action);
    }
  }

  lemma Reassociate(a: seq<PlayerEvent>, b: seq<PlayerEvent>, c: seq<PlayerEvent>)
    ensures a + (b + c) == a + b + c
  {
  }

  /** What is kept of one action and of the rest makes up what is kept of both. */
  lemma KeptChain(before: seq<PlayerEvent>, reported: seq<PlayerEvent>, later: seq<PlayerEvent>,
                  given: seq<PlayerEvent>, now: seq<PlayerEvent>, delivered: seq<PlayerEvent>, end: seq<PlayerEvent>,
                  ticks: bool)
    requires Kept(before + reported, ticks) == Kept(given, ticks) + Kept(now, ticks)
    requires Kept(now + later, ticks) == Kept(delivered + end, ticks)
    ensures Kept(before + (reported + later), ticks) == Kept(given + delivered + end, ticks)
  {
    Reassociate(before, reported, later);
    Reassociate(given, delivered, end);
    Reassociate(Kept(given, ticks), Kept(now, ticks), Kept(later, ticks));
    KeptConcat(before + reported, later, ticks);
    KeptConcat(now, later, ticks);
    KeptConcat(given, delivered + end, ticks);
  }

  /** Everything the player reports reaches the session in order or is still on its way: all of it but
      position ticks, and those too if the channel never was full. */
  lemma {:induction false} EventsArrive(resolve: Resolver, capacity: nat, w: World, actions: seq<Action>, ticks: bool)
    requires Runs(resolve, capacity, w, actions) && (ticks ==> HadRoom(resolve, capacity, w, actions))
    ensures Kept(OnItsWay(w) + AllReported(resolve, capacity, w, actions), ticks)
         == Kept(Delivered(resolve, capacity, w, actions) + OnItsWay(After(resolve, capacity, w, actions)), ticks)
    decreases |actions|
  {
    if actions == [] {
      assert OnItsWay(w) + [] == [] + OnItsWay(w);
    } else {
      var w1, rest := Apply(resolve, capacity, w, actions[0]), actions[1..];
      var given := if actions[0].Deliver? then [w.channel[0]] else [];
      StepKeeps(resolve, capacity, w, actions[0], ticks);
      EventsArrive(resolve, capacity, w1, rest, ticks);
      KeptChain(OnItsWay(w), Reported(w, actions[0]), AllReported(resolve, capacity, w1, rest),
                given, OnItsWay(w1), Delivered(resolve, capacity, w1, rest),
                OnItsWay(After(resolve, capacity, w1, rest)), ticks);
    }
  }

  /** So with room in the channel every event arrives, unaltered and in order. */
  lemma EventsArriveUnaltered(resolve: Resolver, capacity: nat, w: World, actions: seq<Action>)
    requires Runs(resolve, capacity, w, actions) && HadRoom(resolve, capacity, w, actions)
    ensures OnItsWay(w) + AllReported(resolve, capacity, w, actions)
         == Delivered(resolve, capacity, w, actions) + OnItsWay(After(resolve, capacity, w, actions))
  {
    EventsArrive(resolve, capacity, w, actions, true);
    KeptAll(OnItsWay(w) + AllReported(resolve, capacity, w, actions));
    KeptAll(Delivered(resolve, capacity, w, actions) + OnItsWay(After(resolve, capacity, w, actions)));
  }

  // ---- and it settles ----

  function EventWeight(event: PlayerEvent): nat {
    if event.EndFile? then 8 else 1
  }

  function EventsWeight(events: seq<PlayerEvent>): nat {
    if events == [] then 0 else EventWeight(events[0]) + EventsWeight(events[1..])
  }

  lemma {:induction false} EventsWeightConcat(a: seq<PlayerEvent>, b: seq<PlayerEvent>)
    ensures EventsWeight(a + b) == EventsWeight(a) + EventsWeight(b)
  {
    if a == [] {
      assert a + b == b;
    } else {
      assert (a + b)[1..] == a[1..] + b;
      EventsWeightConcat(a[1..], b);
    }
  }

  /** An upper bound on the steps left when nobody touches a key. */
  function Pending(w: World): nat {
    3 * |w.commands| + EventsWeight(w.wire) + |w.wire| + EventsWeight(w.channel)
  }

  predicate Internal(action: Action) {
    action.Obey? || action.ReadLine? || action.Deliver?
  }

  predicate Quiet(w: World) {
    w.commands == [] && w.wire == [] && w.channel == []
  }

  /** Something can always move until everything has arrived. */
  lemma NeverStuck(capacity: nat, w: World)
    requires capacity > 0
    ensures Quiet(w) <==> forall action | Internal(action) :: !Enabled(capacity, w, action)
  {
    if forall action | Internal(action) :: !Enabled(capacity, w, action) {
      assert !Enabled(capacity, w, Obey) && !Enabled(capacity, w, ReadLine) && !Enabled(capacity, w, Deliver);
    }
  }

  lemma InternalStepSettles(resolve: Resolver, capacity: nat, w: World, action: Action)
    requires Internal(action) && Enabled(capacity, w, action)
    ensures Pending(Apply(resolve, capacity, w, action)) < Pending(w)
  {
    match action
    case Obey =>
      if w.commands[0].SetPause? {
        EventsWeightConcat(w.wire, [Paused(w.commands[0].paused)]);
      }
    case ReadLine =>
      EventsWeightConcat(w.channel, [w.wire[0]]);
    case Deliver =>
      var input := Event(w.channel[0]);
      if !w.channel[0].Paused? {
        ActSends(resolve, w.session, input);
      }
      if !w.channel[0].EndFile? {
        assert Act(resolve, w.session, input).0.calls == w.session.calls;
      }
    case _ =>
  }

  /** Left alone, any run comes to rest within a bound, and at rest the flag is the player's
      state. */
  lemma {:induction false} PauseConverges(resolve: Resolver, capacity: nat, w: World, actions: seq<Action>)
    requires Converging(w) && Runs(resolve, capacity, w, actions)
    requires forall action | action in actions :: Internal(action)
    ensures var w' := After(resolve, capacity, w, actions);
            && |actions| + Pending(w') <= Pending(w)
            && (Quiet(w') ==> w'.session.paused == w'.playerPaused)
    decreases |actions|
  {
    if actions != [] {
      ApplyConverges(resolve, capacity, w, actions[0]);
      InternalStepSettles(resolve, capacity, w, actions[0]);
      PauseConverges(resolve, capacity, Apply(resolve, capacity, w, actions[0]), actions[1..]);
    }
  }
}
