/** The playback session as a value, and what a whole playback does. */
module SessionModel {
  import opened Wrappers
  import opened Bytes
  import opened PlayQueue

  datatype Flow = Continue | Finished

  datatype EndReason = Eof | Stop | Quit | Error | Other

  datatype PlayerEvent = EndFile(reason: EndReason) | Position(at: real) | Duration(length: real) | Paused(paused: bool)

  /** A stream the player can load. */
  type Target = Text

  /** A command sent to the player. */
  datatype Call = Load(target: Target) | SetPause(paused: bool)

  /** What the backend answers for each track. */
  type Resolver = Track -> Option<Target>

  datatype Session = Session(tracks: seq<Track>, cursor: nat, paused: bool, calls: seq<Call>)

  predicate Valid(s: Session) {
    s.cursor < |s.tracks| || (s.cursor == 0 && s.tracks == [])
  }

  function NewSession(tracks: seq<Track>): Session {
    Session(NotBlocked(tracks), 0, false, [])
  }

  function LoadTarget(s: Session, target: Target): Session {
    var loaded := s.(calls := s.calls + [Load(target)]);
    if s.paused then loaded.(paused := false, calls := loaded.calls + [SetPause(false)]) else loaded
  }

  /** Loads the track under the cursor, or the next one that resolves. */
  function PlayCurrent(resolve: Resolver, s: Session): (Session, Flow)
    decreases |s.tracks| - s.cursor
  {
    if s.cursor >= |s.tracks| then (s, Finished)
    else match resolve(s.tracks[s.cursor])
      case Some(target) => (LoadTarget(s, target), Continue)
      case None =>
        if s.cursor + 1 < |s.tracks| then PlayCurrent(resolve, s.(cursor := s.cursor + 1))
        else (s, Finished)
  }

  function AdvanceAfterEnd(resolve: Resolver, s: Session): (Session, Flow) {
    if s.cursor + 1 < |s.tracks| then PlayCurrent(resolve, s.(cursor := s.cursor + 1)) else (s, Finished)
  }

  function HandleEvent(resolve: Resolver, s: Session, event: PlayerEvent): (Session, Flow) {
    match event
    case EndFile(Eof) => AdvanceAfterEnd(resolve, s)
    case EndFile(Error) => AdvanceAfterEnd(resolve, s)
    case EndFile(_) => (s, Continue)
    case Paused(paused) => (s.(paused := paused), Continue)
    case Position(_) => (s, Continue)
    case Duration(_) => (s, Continue)
  }

  function Next(resolve: Resolver, s: Session): (Session, Flow) {
    if s.cursor + 1 < |s.tracks| then PlayCurrent(resolve, s.(cursor := s.cursor + 1)) else (s, Continue)
  }

  function Previous(resolve: Resolver, s: Session): (Session, Flow) {
    PlayCurrent(resolve, s.(cursor := if s.cursor == 0 then 0 else s.cursor - 1))
  }

  function TogglePause(s: Session): Session {
    s.(paused := !s.paused, calls := s.calls + [SetPause(!s.paused)])
  }

  /** Everything that can reach a session once it has started. */
  datatype Input = Event(event: PlayerEvent) | NextKey | PreviousKey | PauseKey

  function Act(resolve: Resolver, s: Session, input: Input): (Session, Flow) {
    match input
    case Event(event) => HandleEvent(resolve, s, event)
    case NextKey => Next(resolve, s)
    case PreviousKey => Previous(resolve, s)
    case PauseKey => (TogglePause(s), Continue)
  }

  function Play(resolve: Resolver, s: Session, inputs: seq<Input>): Session
    decreases |inputs|
  {
    if inputs == [] then s else Play(resolve, Act(resolve, s, inputs[0]).0, inputs[1..])
  }

  function Flows(resolve: Resolver, s: Session, inputs: seq<Input>): (flows: seq<Flow>)
    ensures |flows| == |inputs|
    decreases |inputs|
  {
    if inputs == [] then []
    else [Act(resolve, s, inputs[0]).1] + Flows(resolve, Act(resolve, s, inputs[0]).0, inputs[1..])
  }

  // ---- what was loaded, and what should be ----

  function Loads(calls: seq<Call>): seq<Target> {
    if calls == [] then []
    else Loads(calls[..|calls| - 1]) + (if calls[|calls| - 1].Load? then [calls[|calls| - 1].target] else [])
  }

  /** The streams of the tracks from the i-th on that resolve. */
  function Targets(resolve: Resolver, tracks: seq<Track>, i: nat): seq<Target>
    decreases |tracks| - i
  {
    if i >= |tracks| then []
    else (match resolve(tracks[i]) case Some(target) => [target] case None => []) + Targets(resolve, tracks, i + 1)
  }

  predicate Ends(input: Input) {
    input.Event? && (input.event == EndFile(Eof) || input.event == EndFile(Error))
  }

  predicate Manual(input: Input) {
    input.NextKey? || input.PreviousKey?
  }

  function CountEnds(inputs: seq<Input>): nat {
    if inputs == [] then 0 else (if Ends(inputs[0]) then 1 else 0) + CountEnds(inputs[1..])
  }

  lemma LoadsAppend(calls: seq<Call>, call: Call)
    ensures Loads(calls + [call]) == Loads(calls) + (if call.Load? then [call.target] else [])
  {
  }

  lemma LoadTargetLoads(s: Session, target: Target)
    ensures Loads(LoadTarget(s, target).calls) == Loads(s.calls) + [target]
  {
  }

  function Min(a: nat, b: nat): nat { if a < b then a else b }

  /** From `s` the first stream left was loaded, or there was none. */
  predicate TakesFirst(resolve: Resolver, s: Session, s': Session, flow: Flow) {
    var left := Targets(resolve, s.tracks, s.cursor);
    && Valid(s') && s'.tracks == s.tracks
    && flow == (if left == [] then Finished else Continue)
    && Loads(s'.calls) == Loads(s.calls) + left[..Min(1, |left|)]
    && Targets(resolve, s'.tracks, s'.cursor + 1) == left[Min(1, |left|)..]
    && (left != [] ==> s'.cursor < |s'.tracks| && resolve(s'.tracks[s'.cursor]) == Some(left[0]))
  }

  lemma FirstLeft(target: Target, rest: seq<Target>)
    ensures ([target] + rest)[..1] == [target] && ([target] + rest)[1..] == rest
  {
  }

  lemma ResolvedTakesFirst(resolve: Resolver, s: Session, target: Target, s': Session)
    requires s.cursor < |s.tracks| && resolve(s.tracks[s.cursor]) == Some(target)
    requires s'.tracks == s.tracks && s'.cursor == s.cursor && Loads(s'.calls) == Loads(s.calls) + [target]
    ensures TakesFirst(resolve, s, s', Continue)
  {
    var rest := Targets(resolve, s.tracks, s.cursor + 1);
    FirstLeft(target, rest);
    assert Targets(resolve, s.tracks, s.cursor) == [target] + rest;
  }

  lemma {:induction false} PlayCurrentTakesFirst(resolve: Resolver, s: Session)
    requires Valid(s)
    ensures var (s', flow) := PlayCurrent(resolve, s); TakesFirst(resolve, s, s', flow)
    decreases |s.tracks| - s.cursor
  {
    if s.cursor < |s.tracks| {
      match resolve(s.tracks[s.cursor])
      case Some(target) =>
        LoadTargetLoads(s, target);
        ResolvedTakesFirst(resolve, s, target, LoadTarget(s, target));
      case None =>
        if s.cursor + 1 < |s.tracks| {
          PlayCurrentTakesFirst(resolve, s.(cursor := s.cursor + 1));
        }
    }
  }

  /** Between two inputs: what is loaded and what is left make up the playlist. */
  predicate Progress(resolve: Resolver, s: Session, all: seq<Target>) {
    Valid(s) && Loads(s.calls) + Targets(resolve, s.tracks, s.cursor + 1) == all
  }

  /** How far the playlist got, and whether it ran out. */
  predicate Reaches(resolve: Resolver, s': Session, flow: Flow, all: seq<Target>, loaded: nat) {
    && Progress(resolve, s', all)
    && |Loads(s'.calls)| == Min(loaded, |all|)
    && (flow.Finished? <==> loaded > |all|)
  }

  lemma TakenAndLeft(loads: seq<Target>, left: seq<Target>, all: seq<Target>)
    requires loads + left == all
    ensures var k := Min(1, |left|);
            && (loads + left[..k]) + left[k..] == all
            && |loads + left[..k]| == Min(|loads| + 1, |all|)
            && (left == [] <==> |loads| + 1 > |all|)
  {
  }

  lemma TakesFirstReaches(resolve: Resolver, s: Session, s': Session, flow: Flow, all: seq<Target>)
    requires TakesFirst(resolve, s, s', flow)
    requires Loads(s.calls) + Targets(resolve, s.tracks, s.cursor) == all
    ensures Reaches(resolve, s', flow, all, |Loads(s.calls)| + 1)
  {
    TakenAndLeft(Loads(s.calls), Targets(resolve, s.tracks, s.cursor), all);
  }

  lemma EndReaches(resolve: Resolver, s: Session, all: seq<Target>)
    requires Progress(resolve, s, all)
    ensures var (s', flow) := AdvanceAfterEnd(resolve, s); Reaches(resolve, s', flow, all, |Loads(s.calls)| + 1)
  {
    if s.cursor + 1 < |s.tracks| {
      var s1 := s.(cursor := s.cursor + 1);
      PlayCurrentTakesFirst(resolve, s1);
      var (s', flow) := PlayCurrent(resolve, s1);
      TakesFirstReaches(resolve, s1, s', flow, all);
    }
  }

  lemma SameReaches(resolve: Resolver, s: Session, s': Session, all: seq<Target>)
    requires Progress(resolve, s, all)
    requires s'.tracks == s.tracks && s'.cursor == s.cursor && Loads(s'.calls) == Loads(s.calls)
    ensures Reaches(resolve, s', Continue, all, |Loads(s.calls)|)
  {
  }

  lemma OtherReaches(resolve: Resolver, s: Session, input: Input, all: seq<Target>)
    requires Progress(resolve, s, all) && !Manual(input) && !Ends(input)
    ensures var (s', flow) := Act(resolve, s, input);
            flow.Continue? && Reaches(resolve, s', flow, all, |Loads(s.calls)|)
  {
    LoadsAppend(s.calls, SetPause(!s.paused));
    SameReaches(resolve, s, Act(resolve, s, input).0, all);
  }

  /** When each input reports that the playlist ran out. */
  predicate FinishesWhen(flows: seq<Flow>, inputs: seq<Input>, loaded: nat, total: nat)
    requires |flows| == |inputs|
  {
    forall i | 0 <= i < |inputs| :: flows[i].Finished? <==> Ends(inputs[i]) && loaded + CountEnds(inputs[..i]) >= total
  }

  lemma FinishesStep(first: Flow, flows: seq<Flow>, input: Input, inputs: seq<Input>, loaded: nat, total: nat)
    requires |flows| == |inputs| && loaded <= total
    requires first.Finished? <==> Ends(input) && loaded >= total
    requires FinishesWhen(flows, inputs, Min(loaded + (if Ends(input) then 1 else 0), total), total)
    ensures FinishesWhen([first] + flows, [input] + inputs, loaded, total)
  {
    var all := [input] + inputs;
    forall i | 0 < i < |all|
      ensures CountEnds(all[..i]) == (if Ends(input) then 1 else 0) + CountEnds(inputs[..i - 1])
    {
      assert all[..i][1..] == inputs[..i - 1];
    }
  }

  lemma ActReaches(resolve: Resolver, s: Session, input: Input, all: seq<Target>)
    requires Progress(resolve, s, all) && !Manual(input)
    ensures var (s', flow) := Act(resolve, s, input);
            && Progress(resolve, s', all)
            && |Loads(s'.calls)| == Min(|Loads(s.calls)| + (if Ends(input) then 1 else 0), |all|)
            && (flow.Finished? <==> Ends(input) && |Loads(s.calls)| >= |all|)
  {
    if Ends(input) {
      EndReaches(resolve, s, all);
    } else {
      OtherReaches(resolve, s, input, all);
    }
  }

  /** Between two inputs: how far the playlist got. */
  predicate ProgressTo(resolve: Resolver, s: Session, all: seq<Target>, loaded: nat) {
    Progress(resolve, s, all) && |Loads(s.calls)| == Min(loaded, |all|)
  }

  lemma ActReachesNext(resolve: Resolver, s: Session, input: Input, all: seq<Target>, loaded: nat)
    requires ProgressTo(resolve, s, all, loaded) && !Manual(input)
    ensures ProgressTo(resolve, Act(resolve, s, input).0, all, loaded + if Ends(input) then 1 else 0)
  {
    ActReaches(resolve, s, input, all);
  }

  lemma {:induction false} PlayProgress(resolve: Resolver, s: Session, inputs: seq<Input>, all: seq<Target>,
                                        loaded: nat)
    requires ProgressTo(resolve, s, all, loaded) && forall input | input in inputs :: !Manual(input)
    ensures ProgressTo(resolve, Play(resolve, s, inputs), all, loaded + CountEnds(inputs))
    decreases |inputs|
  {
    if inputs != [] {
      ActReachesNext(resolve, s, inputs[0], all, loaded);
      PlayProgress(resolve, Act(resolve, s, inputs[0]).0, inputs[1..], all,
                   loaded + if Ends(inputs[0]) then 1 else 0);
    }
  }

  lemma {:induction false} PlayFinishes(resolve: Resolver, s: Session, inputs: seq<Input>, all: seq<Target>)
    requires Progress(resolve, s, all) && forall input | input in inputs :: !Manual(input)
    ensures FinishesWhen(Flows(resolve, s, inputs), inputs, |Loads(s.calls)|, |all|)
    decreases |inputs|
  {
    if inputs != [] {
      var (s1, flow) := Act(resolve, s, inputs[0]);
      var rest := inputs[1..];
      ActReaches(resolve, s, inputs[0], all);
      PlayFinishes(resolve, s1, rest, all);
      FinishesStep(flow, Flows(resolve, s1, rest), inputs[0], rest, |Loads(s.calls)|, |all|);
      assert inputs == [inputs[0]] + rest;
    }
  }

  lemma PlayLoads(resolve: Resolver, s: Session, inputs: seq<Input>, all: seq<Target>)
    requires Progress(resolve, s, all) && forall input | input in inputs :: !Manual(input)
    ensures Loads(Play(resolve, s, inputs).calls) == all[..Min(|Loads(s.calls)| + CountEnds(inputs), |all|)]
  {
    PlayProgress(resolve, s, inputs, all, |Loads(s.calls)|);
  }

  lemma PlaybackFrom(resolve: Resolver, s: Session, inputs: seq<Input>, all: seq<Target>)
    requires Progress(resolve, s, all) && |Loads(s.calls)| == Min(1, |all|)
    requires forall input | input in inputs :: !Manual(input)
    ensures Loads(Play(resolve, s, inputs).calls) == all[..Min(1 + CountEnds(inputs), |all|)]
    ensures FinishesWhen(Flows(resolve, s, inputs), inputs, Min(1, |all|), |all|)
  {
    PlayLoads(resolve, s, inputs, all);
    PlayFinishes(resolve, s, inputs, all);
  }

  lemma StartReaches(resolve: Resolver, tracks: seq<Track>)
    ensures var (s, flow) := PlayCurrent(resolve, NewSession(tracks));
            Reaches(resolve, s, flow, Targets(resolve, NotBlocked(tracks), 0), 1)
  {
    var s0 := NewSession(tracks);
    var (s, flow) := PlayCurrent(resolve, s0);
    PlayCurrentTakesFirst(resolve, s0);
    TakesFirstReaches(resolve, s0, s, flow, Targets(resolve, NotBlocked(tracks), 0));
  }

  /** Playback order: without manual skips, a start followed by any inputs loads exactly the
      streams of the playable tracks that resolve, in order and once each, one more for each end
      of file or error; `start` finishes exactly when there are none, and an input exactly when
      it is an end that finds them all loaded. */
  lemma PlaybackOrder(resolve: Resolver, tracks: seq<Track>, inputs: seq<Input>)
    requires forall input | input in inputs :: !Manual(input)
    ensures var all := Targets(resolve, NotBlocked(tracks), 0);
            var (s, flow) := PlayCurrent(resolve, NewSession(tracks));
            && Loads(Play(resolve, s, inputs).calls) == all[..Min(1 + CountEnds(inputs), |all|)]
            && (flow.Finished? <==> all == [])
            && FinishesWhen(Flows(resolve, s, inputs), inputs, Min(1, |all|), |all|)
  {
    var all := Targets(resolve, NotBlocked(tracks), 0);
    var s := PlayCurrent(resolve, NewSession(tracks)).0;
    StartReaches(resolve, tracks);
    PlaybackFrom(resolve, s, inputs, all);
  }

  // ---- events that change nothing ----

  predicate Ignorable(input: Input) {
    input.Event? && match input.event
                    case EndFile(reason) => reason.Stop? || reason.Quit? || reason.Other?
                    case Position(_) => true
                    case Duration(_) => true
                    case Paused(_) => false
  }

  function WithoutIgnorable(inputs: seq<Input>): seq<Input> {
    if inputs == [] then []
    else (if Ignorable(inputs[0]) then [] else [inputs[0]]) + WithoutIgnorable(inputs[1..])
  }

  /** Stop, quit, other, position and duration events can come anywhere, in any number. */
  lemma {:induction false} IgnorableChangesNothing(resolve: Resolver, s: Session, inputs: seq<Input>)
    ensures Play(resolve, s, inputs) == Play(resolve, s, WithoutIgnorable(inputs))
    ensures forall i | 0 <= i < |inputs| && Ignorable(inputs[i]) :: Flows(resolve, s, inputs)[i].Continue?
    decreases |inputs|
  {
    if inputs != [] {
      var s1, rest := Act(resolve, s, inputs[0]).0, WithoutIgnorable(inputs[1..]);
      IgnorableChangesNothing(resolve, s1, inputs[1..]);
      if Ignorable(inputs[0]) {
        assert WithoutIgnorable(inputs) == rest;
      } else {
        assert WithoutIgnorable(inputs) == [inputs[0]] + rest && WithoutIgnorable(inputs)[1..] == rest;
      }
    }
  }

  // ---- manual skips ----

  /** What plays is the track under the cursor. */
  predicate OnCurrent(resolve: Resolver, s: Session) {
    && s.cursor < |s.tracks|
    && Loads(s.calls) != []
    && resolve(s.tracks[s.cursor]) == Some(Loads(s.calls)[|Loads(s.calls)| - 1])
  }

  lemma TakesFirstOnCurrent(resolve: Resolver, s: Session)
    requires Valid(s) && PlayCurrent(resolve, s).1.Continue?
    ensures OnCurrent(resolve, PlayCurrent(resolve, s).0)
  {
    PlayCurrentTakesFirst(resolve, s);
  }

  lemma PauseOnCurrent(resolve: Resolver, s: Session)
    ensures OnCurrent(resolve, TogglePause(s)) <==> OnCurrent(resolve, s)
  {
    LoadsAppend(s.calls, SetPause(!s.paused));
  }

  lemma ActOnCurrent(resolve: Resolver, s: Session, input: Input)
    requires OnCurrent(resolve, s) && Act(resolve, s, input).1.Continue?
    ensures OnCurrent(resolve, Act(resolve, s, input).0)
  {
    if input.PauseKey? {
      PauseOnCurrent(resolve, s);
    } else if input.PreviousKey? {
      TakesFirstOnCurrent(resolve, s.(cursor := if s.cursor == 0 then 0 else s.cursor - 1));
    } else if (input.NextKey? || Ends(input)) && s.cursor + 1 < |s.tracks| {
      TakesFirstOnCurrent(resolve, s.(cursor := s.cursor + 1));
    }
  }

  /** Under any mix of events, skips and pauses, the last stream loaded is that of the current
      track until the first time the session reports it is finished. */
  lemma {:induction false} LastLoadIsCurrent(resolve: Resolver, s: Session, inputs: seq<Input>)
    requires OnCurrent(resolve, s)
    requires forall i | 0 <= i < |inputs| :: Flows(resolve, s, inputs)[i].Continue?
    ensures OnCurrent(resolve, Play(resolve, s, inputs))
    decreases |inputs|
  {
    if inputs != [] {
      var s1, flows := Act(resolve, s, inputs[0]).0, Flows(resolve, s, inputs);
      assert flows[0].Continue?;
      ActOnCurrent(resolve, s, inputs[0]);
      assert forall i | 0 <= i < |inputs| - 1 :: Flows(resolve, s1, inputs[1..])[i] == flows[i + 1];
      LastLoadIsCurrent(resolve, s1, inputs[1..]);
    }
  }

  /** It starts that way. */
  lemma StartIsOnCurrent(resolve: Resolver, tracks: seq<Track>)
    requires PlayCurrent(resolve, NewSession(tracks)).1.Continue?
    ensures OnCurrent(resolve, PlayCurrent(resolve, NewSession(tracks)).0)
  {
    TakesFirstOnCurrent(resolve, NewSession(tracks));
  }
}
