/** Playback with every kind of input: a reference that knows only a position and the pause flag, and
    says for each input what is sent to the player. */
module Skips {
  import opened Wrappers
  import opened PlayQueue
  import opened SessionModel

  // ---- where a skip goes ----

  /** The next key loads the first stream after the current track; on the last track it does nothing,
      and only running out of streams on the way finishes. */
  lemma NextExactly(resolve: Resolver, s: Session)
    requires Valid(s)
    ensures var (s', flow) := Next(resolve, s);
            var after := Targets(resolve, s.tracks, s.cursor + 1);
            && Loads(s'.calls) == Loads(s.calls) + after[..Min(1, |after|)]
            && (flow.Finished? <==> s.cursor + 1 < |s.tracks| && after == [])
            && (s.cursor + 1 >= |s.tracks| ==> s' == s)
            && (after != [] ==> Targets(resolve, s'.tracks, s'.cursor + 1) == after[1..] && OnCurrent(resolve, s'))
  {
    if s.cursor + 1 < |s.tracks| {
      PlayCurrentTakesFirst(resolve, s.(cursor := s.cursor + 1));
    }
  }

  /** The previous key loads the first stream from the track before on, and on the first track that
      track's again. */
  lemma PreviousExactly(resolve: Resolver, s: Session)
    requires Valid(s)
    ensures var (s', flow) := Previous(resolve, s);
            var from := Targets(resolve, s.tracks, if s.cursor == 0 then 0 else s.cursor - 1);
            && Loads(s'.calls) == Loads(s.calls) + from[..Min(1, |from|)]
            && (flow.Finished? <==> from == [])
            && (from != [] ==> Targets(resolve, s'.tracks, s'.cursor + 1) == from[1..] && OnCurrent(resolve, s'))
  {
    PlayCurrentTakesFirst(resolve, s.(cursor := if s.cursor == 0 then 0 else s.cursor - 1));
  }

  /** Going on and back again returns to the track, if both can be streamed. */
  lemma NextThenPrevious(resolve: Resolver, s: Session)
    requires s.cursor + 1 < |s.tracks|
    requires resolve(s.tracks[s.cursor]).Some? && resolve(s.tracks[s.cursor + 1]).Some?
    ensures var there := Next(resolve, s).0;
            var back := Previous(resolve, there).0;
            && there.cursor == s.cursor + 1 && back.cursor == s.cursor
            && Loads(back.calls) == Loads(s.calls) + [resolve(s.tracks[s.cursor + 1]).value,
                                                      resolve(s.tracks[s.cursor]).value]
  {
    var on := s.(cursor := s.cursor + 1);
    var there := Next(resolve, s).0;
    LoadTargetLoads(on, resolve(s.tracks[s.cursor + 1]).value);
    LoadTargetLoads(there.(cursor := s.cursor), resolve(s.tracks[s.cursor]).value);
  }

  /** A pause key tells the player the opposite of the flag, and a second one takes it back. */
  lemma PauseTwice(s: Session)
    ensures TogglePause(TogglePause(s)) == s.(calls := s.calls + [SetPause(!s.paused), SetPause(s.paused)])
  {
  }

  // ---- the reference ----

  /** The first track from the i-th on that can be streamed. */
  function FirstFrom(resolve: Resolver, tracks: seq<Track>, i: nat): (j: nat)
    requires i <= |tracks|
    ensures i <= j <= |tracks|
    ensures forall k | i <= k < j :: resolve(tracks[k]).None?
    ensures j < |tracks| ==> resolve(tracks[j]).Some?
    decreases |tracks| - i
  {
    if i == |tracks| || resolve(tracks[i]).Some? then i else FirstFrom(resolve, tracks, i + 1)
  }

  /** A position in the tracks, or the start of none. */
  predicate OnTrack(tracks: seq<Track>, at: nat) {
    at < |tracks| || (at == 0 && tracks == [])
  }

  datatype Spot = Spot(at: nat, paused: bool)

  /** Where an input makes the session look for a stream. */
  function LooksFrom(at: nat, total: nat, input: Input): Option<nat> {
    if Ends(input) || input.NextKey? then (if at + 1 < total then Some(at + 1) else None)
    else if input.PreviousKey? then Some(if at == 0 then 0 else at - 1)
    else None
  }

  function Moved(resolve: Resolver, tracks: seq<Track>, spot: Spot, input: Input): Spot
    requires OnTrack(tracks, spot.at)
  {
    match LooksFrom(spot.at, |tracks|, input)
    case Some(i) =>
      var j := FirstFrom(resolve, tracks, i);
      if j < |tracks| then Spot(j, false) else spot.(at := if tracks == [] then 0 else |tracks| - 1)
    case None =>
      match input
      case PauseKey => spot.(paused := !spot.paused)
      case Event(Paused(paused)) => spot.(paused := paused)
      case _ => spot
  }

  /** What an input makes the session send: a stream, and with it the end of a pause. */
  function Sent(resolve: Resolver, tracks: seq<Track>, spot: Spot, input: Input): seq<Call>
    requires OnTrack(tracks, spot.at)
  {
    match LooksFrom(spot.at, |tracks|, input)
    case Some(i) =>
      var j := FirstFrom(resolve, tracks, i);
      if j == |tracks| then []
      else [Load(resolve(tracks[j]).value)] + (if spot.paused then [SetPause(false)] else [])
    case None => if input.PauseKey? then [SetPause(!spot.paused)] else []
  }

  /** It is over when the last track ends, and when there is nothing left to load. */
  predicate Over(resolve: Resolver, tracks: seq<Track>, at: nat, input: Input)
    requires OnTrack(tracks, at)
  {
    match LooksFrom(at, |tracks|, input)
    case Some(i) => FirstFrom(resolve, tracks, i) == |tracks|
    case None => Ends(input)
  }

  function SpotOf(s: Session): Spot {
    Spot(s.cursor, s.paused)
  }

  lemma {:induction false} PlayCurrentFinds(resolve: Resolver, s: Session)
    requires Valid(s)
    ensures var (s', flow), j := PlayCurrent(resolve, s), FirstFrom(resolve, s.tracks, s.cursor);
            && s'.tracks == s.tracks && (flow.Finished? <==> j == |s.tracks|)
            && (if j < |s.tracks| then
                  && SpotOf(s') == Spot(j, false)
                  && s'.calls == s.calls + ([Load(resolve(s.tracks[j]).value)]
                                            + (if s.paused then [SetPause(false)] else []))
                else s' == s.(cursor := if s.tracks == [] then 0 else |s.tracks| - 1))
    decreases |s.tracks| - s.cursor
  {
    if s.cursor + 1 < |s.tracks| && resolve(s.tracks[s.cursor]).None? {
      PlayCurrentFinds(resolve, s.(cursor := s.cursor + 1));
    }
  }

  /** What an input does to a session, by the reference. */
  predicate Expected(resolve: Resolver, s: Session, input: Input, s': Session, flow: Flow)
    requires Valid(s)
  {
    && s'.tracks == s.tracks && Valid(s')
    && SpotOf(s') == Moved(resolve, s.tracks, SpotOf(s), input)
    && s'.calls == s.calls + Sent(resolve, s.tracks, SpotOf(s), input)
    && (flow.Finished? <==> Over(resolve, s.tracks, s.cursor, input))
  }

  lemma LookIsExpected(resolve: Resolver, s: Session, input: Input, i: nat)
    requires Valid(s) && LooksFrom(s.cursor, |s.tracks|, input) == Some(i)
    ensures var (s', flow) := PlayCurrent(resolve, s.(cursor := i)); Expected(resolve, s, input, s', flow)
  {
    PlayCurrentFinds(resolve, s.(cursor := i));
  }

  /** Every input does what the reference says. */
  lemma ActIsExpected(resolve: Resolver, s: Session, input: Input)
    requires Valid(s)
    ensures var (s', flow) := Act(resolve, s, input); Expected(resolve, s, input, s', flow)
  {
    match LooksFrom(s.cursor, |s.tracks|, input)
    case Some(i) => LookIsExpected(resolve, s, input, i);
    case None =>
  }

  // ---- whole runs ----

  function AllSent(resolve: Resolver, tracks: seq<Track>, spot: Spot, inputs: seq<Input>): seq<Call>
    requires OnTrack(tracks, spot.at)
    decreases |inputs|
  {
    if inputs == [] then []
    else
      Sent(resolve, tracks, spot, inputs[0])
      + AllSent(resolve, tracks, Moved(resolve, tracks, spot, inputs[0]), inputs[1..])
  }

  function SpotAfter(resolve: Resolver, tracks: seq<Track>, spot: Spot, inputs: seq<Input>): (end: Spot)
    requires OnTrack(tracks, spot.at)
    ensures OnTrack(tracks, end.at)
    decreases |inputs|
  {
    if inputs == [] then spot else SpotAfter(resolve, tracks, Moved(resolve, tracks, spot, inputs[0]), inputs[1..])
  }

  lemma {:induction false} RunIsExpected(resolve: Resolver, s: Session, inputs: seq<Input>)
    requires Valid(s)
    ensures Play(resolve, s, inputs).calls == s.calls + AllSent(resolve, s.tracks, SpotOf(s), inputs)
    ensures SpotOf(Play(resolve, s, inputs)) == SpotAfter(resolve, s.tracks, SpotOf(s), inputs)
    ensures Valid(Play(resolve, s, inputs)) && Play(resolve, s, inputs).tracks == s.tracks
    decreases |inputs|
  {
    if inputs != [] {
      ActIsExpected(resolve, s, inputs[0]);
      RunIsExpected(resolve, Act(resolve, s, inputs[0]).0, inputs[1..]);
    }
  }

  lemma {:induction false} FlowAt(resolve: Resolver, s: Session, inputs: seq<Input>, i: nat)
    requires i < |inputs|
    ensures Flows(resolve, s, inputs)[i] == Act(resolve, Play(resolve, s, inputs[..i]), inputs[i]).1
    decreases i
  {
    if i > 0 {
      FlowAt(resolve, Act(resolve, s, inputs[0]).0, inputs[1..], i - 1);
      assert inputs[..i][1..] == inputs[1..][..i - 1];
    }
  }

  /** Whatever is pressed and whatever the player reports, in any order: everything sent to the player
      is what the position and the pause flag say, and each input finishes exactly when the reference
      is over. */
  lemma PlaybackWithKeys(resolve: Resolver, s: Session, inputs: seq<Input>)
    requires Valid(s)
    ensures Play(resolve, s, inputs).calls == s.calls + AllSent(resolve, s.tracks, SpotOf(s), inputs)
    ensures SpotOf(Play(resolve, s, inputs)) == SpotAfter(resolve, s.tracks, SpotOf(s), inputs)
    ensures forall i | 0 <= i < |inputs| ::
              Flows(resolve, s, inputs)[i].Finished?
              <==> Over(resolve, s.tracks, SpotAfter(resolve, s.tracks, SpotOf(s), inputs[..i]).at, inputs[i])
  {
    RunIsExpected(resolve, s, inputs);
    forall i | 0 <= i < |inputs|
      ensures Flows(resolve, s, inputs)[i].Finished?
              <==> Over(resolve, s.tracks, SpotAfter(resolve, s.tracks, SpotOf(s), inputs[..i]).at, inputs[i])
    {
      FlowAt(resolve, s, inputs, i);
      RunIsExpected(resolve, s, inputs[..i]);
      ActIsExpected(resolve, Play(resolve, s, inputs[..i]), inputs[i]);
    }
  }
}
