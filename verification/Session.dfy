/** The session object: it drives a player over a queue. Each method is proved to move the
    abstract state as `SessionModel` says. */
module Session {
  import opened PlayQueue
  import opened SessionModel
  import Skips

  /** A player that remembers the commands it was sent. */
  class Player {
    var calls: seq<Call>

    constructor ()
      ensures calls == []
    {
      calls := [];
    }

    method Send(call: Call)
      modifies this
      ensures calls == old(calls) + [call]
    {
      calls := calls + [call];
    }
  }

  class PlaybackSession {
    const resolve: Resolver
    const player: Player
    const queue: Queue
    var paused: bool

    ghost predicate Valid()
      reads this, queue
    {
      queue.Valid()
    }

    function State(): SessionModel.Session
      reads this, queue, player
    {
      SessionModel.Session(queue.tracks, queue.cursor, paused, player.calls)
    }

    constructor (resolve: Resolver, player: Player, tracks: seq<Track>)
      requires player.calls == []
      ensures Valid() && fresh(queue) && this.player == player && this.resolve == resolve
      ensures State() == NewSession(tracks)
    {
      this.resolve := resolve;
      this.player := player;
      queue := new Queue(tracks);
      paused := false;
    }

    method Start() returns (flow: Flow)
      requires Valid()
      modifies this, queue, player
      ensures Valid() && (State(), flow) == SessionModel.PlayCurrent(resolve, old(State()))
    {
      flow := PlayCurrent();
    }

    method Next() returns (flow: Flow)
      requires Valid()
      modifies this, queue, player
      ensures Valid() && (State(), flow) == SessionModel.Next(resolve, old(State()))
      ensures Skips.Expected(resolve, old(State()), NextKey, State(), flow)
    {
      Skips.ActIsExpected(resolve, State(), NextKey);
      var moved := queue.Advance();
      if moved {
        flow := PlayCurrent();
      } else {
        flow := Continue;
      }
    }

    method Previous() returns (flow: Flow)
      requires Valid()
      modifies this, queue, player
      ensures Valid() && (State(), flow) == SessionModel.Previous(resolve, old(State()))
      ensures Skips.Expected(resolve, old(State()), PreviousKey, State(), flow)
    {
      Skips.ActIsExpected(resolve, State(), PreviousKey);
      queue.Previous();
      flow := PlayCurrent();
    }

    method TogglePause()
      requires Valid()
      modifies this, player
      ensures Valid() && State() == SessionModel.TogglePause(old(State()))
      ensures Skips.Expected(resolve, old(State()), PauseKey, State(), Continue)
    {
      Skips.ActIsExpected(resolve, State(), PauseKey);
      paused := !paused;
      player.Send(SetPause(paused));
    }

    method HandleEvent(event: PlayerEvent) returns (flow: Flow)
      requires Valid()
      modifies this, queue, player
      ensures Valid() && (State(), flow) == SessionModel.HandleEvent(resolve, old(State()), event)
      ensures Skips.Expected(resolve, old(State()), Event(event), State(), flow)
    {
      Skips.ActIsExpected(resolve, State(), Event(event));
      match event
      case EndFile(Eof) => flow := AdvanceAfterEnd();
      case EndFile(Error) => flow := AdvanceAfterEnd();
      case EndFile(_) => flow := Continue;
      case Paused(p) =>
        paused := p;
        flow := Continue;
      case Position(_) => flow := Continue;
      case Duration(_) => flow := Continue;
    }

    method AdvanceAfterEnd() returns (flow: Flow)
      requires Valid()
      modifies this, queue, player
      ensures Valid() && (State(), flow) == SessionModel.AdvanceAfterEnd(resolve, old(State()))
    {
      var moved := queue.Advance();
      if moved {
        flow := PlayCurrent();
      } else {
        flow := Finished;
      }
    }

    method PlayCurrent() returns (flow: Flow)
      requires Valid()
      modifies this, queue, player
      ensures Valid() && (State(), flow) == SessionModel.PlayCurrent(resolve, old(State()))
    {
      while true
        invariant Valid()
        invariant SessionModel.PlayCurrent(resolve, State()) == SessionModel.PlayCurrent(resolve, old(State()))
        decreases |queue.tracks| - queue.cursor
      {
        var track := queue.Current();
        if track.None? {
          return Finished;
        }
        match resolve(track.value)
        case Some(target) =>
          player.Send(Load(target));
          if paused {
            paused := false;
            player.Send(SetPause(false));
          }
          return Continue;
        case None =>
          var moved := queue.Advance();
          if !moved {
            return Finished;
          }
      }
    }
  }
}
