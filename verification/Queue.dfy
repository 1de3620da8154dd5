/** The play queue: the tracks that can be streamed, and a cursor. */
module PlayQueue {
  import opened Wrappers
  import opened Bytes

  datatype Access = Playable | Preview | Blocked

  datatype Track = Track(id: Text, title: Text, access: Access)

  function NotBlocked(tracks: seq<Track>): (kept: seq<Track>)
    ensures |kept| <= |tracks|
  {
    if tracks == [] then []
    else (if tracks[0].access.Blocked? then [] else [tracks[0]]) + NotBlocked(tracks[1..])
  }

  /** The tracks that are kept are those not blocked, each as often and in the order it came. */
  lemma {:induction false} NotBlockedExact(tracks: seq<Track>, track: Track)
    ensures multiset(NotBlocked(tracks))[track] == if track.access.Blocked? then 0 else multiset(tracks)[track]
  {
    if tracks != [] {
      NotBlockedExact(tracks[1..], track);
      assert tracks == [tracks[0]] + tracks[1..];
    }
  }

  lemma {:induction false} NotBlockedInOrder(a: seq<Track>, b: seq<Track>)
    ensures NotBlocked(a + b) == NotBlocked(a) + NotBlocked(b)
  {
    if a == [] {
      assert a + b == b;
    } else {
      assert (a + b)[1..] == a[1..] + b;
      NotBlockedInOrder(a[1..], b);
    }
  }

  class Queue {
    const tracks: seq<Track>
    var cursor: nat
    const skipped: nat

    /** The cursor is on a track, or the queue is empty. */
    ghost predicate Valid()
      reads this
    {
      cursor < |tracks| || (cursor == 0 && tracks == [])
    }

    constructor (tracks: seq<Track>)
      ensures Valid() && cursor == 0
      ensures this.tracks == NotBlocked(tracks)
      ensures |this.tracks| + skipped == |tracks|
    {
      this.tracks := NotBlocked(tracks);
      cursor := 0;
      skipped := |tracks| - |NotBlocked(tracks)|;
    }

    function Current(): (track: Option<Track>)
      requires Valid()
      reads this
      ensures track.Some? <==> tracks != []
      ensures track.Some? ==> track.value == tracks[cursor]
    {
      if cursor < |tracks| then Some(tracks[cursor]) else None
    }

    method Advance() returns (moved: bool)
      requires Valid()
      modifies this
      ensures Valid()
      ensures moved <==> old(cursor) + 1 < |tracks|
      ensures cursor == if moved then old(cursor) + 1 else old(cursor)
    {
      if cursor + 1 < |tracks| {
        cursor := cursor + 1;
        return true;
      }
      return false;
    }

    method Previous()
      requires Valid()
      modifies this
      ensures Valid()
      ensures cursor == if old(cursor) == 0 then 0 else old(cursor) - 1
    {
      cursor := if cursor == 0 then 0 else cursor - 1;
    }

    function Position(): (nat, nat)
      reads this
    {
      (cursor + 1, |tracks|)
    }
  }
}
