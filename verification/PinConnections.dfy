/** The two objects elements share while the pipeline runs: a connection's queue and a consumer's scoreboard. */
module PinConnections {
  import opened PipelineGraph
  import opened PipelineSteps

  /** Counts, for each incomplete serial, the pins that have announced it. */
  class ScoreBoard {
    var pinCount: nat
    var lookup: map<nat, nat>

    constructor ()
      ensures pinCount == 0 && lookup == map[]
    {
      pinCount, lookup := 0, map[];
    }

    method SetPinCount(count: nat)
      modifies this
      ensures pinCount == count && lookup == old(lookup)
    {
      pinCount := count;
    }

    /** The pin's own id is not looked at. */
    method Add(serial: nat) returns (complete: bool)
      modifies this
      ensures pinCount == old(pinCount) && (lookup, complete) == ScoreAdd(old(lookup), pinCount, serial)
      ensures var count := 1 + if serial in old(lookup) then old(lookup)[serial] else 0;
              complete == (count == pinCount) && lookup == if complete then old(lookup) - {serial} else old(lookup)[serial := count]
    {
      var count := if serial in lookup then lookup[serial] else 0;
      count := count + 1;
      if count == pinCount {
        lookup := lookup - {serial};
        return true;
      }
      lookup := lookup[serial := count];
      complete := false;
    }
  }

  /** The items put and not yet taken, oldest first. Get and Peek answer None where the program throws. */
  class PinConnection {
    var queue: seq<Data>

    constructor ()
      ensures queue == []
    {
      queue := [];
    }

    method Put(data: Data)
      modifies this
      ensures queue == old(queue) + [data]
    {
      queue := queue + [data];
    }

    method Get() returns (data: Option<Data>)
      modifies this
      ensures data.None? <==> old(queue) == []
      ensures old(queue) == (if data.Some? then [data.value] else []) + queue
    {
      if queue == [] { return None; }
      data := Some(queue[0]);
      queue := queue[1..];
    }

    method Peek() returns (data: Option<Data>)
      ensures data.None? <==> queue == []
      ensures data.Some? ==> [data.value] <= queue
    {
      if queue == [] { return None; }
      data := Some(queue[0]);
    }

    method Flush()
      modifies this
      ensures queue == []
    {
      while queue != []
        decreases |queue|
      {
        queue := queue[1..];
      }
    }

    /** Drops items up to the first with the wanted serial, or all when there is none. */
    method FastForward(target: nat) returns (success: bool)
      modifies this
      ensures success <==> exists k :: 0 <= k < |old(queue)| && old(queue)[k].serial == target
      ensures success ==> queue != [] && queue[0].serial == target
      ensures !success ==> queue == []
      ensures var n := |old(queue)| - |queue|; n >= 0 && queue == old(queue)[n..] && forall k | 0 <= k < n :: old(queue)[k].serial != target
    {
      success := false;
      ghost var n := 0;
      while !success && queue != []
        invariant 0 <= n <= |old(queue)| && queue == old(queue)[n..]
        invariant forall k | 0 <= k < n :: old(queue)[k].serial != target
        invariant success ==> queue != [] && queue[0].serial == target
        decreases |queue|, !success
      {
        if queue[0].serial == target {
          success := true;
        } else {
          queue := queue[1..];
          n := n + 1;
        }
      }
    }
  }
}
