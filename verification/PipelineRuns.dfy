/** Theorems about whole executions of the pipeline, for every graph, behaviour and interleaving. */
module PipelineRuns {
  import opened FiniteSets
  import opened PipelineGraph
  import opened PipelineSteps
  import opened PipelineInvariant
  import opened PipelineSafety

  lemma StepKeeps(sys: System, st: State, step: Step)
    requires Inv(sys, st) && Enabled(sys, st, step)
    ensures Inv(sys, Next(sys, st, step))
  {
    match step
    case Start => StartKeeps(sys, st);
    case RequestStop => SameState(sys, st, st.(stopping := true));
    case FinishStop => StopKeeps(sys, st);
    case Reap(e) => ReapKeeps(sys, st, e);
    case Dispatch(e) => DispatchKeeps(sys, st, e);
    case BeginScan => SameState(sys, st, st.(scan := Some({})));
    case Scan(c) => SameState(sys, st, st.(scan := Some(st.scan.value + {c})));
    case DispatchProducers => ProducersKeep(sys, st);
    case Begin(e) => BeginKeeps(sys, st, e);
    case Take(c) => TakeKeeps(sys, st, c);
    case Push(c) => PushKeeps(sys, st, c);
    case Tell(e) => TellKeeps(sys, st, e);
    case Finish(e) => FinishKeeps(sys, st, e);
  }

  /** The stop request and the progress of a scan are not part of the invariant. */
  lemma SameState(sys: System, st: State, t: State)
    requires Inv(sys, st) && t == st.(stopping := t.stopping, scan := t.scan)
    ensures Inv(sys, t)
  {
    SameBoards(sys, st, t);
    SameChannels(sys, st, t);
  }

  lemma SameBoards(sys: System, st: State, t: State)
    requires Sound(sys) && Sized(sys, st) && Boards(sys, st) && t == st.(stopping := t.stopping, scan := t.scan)
    ensures Boards(sys, t)
  {
    forall e: nat | e < sys.g.size && st.live && e !in sys.g.producers ensures Scored(sys, t, e) {
      ScoredFrame(sys, st, t, e);
    }
  }

  lemma SameChannels(sys: System, st: State, t: State)
    requires Sound(sys) && Sized(sys, st) && Channels(sys, st) && t == st.(stopping := t.stopping, scan := t.scan)
    ensures Channels(sys, t)
  {
    forall c: nat | c < |sys.g.conns| ensures Flowing(sys, t, c) {
      assert Flowing(sys, st, c);
    }
  }

  /**
   * No assertion of the runtime ever fails, no queue is found empty or out of
   * step, in any state of any execution, over any number of starts and stops.
   */
  lemma {:induction false} AlwaysInv(sys: System, memory: seq<Memory>, states: seq<State>, steps: seq<Step>, i: nat)
    requires Sound(sys) && Execution(sys, memory, states, steps) && i <= |steps|
    ensures Inv(sys, states[i]) && !states[i].fault
  {
    if i == 0 {
      InitialInv(sys, memory);
    } else {
      AlwaysInv(sys, memory, states, steps, i - 1);
      StepKeeps(sys, states[i - 1], steps[i - 1]);
    }
  }

  /** Synchronisation: a run that begins finds one item of its own serial at the head of every input. */
  lemma RunsAreSynchronised(sys: System, memory: seq<Memory>, states: seq<State>, steps: seq<Step>, i: nat, e: nat)
    requires Sound(sys) && Execution(sys, memory, states, steps) && i < |steps| && steps[i] == Begin(e)
    ensures states[i].live && e < sys.g.size && states[i].elems[e].running == Some(states[i].elems[e].next)
    ensures HeadsAgree(sys, states[i], e, states[i].elems[e].next)
  {
    AlwaysInv(sys, memory, states, steps, i);
    ElementIsInOrderWhenRunning(sys, states[i], e);
    HeadsAreInputs(sys, states[i], e);
  }

  /**
   * Determinism: whatever the interleaving, an item put on connection c under
   * serial s is what the serial-by-serial evaluation of the graph puts there.
   */
  lemma PushesAreDetermined(sys: System, memory: seq<Memory>, states: seq<State>, steps: seq<Step>, i: nat, c: nat)
    requires Sound(sys) && Execution(sys, memory, states, steps) && i < |steps| && steps[i] == Push(c)
    ensures c < |states[i].queues| == |states[i + 1].queues| && |states[i].origin.memory| == sys.g.size
    ensures states[i].origin.base <= Put(sys, states[i], c)
    ensures states[i + 1].queues[c] == states[i].queues[c]
              + [Data(Put(sys, states[i], c), ValueAt(sys, states[i].origin, c, Put(sys, states[i], c)))]
  {
    AlwaysInv(sys, memory, states, steps, i);
    var st := states[i];
    var e := sys.g.conns[c].src;
    ElementIsInOrderWhenRunning(sys, st, e);
    PushInOrder(sys, st.origin, st.serial, e, st.elems[e], c,
                st.elems[e].(outbox := st.elems[e].outbox - {c}, telling := Some(c)));
  }

  /** Determinism of what is queued: every item in any queue of any state carries its reference value. */
  lemma QueuedIsDetermined(sys: System, memory: seq<Memory>, states: seq<State>, steps: seq<Step>, i: nat, c: nat, k: nat)
    requires Sound(sys) && Execution(sys, memory, states, steps) && i <= |steps|
    requires c < |states[i].queues| && k < |states[i].queues[c]|
    ensures states[i].live && Sized(sys, states[i])
    ensures states[i].origin.base <= states[i].queues[c][k].serial
    ensures states[i].queues[c][k].payload == ValueAt(sys, states[i].origin, c, states[i].queues[c][k].serial)
  {
    AlwaysInv(sys, memory, states, steps, i);
    QueuedItem(sys, states[i], c, k);
  }

  lemma QueuedItem(sys: System, st: State, c: nat, k: nat)
    requires Sound(sys) && Sized(sys, st) && c < |sys.g.conns| && Flowing(sys, st, c) && k < |st.queues[c]|
    ensures st.live && st.origin.base <= st.queues[c][k].serial
    ensures st.queues[c][k].payload == ValueAt(sys, st.origin, c, st.queues[c][k].serial)
  {
  }

  /** Determinism of memory: between runs, an element remembers what its reference evaluation leaves it. */
  lemma MemoryIsDetermined(sys: System, memory: seq<Memory>, states: seq<State>, steps: seq<Step>, i: nat, e: nat)
    requires Sound(sys) && Execution(sys, memory, states, steps) && i <= |steps| && e < sys.g.size
    requires e < |states[i].elems| && states[i].live && states[i].elems[e].phase != Running
    ensures Sized(sys, states[i]) && states[i].origin.base <= states[i].elems[e].next
    ensures states[i].elems[e].memory == MemoryAt(sys, states[i].origin, e, states[i].elems[e].next)
  {
    AlwaysInv(sys, memory, states, steps, i);
    assert Faithful(sys, states[i].origin, e, states[i].elems[e]);
  }

  /** Two executions whose sessions begin alike queue the same item under the same serial. */
  lemma SessionsAgree(sys: System, memory: seq<Memory>, states: seq<State>, steps: seq<Step>, i: nat, k: nat,
                      memory': seq<Memory>, states': seq<State>, steps': seq<Step>, j: nat, l: nat, c: nat)
    requires Sound(sys) && Execution(sys, memory, states, steps) && Execution(sys, memory', states', steps')
    requires i <= |steps| && j <= |steps'| && states[i].origin == states'[j].origin
    requires c < |states[i].queues| && k < |states[i].queues[c]| && c < |states'[j].queues| && l < |states'[j].queues[c]|
    requires states[i].queues[c][k].serial == states'[j].queues[c][l].serial
    ensures states[i].queues[c][k] == states'[j].queues[c][l]
  {
    QueuedIsDetermined(sys, memory, states, steps, i, c, k);
    QueuedIsDetermined(sys, memory', states', steps', j, c, l);
  }

  /** Conservation: a queue holds exactly the consecutive serials put and not yet taken. */
  lemma QueuesAreConsecutive(sys: System, memory: seq<Memory>, states: seq<State>, steps: seq<Step>, i: nat, c: nat)
    requires Sound(sys) && Execution(sys, memory, states, steps) && i <= |steps| && c < |sys.g.conns| && states[i].live
    ensures Sized(sys, states[i])
    ensures |states[i].queues[c]| == Put(sys, states[i], c) - Got(sys, states[i], c)
    ensures forall k: nat | k < |states[i].queues[c]| :: states[i].queues[c][k].serial == Got(sys, states[i], c) + k
    ensures Put(sys, states[i], c) <= states[i].serial
  {
    AlwaysInv(sys, memory, states, steps, i);
    assert Flowing(sys, states[i], c);
    ToldWithinDispatched(sys, states[i], c);
  }

  /** An element is in the run queue exactly when it is dispatched, running or done. */
  lemma RunQueueIsPhase(sys: System, memory: seq<Memory>, states: seq<State>, steps: seq<Step>, i: nat, e: nat)
    requires Sound(sys) && Execution(sys, memory, states, steps) && i <= |steps| && e < sys.g.size
    ensures Sized(sys, states[i])
    ensures states[i].elems[e].running.Some? <==> !BelowDispatched(states[i].elems[e])
    ensures states[i].live ==> states[i].elems[e].phase != Undefined
    ensures !states[i].live ==> states[i].elems[e].phase == Undefined
  {
    AlwaysInv(sys, memory, states, steps, i);
    assert Lifecycle(sys.g, e, states[i].elems[e], states[i].live, states[i].origin.base, states[i].serial);
  }

  /**
   * The scoreboard of a processor counts, for every serial of the session, the
   * distinct pins that announced it; its ready queue is strictly increasing.
   */
  lemma ScoreboardCounts(sys: System, memory: seq<Memory>, states: seq<State>, steps: seq<Step>, i: nat, e: nat, s: nat)
    requires Sound(sys) && Execution(sys, memory, states, steps) && i <= |steps| && states[i].live
    requires Sized(sys, states[i]) && e < sys.g.size && e !in sys.g.producers && s >= Complete(states[i].elems[e])
    ensures |Announced(sys, states[i], e, s)| == if s in states[i].elems[e].lookup then states[i].elems[e].lookup[s] else 0
    ensures |Announced(sys, states[i], e, s)| < |Ins(sys.g, e)|
    ensures forall k, l | 0 <= k < l < |states[i].elems[e].ready| :: states[i].elems[e].ready[k] < states[i].elems[e].ready[l]
  {
    var st := states[i];
    AlwaysInv(sys, memory, states, steps, i);
    assert Scored(sys, st, e);
    assert Lifecycle(sys.g, e, st.elems[e], st.live, st.origin.base, st.serial);
    var c :| c in Ins(sys.g, e) && Told(sys, st, c) == Complete(st.elems[e]);
    SubsetSize(Announced(sys, st, e, s), Ins(sys.g, e));
    assert c !in Announced(sys, st, e, s);
  }
}
