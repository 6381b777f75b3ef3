/** What happens in a session, counted over its steps rather than read off a state. */
module PipelineHistory {
  import opened PipelineGraph
  import opened PipelineSteps
  import opened PipelineInvariant
  import opened PipelineSafety
  import opened PipelineRuns

  /** An element begins a run; an item is put on or taken from a connection; a row of an element completes. */
  datatype Event = Beginning(e: nat) | Putting(c: nat) | Taking(c: nat) | Completing(e: nat)

  ghost predicate IsEvent(g: Graph, ev: Event) {
    match ev
    case Beginning(e) => e < g.size
    case Putting(c) => c < |g.conns|
    case Taking(c) => c < |g.conns|
    case Completing(e) => e < g.size && e !in g.producers
  }

  /** Whether a step is such an event: for a row that completes, one that lengthens the ready queue. */
  ghost predicate Occurs(sys: System, ev: Event, st: State, step: Step)
    requires WellFormed(sys.g) && Enabled(sys, st, step) && IsEvent(sys.g, ev)
  {
    match ev
    case Beginning(e) => step == Begin(e)
    case Putting(c) => step == Push(c)
    case Taking(c) => step == Take(c)
    case Completing(e) => step.Tell? && |AfterTell(sys, st, step, e).ready| > |st.elems[e].ready|
  }

  function LastOf(s: seq<nat>): nat requires s != [] { s[|s| - 1] }

  ghost function AfterTell(sys: System, st: State, step: Step, e: nat): Elem
    requires WellFormed(sys.g) && Enabled(sys, st, step) && step.Tell? && e < sys.g.size
  {
    TellConsumer(sys, st, step.e).elems[e]
  }

  /** The serial an event is about: of the run, of the item, or of the row. */
  ghost function SerialOf(sys: System, ev: Event, st: State, step: Step): Option<nat>
    requires WellFormed(sys.g) && Enabled(sys, st, step) && IsEvent(sys.g, ev) && Occurs(sys, ev, st, step)
  {
    match ev
    case Beginning(e) => st.elems[e].running
    case Putting(c) => Some(st.elems[sys.g.conns[c].src].serial)
    case Taking(c) => if st.queues[c] == [] then None else Some(st.queues[c][0].serial)
    case Completing(e) => Some(LastOf(AfterTell(sys, st, step, e).ready))
  }

  // ----- what a step adds to the counters of one element -----

  function Begun(el: Elem): nat { el.next + if el.phase == Running then 1 else 0 }

  ghost predicate Moved(g: Graph, step: Step, e: nat, el: Elem, after: Elem) {
    && Begun(after) == Begun(el) + (if step == Begin(e) then 1 else 0)
    && (forall c | c in Outs(g, e) :: PutBy(after, c) == PutBy(el, c) + if step == Push(c) then 1 else 0)
    && (forall c | c in Ins(g, e) :: GotBy(after, c) == GotBy(el, c) + if step == Take(c) then 1 else 0)
    && (e !in g.producers ==>
          Complete(after) == Complete(el) + if step.Tell? && |after.ready| > |el.ready| then 1 else 0)
  }

  lemma BeginMoves(sys: System, st: State, e: nat, f: nat)
    requires Sized(sys, st) && Enabled(sys, st, Begin(e)) && f < sys.g.size
    ensures Sized(sys, Next(sys, st, Begin(e))) && Moved(sys.g, Begin(e), f, st.elems[f], Next(sys, st, Begin(e)).elems[f])
  {
  }

  lemma TakeMoves(sys: System, st: State, c: nat, f: nat)
    requires Sized(sys, st) && Enabled(sys, st, Take(c)) && f < sys.g.size && st.queues[c] != []
    ensures Sized(sys, Next(sys, st, Take(c))) && Moved(sys.g, Take(c), f, st.elems[f], Next(sys, st, Take(c)).elems[f])
  {
  }

  lemma PushMoves(sys: System, st: State, c: nat, f: nat)
    requires Sized(sys, st) && Enabled(sys, st, Push(c)) && f < sys.g.size
    ensures Sized(sys, Next(sys, st, Push(c))) && Moved(sys.g, Push(c), f, st.elems[f], Next(sys, st, Push(c)).elems[f])
  {
  }

  lemma TellMoves(sys: System, st: State, e: nat, f: nat)
    requires Sized(sys, st) && Enabled(sys, st, Tell(e)) && f < sys.g.size
    ensures Sized(sys, Next(sys, st, Tell(e))) && Moved(sys.g, Tell(e), f, st.elems[f], Next(sys, st, Tell(e)).elems[f])
  {
    BoardMoves(sys.g, e, f, st.elems[f], Next(sys, st, Tell(e)).elems[f]);
  }

  /** Only the ready queue counts, and it gains one row at most. */
  lemma BoardMoves(g: Graph, e: nat, f: nat, el: Elem, after: Elem)
    requires after.next == el.next && after.phase == el.phase && after.pending == el.pending && after.outbox == el.outbox
    requires |el.ready| <= |after.ready| <= |el.ready| + 1
    ensures Moved(g, Tell(e), f, el, after)
  {
  }

  lemma FinishMoves(sys: System, st: State, e: nat, f: nat)
    requires Sized(sys, st) && Enabled(sys, st, Finish(e)) && f < sys.g.size
    ensures Sized(sys, Next(sys, st, Finish(e))) && Moved(sys.g, Finish(e), f, st.elems[f], Next(sys, st, Finish(e)).elems[f])
  {
  }

  lemma ScheduleMoves(sys: System, st: State, step: Step, f: nat)
    requires Sized(sys, st) && Enabled(sys, st, step) && f < sys.g.size
    requires BelowDispatched(st.elems[f]) <==> st.elems[f].running.None?
    requires step.Reap? || step.Dispatch? || step.RequestStop? || step.BeginScan? || step.Scan? || step.DispatchProducers?
    ensures Sized(sys, Next(sys, st, step)) && Moved(sys.g, step, f, st.elems[f], Next(sys, st, step).elems[f])
  {
  }

  lemma ElementMoves(sys: System, st: State, step: Step, e: nat)
    requires Inv(sys, st) && st.live && Enabled(sys, st, step) && step != FinishStop && e < sys.g.size
    ensures Sized(sys, Next(sys, st, step)) && Moved(sys.g, step, e, st.elems[e], Next(sys, st, step).elems[e])
  {
    assert Lifecycle(sys.g, e, st.elems[e], st.live, st.origin.base, st.serial);
    match step
    case Begin(f) => BeginMoves(sys, st, f, e);
    case Take(c) =>
      assert Lifecycle(sys.g, sys.g.conns[c].dst, st.elems[sys.g.conns[c].dst], st.live, st.origin.base, st.serial);
      Synchronised(sys, st, sys.g.conns[c].dst, c);
      TakeMoves(sys, st, c, e);
    case Push(c) => PushMoves(sys, st, c, e);
    case Tell(f) => TellMoves(sys, st, f, e);
    case Finish(f) => FinishMoves(sys, st, f, e);
    case _ => ScheduleMoves(sys, st, step, e);
  }

  // ----- one event -----

  /** The serial the next such event will be about. */
  function Clock(sys: System, ev: Event, st: State): nat
    requires Sized(sys, st) && WellFormed(sys.g) && IsEvent(sys.g, ev)
  {
    match ev
    case Beginning(e) => Begun(st.elems[e])
    case Putting(c) => Put(sys, st, c)
    case Taking(c) => Got(sys, st, c)
    case Completing(e) => Complete(st.elems[e])
  }

  lemma SessionGoesOn(sys: System, st: State, step: Step)
    requires Inv(sys, st) && st.live && Enabled(sys, st, step) && step != FinishStop
    ensures Sized(sys, Next(sys, st, step)) && Next(sys, st, step).live && Next(sys, st, step).origin == st.origin
  {
  }

  /** Each event moves its clock on by one, and nothing else does. */
  lemma ClockMoves(sys: System, st: State, step: Step, ev: Event)
    requires Inv(sys, st) && st.live && Enabled(sys, st, step) && step != FinishStop && IsEvent(sys.g, ev)
    ensures Sized(sys, Next(sys, st, step)) && Next(sys, st, step).live && Next(sys, st, step).origin == st.origin
    ensures Clock(sys, ev, Next(sys, st, step)) == Clock(sys, ev, st) + if Occurs(sys, ev, st, step) then 1 else 0
  {
    SessionGoesOn(sys, st, step);
    match ev
    case Beginning(e) => ElementMoves(sys, st, step, e);
    case Completing(e) => ElementMoves(sys, st, step, e);
    case Putting(c) =>
      assert c in Outs(sys.g, sys.g.conns[c].src);
      ElementMoves(sys, st, step, sys.g.conns[c].src);
    case Taking(c) =>
      assert c in Ins(sys.g, sys.g.conns[c].dst);
      ElementMoves(sys, st, step, sys.g.conns[c].dst);
  }

  lemma RunIsNext(sys: System, st: State, e: nat)
    requires Inv(sys, st) && st.live && Enabled(sys, st, Begin(e))
    ensures st.elems[e].running == Some(Begun(st.elems[e]))
  {
    DispatchedIsNext(sys, st, e);
  }

  lemma DispatchedIsNext(sys: System, st: State, e: nat)
    requires Sound(sys) && Sized(sys, st) && Elements(sys, st) && e < sys.g.size && st.elems[e].phase == Dispatched
    ensures st.elems[e].running == Some(Begun(st.elems[e]))
  {
    assert Lifecycle(sys.g, e, st.elems[e], st.live, st.origin.base, st.serial);
  }

  lemma PutIsNext(sys: System, st: State, c: nat)
    requires Inv(sys, st) && st.live && Enabled(sys, st, Push(c))
    ensures st.elems[sys.g.conns[c].src].serial == Put(sys, st, c)
  {
    var e := sys.g.conns[c].src;
    assert Lifecycle(sys.g, e, st.elems[e], st.live, st.origin.base, st.serial);
  }

  lemma TakeIsNext(sys: System, st: State, c: nat)
    requires Inv(sys, st) && st.live && Enabled(sys, st, Take(c))
    ensures st.queues[c] != [] && st.queues[c][0].serial == Got(sys, st, c)
  {
    var e := sys.g.conns[c].dst;
    assert Lifecycle(sys.g, e, st.elems[e], st.live, st.origin.base, st.serial);
    Synchronised(sys, st, e, c);
  }

  /** An event is about the serial its clock shows. */
  lemma EventIsOnTime(sys: System, st: State, step: Step, ev: Event)
    requires Inv(sys, st) && st.live && Enabled(sys, st, step) && step != FinishStop && IsEvent(sys.g, ev)
    requires Occurs(sys, ev, st, step)
    ensures SerialOf(sys, ev, st, step) == Some(Clock(sys, ev, st))
  {
    match ev
    case Beginning(e) => RunIsNext(sys, st, e);
    case Putting(c) => PutIsNext(sys, st, c);
    case Taking(c) => TakeIsNext(sys, st, c);
    case Completing(e) => RowIsNext(sys, st, step, e);
  }

  lemma RowIsNext(sys: System, st: State, step: Step, e: nat)
    requires Inv(sys, st) && st.live && Enabled(sys, st, step) && step.Tell? && e < sys.g.size && e !in sys.g.producers
    requires |AfterTell(sys, st, step, e).ready| > |st.elems[e].ready|
    ensures LastOf(AfterTell(sys, st, step, e).ready) == Complete(st.elems[e])
  {
    TellMoves(sys, st, step.e, e);
    RowIsLast(sys, st, step, e);
  }

  lemma RowIsLast(sys: System, st: State, step: Step, e: nat)
    requires Inv(sys, st) && st.live && Enabled(sys, st, step) && step.Tell? && e < sys.g.size && e !in sys.g.producers
    requires AfterTell(sys, st, step, e).ready != []
    ensures LastOf(AfterTell(sys, st, step, e).ready) + 1 == Complete(AfterTell(sys, st, step, e))
  {
    StepKeeps(sys, st, step);
    LastReady(sys, Next(sys, st, step), e);
  }

  lemma LastReady(sys: System, st: State, e: nat)
    requires Inv(sys, st) && st.live && e < sys.g.size && e !in sys.g.producers && st.elems[e].ready != []
    ensures LastOf(st.elems[e].ready) + 1 == Complete(st.elems[e])
  {
    assert Scored(sys, st, e);
  }

  // ----- a session -----

  /** From the start that precedes step b on, the pipeline is not stopped before step i. */
  ghost predicate Session(steps: seq<Step>, b: nat, i: nat) {
    && 0 < b <= i <= |steps| && steps[b - 1] == Start
    && forall k | b <= k < i :: steps[k] != FinishStop
  }

  /** The serials of all occurrences of an event between steps b and i, in order. */
  ghost function History(sys: System, ev: Event, states: seq<State>, steps: seq<Step>, b: nat, i: nat): seq<Option<nat>>
    requires WellFormed(sys.g) && IsEvent(sys.g, ev) && b <= i <= |steps| && |states| == |steps| + 1
    requires forall k | b <= k < i :: Enabled(sys, states[k], steps[k])
    decreases i
  {
    if i == b then []
    else
      History(sys, ev, states, steps, b, i - 1)
      + if Occurs(sys, ev, states[i - 1], steps[i - 1]) then [SerialOf(sys, ev, states[i - 1], steps[i - 1])] else []
  }

  /** Once started, every clock shows the first serial of the session. */
  lemma ClocksStart(sys: System, st: State, ev: Event)
    requires Inv(sys, st) && Enabled(sys, st, Start) && IsEvent(sys.g, ev)
    ensures var t := Next(sys, st, Start); Sized(sys, t) && t.live && t.origin.base == st.serial && Clock(sys, ev, t) == st.serial
  {
  }

  /**
   * Over any session the runs an element begins, the items put on a connection,
   * those taken from it, and the rows that complete at a processor each have the
   * serials base, base + 1, base + 2, ...: each once, in order and without a gap.
   */
  lemma EachSerialOnce(sys: System, memory: seq<Memory>, states: seq<State>, steps: seq<Step>, b: nat, i: nat, ev: Event)
    requires Sound(sys) && Execution(sys, memory, states, steps) && Session(steps, b, i) && IsEvent(sys.g, ev)
    ensures Sized(sys, states[i]) && states[i].live && states[i].origin == states[b].origin
    ensures Clock(sys, ev, states[i]) == states[b].origin.base + |History(sys, ev, states, steps, b, i)|
    ensures CountsFrom(History(sys, ev, states, steps, b, i), states[b].origin.base)
  {
    StaysLive(sys, memory, states, steps, b, i, ev);
    FirstClock(sys, memory, states, steps, b, ev);
    forall k: nat, l | b <= k < i && l == k + 1 ensures TicksAt(sys, ev, states[k], steps[k], states[l]) {
      StaysLive(sys, memory, states, steps, b, k, ev);
      NextClock(sys, memory, states, steps, k, ev);
    }
    CountTicks(sys, states, steps, b, i, ev);
  }

  lemma {:induction false} StaysLive(sys: System, memory: seq<Memory>, states: seq<State>, steps: seq<Step>, b: nat, i: nat, ev: Event)
    requires Sound(sys) && Execution(sys, memory, states, steps) && Session(steps, b, i) && IsEvent(sys.g, ev)
    ensures Sized(sys, states[i]) && states[i].live && states[i].origin == states[b].origin
    decreases i
  {
    if i == b {
      FirstClock(sys, memory, states, steps, b, ev);
    } else {
      StaysLive(sys, memory, states, steps, b, i - 1, ev);
      NextClock(sys, memory, states, steps, i - 1, ev);
    }
  }

  /** The step from st to t moves the clock exactly if the event occurs, which is then about the serial it showed. */
  ghost predicate TicksAt(sys: System, ev: Event, st: State, step: Step, t: State) {
    && WellFormed(sys.g) && IsEvent(sys.g, ev) && Enabled(sys, st, step) && Sized(sys, t)
    && Clock(sys, ev, t) == Clock(sys, ev, st) + (if Occurs(sys, ev, st, step) then 1 else 0)
    && (Occurs(sys, ev, st, step) ==> SerialOf(sys, ev, st, step) == Some(Clock(sys, ev, st)))
  }

  lemma {:induction false} CountTicks(sys: System, states: seq<State>, steps: seq<Step>, b: nat, i: nat, ev: Event)
    requires WellFormed(sys.g) && IsEvent(sys.g, ev) && b <= i <= |steps| && |states| == |steps| + 1 && Sized(sys, states[b])
    requires forall k: nat, l | b <= k < i && l == k + 1 :: TicksAt(sys, ev, states[k], steps[k], states[l])
    ensures Sized(sys, states[i]) && forall k | b <= k < i :: Enabled(sys, states[k], steps[k])
    ensures Clock(sys, ev, states[i]) == Clock(sys, ev, states[b]) + |History(sys, ev, states, steps, b, i)|
    ensures CountsFrom(History(sys, ev, states, steps, b, i), Clock(sys, ev, states[b]))
    decreases i
  {
    if i > b {
      var k, l := i - 1, i;
      assert TicksAt(sys, ev, states[k], steps[k], states[l]);
      CountTicks(sys, states, steps, b, k, ev);
      CountsOn(History(sys, ev, states, steps, b, k), Clock(sys, ev, states[b]));
    }
  }

  ghost predicate CountsFrom(h: seq<Option<nat>>, base: nat) {
    forall k: nat | k < |h| :: h[k] == Some(base + k)
  }

  lemma CountsOn(h: seq<Option<nat>>, base: nat)
    requires CountsFrom(h, base)
    ensures CountsFrom(h + [Some(base + |h|)], base) && h + [] == h
  {
  }

  lemma FirstClock(sys: System, memory: seq<Memory>, states: seq<State>, steps: seq<Step>, b: nat, ev: Event)
    requires Sound(sys) && Execution(sys, memory, states, steps) && 0 < b <= |steps| && steps[b - 1] == Start && IsEvent(sys.g, ev)
    ensures Sized(sys, states[b]) && states[b].live && Clock(sys, ev, states[b]) == states[b].origin.base
  {
    AlwaysInv(sys, memory, states, steps, b - 1);
    ClocksStart(sys, states[b - 1], ev);
  }

  lemma NextClock(sys: System, memory: seq<Memory>, states: seq<State>, steps: seq<Step>, k: nat, ev: Event)
    requires Sound(sys) && Execution(sys, memory, states, steps) && k < |steps| && IsEvent(sys.g, ev)
    requires states[k].live && steps[k] != FinishStop
    ensures Sized(sys, states[k]) && Sized(sys, states[k + 1]) && states[k + 1].live && states[k + 1].origin == states[k].origin
    ensures Clock(sys, ev, states[k + 1]) == Clock(sys, ev, states[k]) + if Occurs(sys, ev, states[k], steps[k]) then 1 else 0
    ensures Occurs(sys, ev, states[k], steps[k]) ==> SerialOf(sys, ev, states[k], steps[k]) == Some(Clock(sys, ev, states[k]))
  {
    AlwaysInv(sys, memory, states, steps, k);
    ClockMoves(sys, states[k], steps[k], ev);
    if Occurs(sys, ev, states[k], steps[k]) {
      EventIsOnTime(sys, states[k], steps[k], ev);
    }
  }

  /** Conservation: the items put on a connection in a session, less those taken, are those in its queue. */
  lemma PutsMinusTakes(sys: System, memory: seq<Memory>, states: seq<State>, steps: seq<Step>, b: nat, i: nat, c: nat)
    requires Sound(sys) && Execution(sys, memory, states, steps) && Session(steps, b, i) && c < |sys.g.conns|
    ensures Sized(sys, states[i])
    ensures |History(sys, Putting(c), states, steps, b, i)| - |History(sys, Taking(c), states, steps, b, i)| == |states[i].queues[c]|
  {
    EachSerialOnce(sys, memory, states, steps, b, i, Putting(c));
    EachSerialOnce(sys, memory, states, steps, b, i, Taking(c));
    QueuesAreConsecutive(sys, memory, states, steps, i, c);
  }
}
