/** How far an element can fall behind, how long a queue can get, and why a pipeline never gets stuck. */
module PipelineBounds {
  import opened PipelineGraph
  import opened PipelineSteps
  import opened PipelineInvariant
  import opened PipelineSafety
  import opened PipelineRuns

  // ----- queue bound -----

  /** A chain of connections from a producer. */
  ghost predicate IsPath(g: Graph, p: seq<nat>) {
    IsWalk(g, p) && g.conns[p[0]].src in g.producers
  }

  function Last(p: seq<nat>): nat requires |p| > 0 { p[|p| - 1] }

  /** An element d connections from a producer is never more than slope * d + 1 serials behind. */
  ghost predicate Behind(sys: System, st: State, p: seq<nat>, slope: nat)
    requires Sized(sys, st) && WellFormed(sys.g) && IsPath(sys.g, p)
  {
    st.serial <= st.elems[sys.g.conns[Last(p)].dst].next + slope * |p| + 1
  }

  /** What has been taken from a connection that the running scan has found short. */
  ghost predicate ScannedBehind(sys: System, st: State, p: seq<nat>)
    requires Sized(sys, st) && WellFormed(sys.g) && IsPath(sys.g, p)
  {
    st.scan.Some? && Last(p) in st.scan.value ==> st.serial <= Got(sys, st, Last(p)) + 6 * |p| - 1
  }

  ghost predicate Keeping(sys: System, st: State)
    requires Sized(sys, st) && WellFormed(sys.g)
  {
    st.live ==> forall p | IsPath(sys.g, p) :: Behind(sys, st, p, 6) && ScannedBehind(sys, st, p)
  }

  ghost predicate Advances(g: Graph, e: nat, el: Elem, after: Elem) {
    el.next <= after.next && forall c | c in Ins(g, e) :: GotBy(el, c) <= GotBy(after, c)
  }

  lemma BeginAdvances(sys: System, st: State, e: nat)
    requires Inv(sys, st) && Enabled(sys, st, Begin(e))
    ensures Advances(sys.g, e, st.elems[e], Next(sys, st, Begin(e)).elems[e])
  {
  }

  lemma TellAdvances(sys: System, st: State, e: nat, f: nat)
    requires Sized(sys, st) && Enabled(sys, st, Tell(e)) && f < sys.g.size
    ensures Sized(sys, Next(sys, st, Tell(e))) && Advances(sys.g, f, st.elems[f], Next(sys, st, Tell(e)).elems[f])
  {
  }

  lemma TakeAdvances(sys: System, st: State, c: nat, f: nat)
    requires Sized(sys, st) && Enabled(sys, st, Take(c)) && f < sys.g.size
    ensures Sized(sys, Next(sys, st, Take(c))) && Advances(sys.g, f, st.elems[f], Next(sys, st, Take(c)).elems[f])
  {
  }

  lemma PushAdvances(sys: System, st: State, c: nat, f: nat)
    requires Sized(sys, st) && Enabled(sys, st, Push(c)) && f < sys.g.size
    ensures Sized(sys, Next(sys, st, Push(c))) && Advances(sys.g, f, st.elems[f], Next(sys, st, Push(c)).elems[f])
  {
  }

  lemma FinishAdvances(sys: System, st: State, e: nat, f: nat)
    requires Sized(sys, st) && Enabled(sys, st, Finish(e)) && f < sys.g.size
    ensures Sized(sys, Next(sys, st, Finish(e))) && Advances(sys.g, f, st.elems[f], Next(sys, st, Finish(e)).elems[f])
  {
  }

  lemma ScheduleAdvances(sys: System, st: State, step: Step, f: nat)
    requires Sized(sys, st) && Enabled(sys, st, step) && f < sys.g.size
    requires st.elems[f].running.None? ==> st.elems[f].phase != Running
    requires step.Reap? || step.Dispatch? || step.RequestStop? || step.BeginScan? || step.Scan?
    ensures Sized(sys, Next(sys, st, step)) && Advances(sys.g, f, st.elems[f], Next(sys, st, step).elems[f])
  {
  }

  lemma ElementAdvances(sys: System, st: State, step: Step, e: nat)
    requires Inv(sys, st) && st.live && Enabled(sys, st, step) && step != DispatchProducers && step != FinishStop
    requires e < sys.g.size
    ensures Sized(sys, Next(sys, st, step)) && Advances(sys.g, e, st.elems[e], Next(sys, st, step).elems[e])
  {
    assert Lifecycle(sys.g, e, st.elems[e], st.live, st.origin.base, st.serial);
    match step
    case Begin(f) => BeginAdvances(sys, st, f);
    case Tell(f) => TellAdvances(sys, st, f, e);
    case Take(c) => TakeAdvances(sys, st, c, e);
    case Push(c) => PushAdvances(sys, st, c, e);
    case Finish(f) => FinishAdvances(sys, st, f, e);
    case _ => ScheduleAdvances(sys, st, step, e);
  }

  /** Every counter of t is as far on as in st. */
  ghost predicate Further(sys: System, st: State, t: State)
    requires Sized(sys, st) && WellFormed(sys.g)
  {
    && Sized(sys, t) && t.serial == st.serial && t.live == st.live
    && (forall e: nat | e < sys.g.size :: st.elems[e].next <= t.elems[e].next)
    && (forall c: nat | c < |sys.g.conns| :: Got(sys, st, c) <= Got(sys, t, c))
  }

  lemma AllAdvance(sys: System, st: State, t: State)
    requires Sized(sys, st) && Sized(sys, t) && WellFormed(sys.g) && t.serial == st.serial && t.live == st.live
    requires forall e: nat | e < sys.g.size :: Advances(sys.g, e, st.elems[e], t.elems[e])
    ensures Further(sys, st, t)
  {
    forall c: nat | c < |sys.g.conns| ensures Got(sys, st, c) <= Got(sys, t, c) {
      assert c in Ins(sys.g, sys.g.conns[c].dst);
    }
  }

  lemma SameScan(sys: System, st: State, step: Step)
    requires Inv(sys, st) && st.live && Enabled(sys, st, step) && step != DispatchProducers && step != FinishStop
    ensures Sized(sys, Next(sys, st, step)) && Next(sys, st, step).serial == st.serial && Next(sys, st, step).live
    ensures step.Scan? || step.BeginScan? || Next(sys, st, step).scan == st.scan
  {
  }

  /** Steps of a session other than a producer dispatch only move counters forward. */
  lemma Monotone(sys: System, st: State, step: Step)
    requires Inv(sys, st) && st.live && Enabled(sys, st, step) && step != DispatchProducers && step != FinishStop
    ensures Further(sys, st, Next(sys, st, step))
    ensures step.Scan? || step.BeginScan? || Next(sys, st, step).scan == st.scan
  {
    SameScan(sys, st, step);
    forall e: nat | e < sys.g.size ensures Advances(sys.g, e, st.elems[e], Next(sys, st, step).elems[e]) {
      ElementAdvances(sys, st, step, e);
    }
    AllAdvance(sys, st, Next(sys, st, step));
  }

  lemma ProducersUpToDate(sys: System, st: State, p: nat)
    requires Inv(sys, st) && st.live && p in sys.g.producers
    ensures st.serial <= st.elems[p].next + 1
    ensures BelowDispatched(st.elems[p]) ==> st.elems[p].next == st.serial
  {
    assert Lifecycle(sys.g, p, st.elems[p], st.live, st.origin.base, st.serial);
  }

  lemma PathPrefix(g: Graph, p: seq<nat>)
    requires IsPath(g, p) && |p| > 1
    ensures IsPath(g, p[..|p| - 1]) && g.conns[Last(p[..|p| - 1])].dst == g.conns[Last(p)].src
  {
  }

  lemma QueueGap(sys: System, st: State, c: nat)
    requires Inv(sys, st) && st.live && c < |sys.g.conns|
    ensures st.elems[sys.g.conns[c].src].next <= Put(sys, st, c) == Got(sys, st, c) + |st.queues[c]|
  {
    assert Flowing(sys, st, c);
  }

  lemma SourceIsBehind(sys: System, st: State, p: seq<nat>)
    requires Inv(sys, st) && Keeping(sys, st) && st.live && IsPath(sys.g, p)
    ensures st.serial <= st.elems[sys.g.conns[Last(p)].src].next + 6 * (|p| - 1) + 1
  {
    if |p| == 1 {
      ProducersUpToDate(sys, st, sys.g.conns[p[0]].src);
    } else {
      PathPrefix(sys.g, p);
      assert Behind(sys, st, p[..|p| - 1], 6);
    }
  }

  /** A connection just found short: its consumer has taken nearly all that its source has sent. */
  lemma ScanKeeps(sys: System, st: State, p: seq<nat>)
    requires Inv(sys, st) && Keeping(sys, st) && st.live && IsPath(sys.g, p) && |st.queues[Last(p)]| < 5
    ensures st.serial <= Got(sys, st, Last(p)) + 6 * |p| - 1
  {
    QueueGap(sys, st, Last(p));
    SourceIsBehind(sys, st, p);
  }

  lemma LaunchKeeps(sys: System, st: State, p: seq<nat>)
    requires Inv(sys, st) && Keeping(sys, st) && Enabled(sys, st, DispatchProducers) && IsPath(sys.g, p)
    ensures Sized(sys, Next(sys, st, DispatchProducers)) && Behind(sys, Next(sys, st, DispatchProducers), p, 6)
  {
    assert ScannedBehind(sys, st, p);
  }

  lemma StepKeepsKeeping(sys: System, st: State, step: Step)
    requires Inv(sys, st) && Keeping(sys, st) && Enabled(sys, st, step)
    ensures Sized(sys, Next(sys, st, step)) && Keeping(sys, Next(sys, st, step))
  {
    var t := Next(sys, st, step);
    if step == DispatchProducers {
      forall p | IsPath(sys.g, p) ensures Behind(sys, t, p, 6) { LaunchKeeps(sys, st, p); }
    } else if st.live && step != FinishStop {
      Monotone(sys, st, step);
      forall p | IsPath(sys.g, p) ensures Behind(sys, t, p, 6) && ScannedBehind(sys, t, p) {
        PathKeeps(sys, st, step, p);
      }
    }
  }

  lemma PathKeeps(sys: System, st: State, step: Step, p: seq<nat>)
    requires Inv(sys, st) && Keeping(sys, st) && st.live && Enabled(sys, st, step) && IsPath(sys.g, p)
    requires step != DispatchProducers && step != FinishStop
    ensures Sized(sys, Next(sys, st, step)) && Behind(sys, Next(sys, st, step), p, 6) && ScannedBehind(sys, Next(sys, st, step), p)
  {
    Monotone(sys, st, step);
    assert Behind(sys, st, p, 6) && ScannedBehind(sys, st, p);
    if step == Scan(Last(p)) { ScanKeeps(sys, st, p); }
    FurtherKeeps(sys, st, Next(sys, st, step), p);
  }

  lemma FurtherKeeps(sys: System, st: State, t: State, p: seq<nat>)
    requires Sized(sys, st) && WellFormed(sys.g) && Further(sys, st, t) && IsPath(sys.g, p) && Behind(sys, st, p, 6)
    requires t.scan.Some? && Last(p) in t.scan.value ==> st.serial <= Got(sys, st, Last(p)) + 6 * |p| - 1
    ensures Behind(sys, t, p, 6) && ScannedBehind(sys, t, p)
  {
  }

  lemma {:induction false} AlwaysKeeping(sys: System, memory: seq<Memory>, states: seq<State>, steps: seq<Step>, i: nat)
    requires Sound(sys) && Execution(sys, memory, states, steps) && i <= |steps|
    ensures Sized(sys, states[i]) && Keeping(sys, states[i])
  {
    AlwaysInv(sys, memory, states, steps, i);
    if i > 0 {
      AlwaysKeeping(sys, memory, states, steps, i - 1);
      AlwaysInv(sys, memory, states, steps, i - 1);
      StepKeepsKeeping(sys, states[i - 1], steps[i - 1]);
    }
  }

  /** A consumer that is not far behind cannot have much waiting on any of its inputs. */
  lemma BehindBoundsQueue(sys: System, st: State, p: seq<nat>, slope: nat, c: nat)
    requires Inv(sys, st) && IsPath(sys.g, p) && (st.live ==> Behind(sys, st, p, slope))
    requires c in Ins(sys.g, sys.g.conns[Last(p)].dst)
    ensures |st.queues[c]| <= slope * |p| + 1
  {
    assert Flowing(sys, st, c);
    if st.live {
      ToldWithinDispatched(sys, st, c);
    }
  }

  /**
   * Queue bound, for every interleaving: no connection into an element that a
   * chain of d connections leads to from a producer ever holds more than 6 * d + 1
   * items, although elements run and push while the scheduler reads the queue
   * sizes one by one. The shortest chain gives the best bound.
   */
  lemma QueueBound(sys: System, memory: seq<Memory>, states: seq<State>, steps: seq<Step>, i: nat, p: seq<nat>, c: nat)
    requires Sound(sys) && Execution(sys, memory, states, steps) && i <= |steps| && IsPath(sys.g, p)
    requires c in Ins(sys.g, sys.g.conns[Last(p)].dst)
    ensures c < |states[i].queues| && |states[i].queues[c]| <= 6 * |p| + 1
  {
    AlwaysInv(sys, memory, states, steps, i);
    AlwaysKeeping(sys, memory, states, steps, i);
    BehindBoundsQueue(sys, states[i], p, 6, c);
  }

  // ----- the sharper bound when runs and the scan are atomic -----

  /** When producers are dispatched, no element is in the middle of a run and every queue is short. */
  ghost predicate AtomicScan(sys: System, st: State)
    requires Sized(sys, st)
  {
    && (forall e: nat | e < sys.g.size :: st.elems[e].phase != Running)
    && (forall c: nat | c < |sys.g.conns| :: |st.queues[c]| < 5)
  }

  ghost predicate AtomicExecution(sys: System, memory: seq<Memory>, states: seq<State>, steps: seq<Step>) {
    && Execution(sys, memory, states, steps)
    && forall i | 0 <= i < |steps| && steps[i] == DispatchProducers :: Sized(sys, states[i]) && AtomicScan(sys, states[i])
  }

  lemma {:induction false} AtomicAtLaunch(sys: System, st: State, p: seq<nat>)
    requires Inv(sys, st) && Enabled(sys, st, DispatchProducers) && AtomicScan(sys, st) && IsPath(sys.g, p)
    ensures st.serial <= st.elems[sys.g.conns[Last(p)].dst].next + 4 * |p|
    decreases |p|
  {
    QueueGap(sys, st, Last(p));
    if |p| == 1 {
      ProducersUpToDate(sys, st, sys.g.conns[p[0]].src);
    } else {
      var q := p[..|p| - 1];
      PathPrefix(sys.g, p);
      AtomicAtLaunch(sys, st, q);
    }
  }

  lemma AtomicStep(sys: System, st: State, step: Step, p: seq<nat>)
    requires Inv(sys, st) && Enabled(sys, st, step) && IsPath(sys.g, p) && (st.live ==> Behind(sys, st, p, 4))
    requires step == DispatchProducers ==> AtomicScan(sys, st)
    ensures Sized(sys, Next(sys, st, step)) && (Next(sys, st, step).live ==> Behind(sys, Next(sys, st, step), p, 4))
  {
    if step == DispatchProducers {
      AtomicAtLaunch(sys, st, p);
    } else if st.live && step != FinishStop {
      Monotone(sys, st, step);
    }
  }

  lemma {:induction false} AtomicBehind(sys: System, memory: seq<Memory>, states: seq<State>, steps: seq<Step>, i: nat, p: seq<nat>)
    requires Sound(sys) && AtomicExecution(sys, memory, states, steps) && i <= |steps| && IsPath(sys.g, p)
    ensures Sized(sys, states[i]) && (states[i].live ==> Behind(sys, states[i], p, 4))
  {
    if i > 0 {
      AtomicBehind(sys, memory, states, steps, i - 1, p);
      AlwaysInv(sys, memory, states, steps, i - 1);
      AtomicStep(sys, states[i - 1], steps[i - 1], p);
    }
  }

  /** With atomic runs and an atomic scan the bound is 4 * d + 1. */
  lemma AtomicQueueBound(sys: System, memory: seq<Memory>, states: seq<State>, steps: seq<Step>, i: nat, p: seq<nat>, c: nat)
    requires Sound(sys) && AtomicExecution(sys, memory, states, steps) && i <= |steps| && IsPath(sys.g, p)
    requires c in Ins(sys.g, sys.g.conns[Last(p)].dst)
    ensures c < |states[i].queues| && |states[i].queues[c]| <= 4 * |p| + 1
  {
    AlwaysInv(sys, memory, states, steps, i);
    AtomicBehind(sys, memory, states, steps, i, p);
    BehindBoundsQueue(sys, states[i], p, 4, c);
  }

  // ----- draining and progress -----

  /** Nothing is running and no run is ready. */
  ghost predicate Idle(sys: System, st: State)
    requires Sized(sys, st)
  {
    forall e: nat | e < sys.g.size :: st.elems[e].running.None? && st.elems[e].ready == []
  }

  lemma {:induction false} IdleIsUpToDate(sys: System, st: State, e: nat)
    requires Inv(sys, st) && st.live && Idle(sys, st) && e < sys.g.size
    ensures st.elems[e].next == st.serial && BelowDispatched(st.elems[e])
    decreases sys.rank[e]
  {
    assert Lifecycle(sys.g, e, st.elems[e], st.live, st.origin.base, st.serial);
    if e !in sys.g.producers {
      assert Scored(sys, st, e);
      var c :| c in Ins(sys.g, e) && Told(sys, st, c) == Complete(st.elems[e]);
      IdleIsUpToDate(sys, st, sys.g.conns[c].src);
    }
  }

  /** An idle pipeline has handled every serial handed out, and all its queues are empty. */
  lemma IdleIsDrained(sys: System, st: State)
    requires Inv(sys, st) && st.live && Idle(sys, st)
    ensures forall e: nat | e < sys.g.size :: st.elems[e].next == st.serial
    ensures forall c: nat | c < |sys.g.conns| :: st.queues[c] == []
  {
    forall e: nat | e < sys.g.size ensures st.elems[e].next == st.serial && BelowDispatched(st.elems[e]) {
      IdleIsUpToDate(sys, st, e);
    }
    forall c: nat | c < |sys.g.conns| ensures st.queues[c] == [] {
      assert Flowing(sys, st, c);
    }
  }

  /** So a full scan of an idle pipeline can always be followed by a producer dispatch. */
  lemma IdleCanLaunch(sys: System, st: State)
    requires Inv(sys, st) && st.live && !st.stopping && Idle(sys, st)
    ensures forall c: nat | c < |sys.g.conns| :: |st.queues[c]| < 5
    ensures AllScanned(sys, st) ==> Enabled(sys, st, DispatchProducers)
  {
    IdleIsDrained(sys, st);
    forall p | p in sys.g.producers ensures BelowDispatched(st.elems[p]) {
      IdleIsUpToDate(sys, st, p);
    }
  }

  /** A step that runs or reaps an element, or dispatches a processor. */
  predicate Working(step: Step) {
    step.Reap? || step.Dispatch? || step.Begin? || step.Take? || step.Push? || step.Tell? || step.Finish?
  }

  /** No deadlock: unless the pipeline is idle, some element can take a step. */
  lemma NoDeadlock(sys: System, st: State) returns (step: Step)
    requires Inv(sys, st) && st.live && !st.stopping && !Idle(sys, st)
    ensures Working(step) && Enabled(sys, st, step)
  {
    if e: nat :| e < sys.g.size && st.elems[e].running.Some? {
      step := RunningCanStep(sys, st, e);
    } else {
      var e: nat :| e < sys.g.size && st.elems[e].ready != [];
      step := Dispatch(e);
    }
  }

  /** Also while stopping: a dispatched run can always be carried to its end. */
  lemma RunningCanStep(sys: System, st: State, e: nat) returns (step: Step)
    requires Inv(sys, st) && st.live && e < sys.g.size && st.elems[e].running.Some?
    ensures Working(step) && Enabled(sys, st, step)
  {
    var el := st.elems[e];
    assert Lifecycle(sys.g, e, el, st.live, st.origin.base, st.serial);
    if el.phase == Dispatched {
      step := Begin(e);
    } else if el.phase == Done {
      step := Reap(e);
    } else if el.telling.Some? {
      step := Tell(e);
    } else if el.pending != {} {
      var c :| c in el.pending;
      step := Take(c);
    } else if el.outbox != {} {
      var c :| c in el.outbox;
      step := Push(c);
    } else {
      step := Finish(e);
    }
  }

  /** Steps in one run of an element, from dispatch to reap. */
  function RunSteps(g: Graph, e: nat): nat { |Ins(g, e)| + 2 * |Outs(g, e)| + 4 }

  function LeftInRun(g: Graph, e: nat, el: Elem): nat {
    match el.phase
    case Dispatched => RunSteps(g, e) - 1
    case Running => |el.pending| + 2 * |el.outbox| + (if el.telling.Some? then 1 else 0) + 2
    case Done => 1
    case _ => 0
  }

  /** Steps an element has to take for the serials handed out so far. */
  function WorkOf(g: Graph, serial: nat, e: nat, el: Elem): int {
    (serial - Dispatching(el)) * RunSteps(g, e) + LeftInRun(g, e, el)
  }

  ghost function Work(sys: System, st: State, n: nat): int
    requires Sized(sys, st) && n <= sys.g.size
  {
    if n == 0 then 0 else Work(sys, st, n - 1) + WorkOf(sys.g, st.serial, n - 1, st.elems[n - 1])
  }

  lemma {:induction false} WorkFalls(sys: System, st: State, t: State, e: nat, n: nat)
    requires Sized(sys, st) && Sized(sys, t) && n <= sys.g.size && t.serial == st.serial
    requires forall f: nat | f < n && f != e ::
               WorkOf(sys.g, t.serial, f, t.elems[f]) == WorkOf(sys.g, st.serial, f, st.elems[f])
    requires e < n ==> WorkOf(sys.g, t.serial, e, t.elems[e]) == WorkOf(sys.g, st.serial, e, st.elems[e]) - 1
    ensures Work(sys, t, n) == Work(sys, st, n) - if e < n then 1 else 0
  {
    if n > 0 { WorkFalls(sys, st, t, e, n - 1); }
  }

  /** The element whose run a working step advances. */
  function Worker(sys: System, step: Step): nat
    requires Working(step)
    requires step.Take? ==> step.c < |sys.g.conns|
    requires step.Push? ==> step.c < |sys.g.conns|
  {
    match step
    case Reap(e) => e
    case Dispatch(e) => e
    case Begin(e) => e
    case Take(c) => sys.g.conns[c].dst
    case Push(c) => sys.g.conns[c].src
    case Tell(e) => e
    case Finish(e) => e
  }

  lemma ReapWorks(g: Graph, serial: nat, e: nat, el: Elem)
    requires el.phase == Done
    ensures WorkOf(g, serial, e, ReapElem(el)) == WorkOf(g, serial, e, el) - 1
  {
  }

  lemma DispatchWorks(g: Graph, serial: nat, e: nat, el: Elem, after: Elem)
    requires el.phase == Started && after.phase == Dispatched && after.next == el.next
    ensures WorkOf(g, serial, e, after) == WorkOf(g, serial, e, el) - 1
  {
    assert (serial - el.next - 1) * RunSteps(g, e) == (serial - el.next) * RunSteps(g, e) - RunSteps(g, e);
  }

  lemma BeginWorks(g: Graph, serial: nat, e: nat, el: Elem, after: Elem)
    requires el.phase == Dispatched && after.phase == Running && after.next == el.next && after.telling.None?
    requires after.pending == Ins(g, e) && after.outbox == Outs(g, e)
    ensures WorkOf(g, serial, e, after) == WorkOf(g, serial, e, el) - 1
  {
  }

  lemma FinishWorks(g: Graph, serial: nat, e: nat, el: Elem)
    requires el.phase == Running && el.pending == {} && el.outbox == {} && el.telling.None?
    ensures WorkOf(g, serial, e, el.(phase := Done, next := el.next + 1)) == WorkOf(g, serial, e, el) - 1
  {
  }

  lemma TakeWorks(g: Graph, serial: nat, e: nat, el: Elem, c: nat)
    requires el.phase == Running && c in el.pending
    ensures WorkOf(g, serial, e, el.(pending := el.pending - {c})) == WorkOf(g, serial, e, el) - 1
  {
  }

  lemma PushWorks(g: Graph, serial: nat, e: nat, el: Elem, c: nat)
    requires el.phase == Running && c in el.outbox && el.telling.None?
    ensures WorkOf(g, serial, e, el.(outbox := el.outbox - {c}, telling := Some(c))) == WorkOf(g, serial, e, el) - 1
  {
  }

  lemma TellWorks(g: Graph, serial: nat, e: nat, el: Elem)
    requires el.phase == Running && el.telling.Some?
    ensures WorkOf(g, serial, e, el.(telling := None)) == WorkOf(g, serial, e, el) - 1
  {
  }

  lemma WorkerTakes(sys: System, st: State, c: nat)
    requires Inv(sys, st) && st.live && Enabled(sys, st, Take(c))
    ensures var e := sys.g.conns[c].dst;
            Sized(sys, Next(sys, st, Take(c))) && Next(sys, st, Take(c)).elems[e] == st.elems[e].(pending := st.elems[e].pending - {c})
  {
    Synchronised(sys, st, sys.g.conns[c].dst, c);
  }

  lemma WorkerWorks(sys: System, st: State, step: Step)
    requires Inv(sys, st) && st.live && Enabled(sys, st, step) && Working(step)
    ensures Worker(sys, step) < sys.g.size && Sized(sys, Next(sys, st, step))
    ensures var e := Worker(sys, step);
            WorkOf(sys.g, st.serial, e, Next(sys, st, step).elems[e]) == WorkOf(sys.g, st.serial, e, st.elems[e]) - 1
  {
    match step
    case Take(c) =>
      WorkerTakes(sys, st, c);
      TakeWorks(sys.g, st.serial, sys.g.conns[c].dst, st.elems[sys.g.conns[c].dst], c);
    case Push(c) =>
      PushWorks(sys.g, st.serial, sys.g.conns[c].src, st.elems[sys.g.conns[c].src], c);
    case _ =>
      OwnStepWorks(sys, st, step);
  }

  lemma OwnStepWorks(sys: System, st: State, step: Step)
    requires Sound(sys) && Sized(sys, st) && Elements(sys, st) && st.live && Enabled(sys, st, step) && Working(step)
    requires !step.Take? && !step.Push?
    ensures Worker(sys, step) < sys.g.size && Sized(sys, Next(sys, st, step))
    ensures var e := Worker(sys, step);
            WorkOf(sys.g, st.serial, e, Next(sys, st, step).elems[e]) == WorkOf(sys.g, st.serial, e, st.elems[e]) - 1
  {
    var e := Worker(sys, step);
    var el := st.elems[e];
    assert Lifecycle(sys.g, e, el, st.live, st.origin.base, st.serial);
    match step
    case Reap(_) => ReapWorks(sys.g, st.serial, e, el);
    case Dispatch(_) => DispatchWorks(sys.g, st.serial, e, el, Next(sys, st, step).elems[e]);
    case Begin(_) => BeginWorks(sys.g, st.serial, e, el, Next(sys, st, step).elems[e]);
    case Tell(_) => TellWorks(sys.g, st.serial, e, el);
    case Finish(_) => FinishWorks(sys.g, st.serial, e, el);
  }

  lemma OthersRest(sys: System, st: State, step: Step, f: nat)
    requires Sized(sys, st) && Enabled(sys, st, step) && Working(step) && f < sys.g.size && f != Worker(sys, step)
    ensures Sized(sys, Next(sys, st, step)) && Next(sys, st, step).serial == st.serial
    ensures WorkOf(sys.g, st.serial, f, Next(sys, st, step).elems[f]) == WorkOf(sys.g, st.serial, f, st.elems[f])
  {
  }

  /** Every working step brings the pipeline exactly one step nearer to idle. */
  lemma StepWorks(sys: System, st: State, step: Step)
    requires Inv(sys, st) && st.live && Enabled(sys, st, step) && Working(step)
    ensures Sized(sys, Next(sys, st, step))
    ensures Work(sys, Next(sys, st, step), sys.g.size) == Work(sys, st, sys.g.size) - 1
  {
    var t := Next(sys, st, step);
    WorkerWorks(sys, st, step);
    forall f: nat | f < sys.g.size && f != Worker(sys, step)
      ensures t.serial == st.serial && WorkOf(sys.g, t.serial, f, t.elems[f]) == WorkOf(sys.g, st.serial, f, st.elems[f])
    {
      OthersRest(sys, st, step, f);
    }
    WorkFalls(sys, st, t, Worker(sys, step), sys.g.size);
  }

  lemma ElementWork(g: Graph, e: nat, el: Elem, base: nat, serial: nat)
    requires Lifecycle(g, e, el, true, base, serial)
    ensures WorkOf(g, serial, e, el) >= 0
    ensures WorkOf(g, serial, e, el) == 0 <==> el.running.None? && Dispatching(el) == serial
  {
    AtLeastOnce(serial - Dispatching(el), RunSteps(g, e));
  }

  lemma AtLeastOnce(k: nat, n: nat)
    ensures k * n >= 0 && (k > 0 ==> k * n >= n)
  {
  }

  lemma {:induction false} NoWork(sys: System, st: State, n: nat)
    requires Sized(sys, st) && n <= sys.g.size
    requires forall e: nat | e < n :: WorkOf(sys.g, st.serial, e, st.elems[e]) >= 0
    ensures Work(sys, st, n) >= 0
    ensures Work(sys, st, n) == 0 <==> forall e: nat | e < n :: WorkOf(sys.g, st.serial, e, st.elems[e]) == 0
  {
    if n > 0 {
      NoWork(sys, st, n - 1);
    }
  }

  /** No work is left exactly when the pipeline is idle. */
  lemma WorkIsZeroWhenIdle(sys: System, st: State)
    requires Inv(sys, st) && st.live
    ensures Work(sys, st, sys.g.size) >= 0
    ensures Work(sys, st, sys.g.size) == 0 <==> Idle(sys, st)
  {
    forall e: nat | e < sys.g.size
      ensures WorkOf(sys.g, st.serial, e, st.elems[e]) >= 0
      ensures Idle(sys, st) ==> WorkOf(sys.g, st.serial, e, st.elems[e]) == 0
      ensures WorkOf(sys.g, st.serial, e, st.elems[e]) == 0 ==> st.elems[e].running.None? && st.elems[e].ready == []
    {
      IdleElement(sys, st, e);
    }
    NoWork(sys, st, sys.g.size);
  }

  lemma IdleElement(sys: System, st: State, e: nat)
    requires Inv(sys, st) && st.live && e < sys.g.size
    ensures WorkOf(sys.g, st.serial, e, st.elems[e]) >= 0
    ensures Idle(sys, st) ==> WorkOf(sys.g, st.serial, e, st.elems[e]) == 0
    ensures WorkOf(sys.g, st.serial, e, st.elems[e]) == 0 ==> st.elems[e].running.None? && st.elems[e].ready == []
  {
    ElementIsInOrder(sys, st, e);
    ElementWork(sys.g, e, st.elems[e], st.origin.base, st.serial);
    if Idle(sys, st) { IdleIsUpToDate(sys, st, e); }
    if st.elems[e].ready != [] { ReadyIsNext(sys, st, e); }
  }

  ghost predicate WorkingRun(sys: System, states: seq<State>, steps: seq<Step>) {
    && |states| == |steps| + 1
    && forall i | 0 <= i < |steps| ::
         Working(steps[i]) && Enabled(sys, states[i], steps[i]) && states[i + 1] == Next(sys, states[i], steps[i])
  }

  /**
   * Draining: between producer dispatches, n working steps leave n units of work
   * less. So no run of them is longer than the work at its start, and one is
   * complete exactly when the pipeline is idle.
   */
  lemma {:induction false} Draining(sys: System, states: seq<State>, steps: seq<Step>)
    requires WorkingRun(sys, states, steps) && Inv(sys, states[0]) && states[0].live
    ensures Inv(sys, states[|steps|]) && states[|steps|].live
    ensures |steps| == Work(sys, states[0], sys.g.size) - Work(sys, states[|steps|], sys.g.size)
    ensures |steps| <= Work(sys, states[0], sys.g.size)
    ensures |steps| == Work(sys, states[0], sys.g.size) <==> Idle(sys, states[|steps|])
    decreases |steps|
  {
    if |steps| == 0 {
      WorkIsZeroWhenIdle(sys, states[0]);
    } else {
      var n := |steps| - 1;
      assert WorkingRun(sys, states[..n + 1], steps[..n]);
      Draining(sys, states[..n + 1], steps[..n]);
      StepWorks(sys, states[n], steps[n]);
      StepKeeps(sys, states[n], steps[n]);
      WorkIsZeroWhenIdle(sys, states[n + 1]);
    }
  }
}
