/** What one tick of the scheduler does to an element, and why it is a sequence of steps. */
module SchedulerShapes {
  import opened FiniteSets
  import opened PipelineGraph
  import opened PipelineSteps
  import opened PipelineInvariant
  import opened PipelineBounds
  import opened PipelineRuns
  import opened PipelineReach

  /** A finished run is taken off the run queue. */
  function Reaped(el: Elem): Elem { if el.running.Some? && el.phase == Done then ReapElem(el) else el }

  /** The oldest complete row is dispatched unless a run of the element is under way. */
  function NextDispatched(el: Elem): Elem {
    if el.ready != [] && el.running.None? then DispatchElem(el, el.ready[0]).(ready := el.ready[1..]) else el
  }

  /** No run of the element is under way: it has none in the run queue, or one that has ended. */
  predicate Free(el: Elem) { el.running.None? || el.phase == Done }

  /**
   * What a tick makes of an element. A run under way is left alone; else the
   * oldest complete row is run next, and without one the element waits for its
   * next row, or produces under the serial of the launch.
   */
  ghost predicate Ticked(was: Elem, el: Elem, launch: Option<nat>) {
    && (!Free(was) ==> el == was)
    && (Free(was) && was.ready != [] ==>
          el == was.(phase := Dispatched, running := Some(was.ready[0]), ready := was.ready[1..]))
    && (Free(was) && was.ready == [] ==>
          el == was.(phase := if launch.Some? then Dispatched else Started, running := launch))
  }

  ghost predicate TickedAll(sys: System, st: State, t: State, launched: bool)
    requires Sized(sys, st) && Sized(sys, t)
  {
    && t.serial == st.serial + (if launched then 1 else 0)
    && forall e: nat | e < sys.g.size ::
         Ticked(st.elems[e], t.elems[e], if launched && e in sys.g.producers then Some(st.serial) else None)
  }

  lemma ReapReaches(sys: System, st: State, e: nat)
    requires WellFormed(sys.g) && Sized(sys, st) && st.live && e < sys.g.size
    ensures Reaches(sys, st, st.(elems := st.elems[e := Reaped(st.elems[e])]))
  {
    ReachesSelf(sys, st);
    if Reaped(st.elems[e]) != st.elems[e] {
      ReachesOn(sys, st, st, Reap(e));
    } else {
      assert st == st.(elems := st.elems[e := st.elems[e]]);
    }
  }

  lemma DispatchReaches(sys: System, st: State, e: nat)
    requires WellFormed(sys.g) && Sized(sys, st) && st.live && !st.stopping && e < sys.g.size
    requires st.elems[e].running.None? ==> st.elems[e].phase == Started
    ensures Reaches(sys, st, st.(elems := st.elems[e := NextDispatched(st.elems[e])]))
  {
    ReachesSelf(sys, st);
    if st.elems[e].ready != [] && st.elems[e].running.None? {
      ReachesOn(sys, st, st, Dispatch(e));
    } else {
      assert st == st.(elems := st.elems[e := st.elems[e]]);
    }
  }

  /** Producers run when they all can and no connection holds five items. */
  ghost predicate CanLaunch(sys: System, st: State, willing: set<nat>)
    requires Sized(sys, st) && WellFormed(sys.g)
  {
    && (forall c: nat | c < |sys.g.conns| :: |st.queues[c]| < 5)
    && forall p | p in sys.g.producers :: BelowDispatched(st.elems[p]) && p in willing
  }

  lemma {:induction false} ScanReaches(sys: System, st: State, n: nat)
    requires WellFormed(sys.g) && Sized(sys, st) && st.live && !st.stopping && n <= |sys.g.conns|
    requires forall c: nat | c < |sys.g.conns| :: |st.queues[c]| < 5
    ensures Reaches(sys, st, st.(scan := Some(Below(n))))
  {
    if n == 0 {
      ReachesSelf(sys, st);
      ReachesOn(sys, st, st, BeginScan);
    } else {
      ScanReaches(sys, st, n - 1);
      ReachesOn(sys, st, st.(scan := Some(Below(n - 1))), Scan(n - 1));
    }
  }

  lemma LaunchReaches(sys: System, st: State)
    requires WellFormed(sys.g) && Sized(sys, st) && st.live && !st.stopping
    requires forall c: nat | c < |sys.g.conns| :: |st.queues[c]| < 5
    requires forall p | p in sys.g.producers :: BelowDispatched(st.elems[p])
    ensures Reaches(sys, st, LaunchProducers(sys, st))
  {
    var n := |sys.g.conns|;
    ScanReaches(sys, st, n);
    var scanned := st.(scan := Some(Below(n)));
    ReachesOn(sys, st, scanned, DispatchProducers);
    assert LaunchProducers(sys, scanned) == LaunchProducers(sys, st);
  }

  lemma PhaseFacts(sys: System, st: State)
    requires Inv(sys, st) && st.live
    ensures forall e: nat | e < sys.g.size :: st.elems[e].running.None? ==> st.elems[e].phase == Started
    ensures forall e: nat | e < sys.g.size :: st.elems[e].phase != Undefined && st.elems[e].phase != Initialized
    ensures forall e: nat | e < sys.g.size :: BelowDispatched(st.elems[e]) ==> st.elems[e].phase == Started
    ensures forall e: nat | e < sys.g.size :: st.elems[e].phase != Undefined
  {
    forall e: nat | e < sys.g.size
      ensures st.elems[e].running.None? ==> st.elems[e].phase == Started
      ensures st.elems[e].phase != Undefined && st.elems[e].phase != Initialized
    {
      assert Lifecycle(sys.g, e, st.elems[e], st.live, st.origin.base, st.serial);
    }
  }

  lemma StartReaches(sys: System, st: State)
    requires Inv(sys, st) && !st.live
    ensures Inv(sys, StartAll(sys, st)) && forall e: nat | e < sys.g.size :: st.elems[e].phase == Undefined
  {
    StepKeeps(sys, st, Start);
    forall e: nat | e < sys.g.size ensures st.elems[e].phase == Undefined {
      assert Lifecycle(sys.g, e, st.elems[e], st.live, st.origin.base, st.serial);
    }
  }

  function RequestedStop(sys: System, st: State): State { st.(stopping := true) }

  /** Once reaped, a stopping pipeline whose runs had all ended can finish. */
  lemma StopReaches(sys: System, st: State, reaped: State)
    requires Inv(sys, st) && st.live
    requires Reaches(sys, RequestedStop(sys, st), reaped) && reaped.live && reaped.stopping && Sized(sys, reaped)
    requires forall e: nat | e < sys.g.size :: reaped.elems[e].running.None?
    ensures Reaches(sys, st, StopAll(reaped)) && Inv(sys, StopAll(reaped))
    ensures forall e: nat | e < sys.g.size :: reaped.elems[e].phase == Started
  {
    ReachesSelf(sys, st);
    if !st.stopping { ReachesOn(sys, st, st, RequestStop); }
    ReachesBoth(sys, st, RequestedStop(sys, st), reaped);
    ReachesOn(sys, st, reaped, FinishStop);
    ReachesKeeps(sys, st, reaped);
    ReachesKeeps(sys, st, StopAll(reaped));
    PhaseFacts(sys, reaped);
  }

  /** No stall: a tick of an idle pipeline, when every producer has something to produce, launches them all. */
  lemma IdleTickLaunches(sys: System, st: State, willing: set<nat>)
    requires Inv(sys, st) && st.live && !st.stopping && Idle(sys, st) && sys.g.producers <= willing
    ensures forall e: nat | e < sys.g.size :: NextDispatched(Reaped(st.elems[e])) == st.elems[e]
    ensures CanLaunch(sys, st, willing)
  {
    IdleCanLaunch(sys, st);
    forall p | p in sys.g.producers ensures BelowDispatched(st.elems[p]) {
      IdleIsUpToDate(sys, st, p);
    }
  }

  /** When no element is in the middle of its run and none is dispatched, what is in the run queue is done. */
  lemma UnderWayIsDone(sys: System, st: State)
    requires Inv(sys, st) && st.live
    requires forall e: nat | e < sys.g.size :: st.elems[e].phase != Running && st.elems[e].phase != Dispatched
    ensures forall e: nat | e < sys.g.size :: st.elems[e].running.Some? ==> st.elems[e].phase == Done
  {
    forall e: nat | e < sys.g.size ensures st.elems[e].running.Some? ==> st.elems[e].phase == Done {
      assert Lifecycle(sys.g, e, st.elems[e], st.live, st.origin.base, st.serial);
    }
  }

  // ----- what a tick achieves -----

  /** What a tick does for an element: it reaps a run that has ended and dispatches the next row. */
  ghost function MovesOf(el: Elem): nat {
    (if el.phase == Done then 1 else 0) + (if Free(el) && el.ready != [] then 1 else 0)
  }

  ghost function Moves(st: State, n: nat): nat
    requires n <= |st.elems|
  {
    if n == 0 then 0 else Moves(st, n - 1) + MovesOf(st.elems[n - 1])
  }

  /** What a launch gives an element to do: one run, of which a producer has been dispatched. */
  ghost function LaunchWorkOf(g: Graph, e: nat): nat { RunSteps(g, e) - if e in g.producers then 1 else 0 }

  ghost function LaunchWork(g: Graph, n: nat): nat {
    if n == 0 then 0 else LaunchWork(g, n - 1) + LaunchWorkOf(g, n - 1)
  }

  lemma TickWorksOf(g: Graph, e: nat, was: Elem, el: Elem, base: nat, serial: nat, launched: bool)
    requires Lifecycle(g, e, was, true, base, serial)
    requires Ticked(was, el, if launched && e in g.producers then Some(serial) else None)
    requires launched && e in g.producers ==> Free(was) && was.ready == []
    ensures WorkOf(g, serial + (if launched then 1 else 0), e, el)
         == WorkOf(g, serial, e, was) - MovesOf(was) + if launched then LaunchWorkOf(g, e) else 0
  {
    var k, n := serial - Dispatching(was), RunSteps(g, e);
    assert (k + 1) * n == k * n + n;
    assert (k - 1) * n == k * n - n;
  }

  /** The life cycle that the invariant promises of every element of a pipeline in session. */
  ghost predicate InSession(sys: System, st: State)
    requires Sized(sys, st)
  {
    forall e: nat | e < sys.g.size :: Lifecycle(sys.g, e, st.elems[e], true, st.origin.base, st.serial)
  }

  lemma LiveIsInSession(sys: System, st: State)
    requires Inv(sys, st) && st.live
    ensures InSession(sys, st)
  {
    forall e: nat | e < sys.g.size ensures Lifecycle(sys.g, e, st.elems[e], true, st.origin.base, st.serial) {
      assert Lifecycle(sys.g, e, st.elems[e], st.live, st.origin.base, st.serial);
    }
  }

  /** What a tick makes of the work of one element. */
  ghost predicate WorksOf(sys: System, st: State, t: State, launched: bool, e: nat)
    requires Sized(sys, st) && Sized(sys, t) && e < sys.g.size
  {
    WorkOf(sys.g, t.serial, e, t.elems[e])
      == WorkOf(sys.g, st.serial, e, st.elems[e]) - MovesOf(st.elems[e]) + if launched then LaunchWorkOf(sys.g, e) else 0
  }

  lemma {:induction false} WorksAddUp(sys: System, st: State, t: State, launched: bool, n: nat)
    requires Sized(sys, st) && Sized(sys, t) && n <= sys.g.size
    requires forall e: nat | e < n :: WorksOf(sys, st, t, launched, e)
    ensures Work(sys, t, n) == Work(sys, st, n) - Moves(st, n) + if launched then LaunchWork(sys.g, n) else 0
  {
    if n > 0 {
      WorksAddUp(sys, st, t, launched, n - 1);
      assert WorksOf(sys, st, t, launched, n - 1);
    }
  }

  /**
   * The account of a tick: each run reaped and each row dispatched is one unit of
   * work less, and a launch adds exactly one run of every element.
   */
  lemma TickWorks(sys: System, st: State, t: State, launched: bool)
    requires Sized(sys, st) && InSession(sys, st) && Sized(sys, t) && TickedAll(sys, st, t, launched)
    requires launched ==> forall p | p in sys.g.producers :: p < sys.g.size && Free(st.elems[p]) && st.elems[p].ready == []
    ensures Work(sys, t, sys.g.size)
         == Work(sys, st, sys.g.size) - Moves(st, sys.g.size) + if launched then LaunchWork(sys.g, sys.g.size) else 0
  {
    forall e: nat | e < sys.g.size ensures WorksOf(sys, st, t, launched, e) {
      TickWorksOf(sys.g, e, st.elems[e], t.elems[e], st.origin.base, st.serial, launched);
    }
    WorksAddUp(sys, st, t, launched, sys.g.size);
  }

  lemma {:induction false} SomeMove(st: State, n: nat, e: nat)
    requires e < n <= |st.elems|
    ensures Moves(st, n) >= MovesOf(st.elems[e])
  {
    if e < n - 1 { SomeMove(st, n - 1, e); }
  }

  /** A pipeline that is not idle, with no run under way, has a run to reap or a row to dispatch. */
  lemma SomethingToDo(sys: System, st: State)
    requires Sized(sys, st) && InSession(sys, st) && !Idle(sys, st)
    requires forall e: nat | e < sys.g.size :: Free(st.elems[e])
    ensures Moves(st, sys.g.size) >= 1
  {
    var e: nat :| e < sys.g.size && (st.elems[e].running.Some? || st.elems[e].ready != []);
    SomeMove(st, sys.g.size, e);
  }

  /**
   * No stall: a tick of a pipeline that is not idle, with no run under way, does
   * at least one thing, so without a launch the work left falls. Whatever the
   * state, a tick leaves a run under way or the pipeline idle.
   */
  lemma TickNeverStalls(sys: System, st: State, t: State, launched: bool)
    requires Inv(sys, st) && st.live && Sized(sys, t) && TickedAll(sys, st, t, launched)
    requires launched ==> forall p | p in sys.g.producers :: Free(st.elems[p]) && st.elems[p].ready == []
    ensures !Idle(sys, st) && (forall e: nat | e < sys.g.size :: Free(st.elems[e])) && !launched ==>
              Work(sys, t, sys.g.size) < Work(sys, st, sys.g.size)
    ensures Idle(sys, t) || exists e: nat :: e < sys.g.size && (t.elems[e].phase == Dispatched || t.elems[e].phase == Running)
  {
    LiveIsInSession(sys, st);
    if !Idle(sys, st) && !launched && forall e: nat | e < sys.g.size :: Free(st.elems[e]) {
      TickWorks(sys, st, t, launched);
      SomethingToDo(sys, st);
    }
    if !Idle(sys, t) {
      SomethingUnderWay(sys, st, t, launched);
    }
  }

  lemma SomethingUnderWay(sys: System, st: State, t: State, launched: bool)
    requires Sized(sys, st) && InSession(sys, st) && Sized(sys, t) && TickedAll(sys, st, t, launched) && !Idle(sys, t)
    ensures exists e: nat :: e < sys.g.size && (t.elems[e].phase == Dispatched || t.elems[e].phase == Running)
  {
    var e: nat :| e < sys.g.size && (t.elems[e].running.Some? || t.elems[e].ready != []);
    TickLeavesNoneWaiting(sys, st, t, launched, e);
  }

  /** After a tick no finished run is in the run queue, and no row waits for an element that is free. */
  lemma TickLeavesNoneWaiting(sys: System, st: State, t: State, launched: bool, e: nat)
    requires Sized(sys, st) && Sized(sys, t) && TickedAll(sys, st, t, launched) && e < sys.g.size
    ensures t.elems[e].running.Some? || t.elems[e].ready == []
    ensures InSession(sys, st) ==> t.elems[e].phase != Done && (t.elems[e].running.Some? ==> InRun(t.elems[e]))
  {
    assert Ticked(st.elems[e], t.elems[e], if launched && e in sys.g.producers then Some(st.serial) else None);
    if InSession(sys, st) {
      assert Lifecycle(sys.g, e, st.elems[e], true, st.origin.base, st.serial);
    }
  }

  /** The three phases of a tick, element by element, make it a tick as described. */
  lemma TickIsTicked(sys: System, st: State, t: State, launched: bool)
    requires Sized(sys, st) && InSession(sys, st) && Sized(sys, t) && t.serial == st.serial + if launched then 1 else 0
    requires forall e: nat | e < sys.g.size :: t.elems[e] ==
               var el := NextDispatched(Reaped(st.elems[e]));
               if launched && e in sys.g.producers then DispatchElem(el, st.serial) else el
    requires launched ==> forall p | p in sys.g.producers :: p < sys.g.size && BelowDispatched(NextDispatched(Reaped(st.elems[p])))
    ensures TickedAll(sys, st, t, launched)
    ensures launched ==> forall p | p in sys.g.producers :: Free(st.elems[p]) && st.elems[p].ready == []
  {
    forall e: nat | e < sys.g.size
      ensures Ticked(st.elems[e], t.elems[e], if launched && e in sys.g.producers then Some(st.serial) else None)
    {
      assert Lifecycle(sys.g, e, st.elems[e], true, st.origin.base, st.serial);
    }
  }

  /** A producer is ready to be launched in a tick when no run of it is under way. */
  lemma FreeToLaunch(sys: System, st: State, p: nat)
    requires Sized(sys, st) && InSession(sys, st) && p in sys.g.producers && p < sys.g.size
    ensures BelowDispatched(NextDispatched(Reaped(st.elems[p]))) <==> Free(st.elems[p])
  {
    assert Lifecycle(sys.g, p, st.elems[p], true, st.origin.base, st.serial);
  }

  /** What a tick achieves, for the elements before and after it. */
  lemma TickAchieves(sys: System, st: State, t: State, launched: bool, willing: set<nat>)
    requires Inv(sys, st) && st.live && !st.stopping && Sized(sys, t) && t.serial == st.serial + if launched then 1 else 0
    requires forall e: nat | e < sys.g.size :: t.elems[e] ==
               var el := NextDispatched(Reaped(st.elems[e]));
               if launched && e in sys.g.producers then DispatchElem(el, st.serial) else el
    requires launched <==>
               && (forall c: nat | c < |sys.g.conns| :: |st.queues[c]| < 5)
               && (forall p | p in sys.g.producers :: p in willing && BelowDispatched(NextDispatched(Reaped(st.elems[p]))))
    ensures TickedAll(sys, st, t, launched)
    ensures launched <==>
              && (forall c: nat | c < |sys.g.conns| :: |st.queues[c]| < 5)
              && (forall p | p in sys.g.producers :: p in willing && Free(st.elems[p]))
    ensures Idle(sys, st) && sys.g.producers <= willing ==> launched
    ensures !Idle(sys, st) && (forall e: nat | e < sys.g.size :: Free(st.elems[e])) && !launched ==>
              Work(sys, t, sys.g.size) < Work(sys, st, sys.g.size)
    ensures Idle(sys, t) || exists e: nat :: e < sys.g.size && (t.elems[e].phase == Dispatched || t.elems[e].phase == Running)
    ensures forall e: nat | e < sys.g.size :: t.elems[e].phase != Done && (t.elems[e].running.Some? || t.elems[e].ready == [])
  {
    LiveIsInSession(sys, st);
    TickIsTicked(sys, st, t, launched);
    forall p | p in sys.g.producers ensures BelowDispatched(NextDispatched(Reaped(st.elems[p]))) <==> Free(st.elems[p]) {
      FreeToLaunch(sys, st, p);
    }
    if Idle(sys, st) { IdleCanLaunch(sys, st); }
    TickNeverStalls(sys, st, t, launched);
    forall e: nat | e < sys.g.size ensures t.elems[e].phase != Done && (t.elems[e].running.Some? || t.elems[e].ready == []) {
      TickLeavesNoneWaiting(sys, st, t, launched, e);
    }
  }
}
