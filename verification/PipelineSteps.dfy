/**
 * The pipeline runtime as a transition system. A step is one locked action of the
 * scheduler, of a worker thread running an element, or of start and stop, so a
 * behaviour is any interleaving of those actions.
 *
 * `fault` records that a source assertion would fail, an exception would be
 * thrown or serials would disagree; that it stays false is proved, not assumed.
 */
module PipelineSteps {
  import opened PipelineGraph

  /** Where an element is in its life; the order is the program's, and failure counts as the last. */
  datatype Phase = Undefined | Initialized | Started | Dispatched | Running | Done | Failed

  /** An item in a queue; NULL when it has no payload. */
  datatype Data = Data(serial: nat, payload: Option<Payload>)

  /**
   * An element: its phase, processing serial and memory; its scoreboard; its
   * ready queue and its entry in the run queue. During a run, `pending` are the
   * inputs still to take, `outbox` the connections still to push to, `values`
   * what goes there, and `telling` a connection pushed to whose consumer has not
   * been told yet. `next` counts: the serial of the first run not finished.
   */
  datatype Elem = Elem(
    phase: Phase, serial: nat, memory: Memory,
    lookup: map<nat, nat>, ready: seq<nat>, running: Option<nat>,
    pending: set<nat>, outbox: set<nat>, values: map<nat, Option<Payload>>, telling: Option<nat>,
    next: nat)

  datatype State = State(
    elems: seq<Elem>, queues: seq<seq<Data>>, serial: nat,
    live: bool, stopping: bool, scan: Option<set<nat>>, fault: bool, origin: Origin)

  datatype Step =
    | Start | RequestStop | FinishStop
    | Reap(e: nat) | Dispatch(e: nat) | BeginScan | Scan(c: nat) | DispatchProducers
    | Begin(e: nat) | Take(c: nat) | Push(c: nat) | Tell(e: nat) | Finish(e: nat)

  function Initial(sys: System, memory: seq<Memory>): State
    requires |memory| == sys.g.size
  {
    State(seq(sys.g.size, i requires 0 <= i < sys.g.size =>
            Elem(Undefined, 0, memory[i], map[], [], None, {}, {}, map[], None, 1)),
          seq(|sys.g.conns|, _ => []), 1, false, false, None, false, Origin(1, memory))
  }

  ghost predicate Sized(sys: System, st: State) {
    && |st.elems| == sys.g.size && |st.queues| == |sys.g.conns| && |st.origin.memory| == sys.g.size
  }

  // ----- the scoreboard -----

  /** Counts one more pin for a serial; the row is complete, and forgotten, at the pin count. */
  function ScoreAdd(lookup: map<nat, nat>, pinCount: nat, serial: nat): (map<nat, nat>, bool) {
    var count := (if serial in lookup then lookup[serial] else 0) + 1;
    if count == pinCount then (lookup - {serial}, true) else (lookup[serial := count], false)
  }

  // ----- scheduler -----

  predicate BelowDispatched(el: Elem) { el.phase == Undefined || el.phase == Initialized || el.phase == Started }

  ghost predicate AllScanned(sys: System, st: State) {
    st.scan.Some? && forall c: nat | c < |sys.g.conns| :: c in st.scan.value
  }

  function StartElem(sys: System, el: Elem, e: nat, serial: nat): Elem {
    el.(phase := Started, memory := sys.b.start(e, el.memory), ready := [], next := serial)
  }

  function StartAll(sys: System, st: State): State {
    var elems := seq(|st.elems|, e requires 0 <= e < |st.elems| => StartElem(sys, st.elems[e], e, st.serial));
    st.(elems := elems, live := true, stopping := false, scan := None,
        fault := st.fault || exists e :: 0 <= e < |st.elems| && st.elems[e].phase != Undefined,
        origin := Origin(st.serial, seq(|elems|, e requires 0 <= e < |elems| => elems[e].memory)))
  }

  /** What the program asserts of an element it stops: that it was started. */
  predicate WasStarted(el: Elem) { el.phase != Undefined && el.phase != Initialized }

  /** All elements are stopped and de-initialised, all connections flushed; scoreboards are not cleared. */
  function StopAll(st: State): State {
    st.(elems := seq(|st.elems|, e requires 0 <= e < |st.elems| =>
                   st.elems[e].(phase := Undefined, serial := 0, ready := [])),
        queues := seq(|st.queues|, _ => []), live := false, stopping := false, scan := None,
        fault := st.fault || exists e :: 0 <= e < |st.elems| && !WasStarted(st.elems[e]))
  }

  function ReapElem(el: Elem): Elem { el.(phase := Started, running := None) }

  function DispatchElem(el: Elem, serial: nat): Elem { el.(phase := Dispatched, running := Some(serial)) }

  function DispatchOne(st: State, e: nat): State
    requires e < |st.elems| && st.elems[e].ready != []
  {
    var el := st.elems[e];
    st.(elems := st.elems[e := DispatchElem(el, el.ready[0]).(ready := el.ready[1..])],
        fault := st.fault || el.phase != Started)
  }

  function LaunchProducers(sys: System, st: State): State {
    st.(elems := seq(|st.elems|, e requires 0 <= e < |st.elems| =>
                   if e in sys.g.producers then DispatchElem(st.elems[e], st.serial) else st.elems[e]),
        serial := st.serial + 1, scan := None,
        fault := st.fault || exists e :: e in sys.g.producers && e < |st.elems|
                                      && (st.elems[e].phase != Started || st.elems[e].running.Some?))
  }

  // ----- a run -----

  predicate HeadsAgree(sys: System, st: State, e: nat, serial: nat)
    requires |st.queues| == |sys.g.conns|
  {
    forall c | c in Ins(sys.g, e) :: st.queues[c] != [] && st.queues[c][0].serial == serial
  }

  function Heads(sys: System, st: State, e: nat): map<nat, Option<Payload>>
    requires |st.queues| == |sys.g.conns|
  {
    map c | c in Ins(sys.g, e) :: if st.queues[c] == [] then None else st.queues[c][0].payload
  }

  /** Sets the processing serial, looks at the heads and computes the run; nothing is taken or put yet. */
  function BeginRun(sys: System, st: State, e: nat): State
    requires Sized(sys, st) && e < sys.g.size && st.elems[e].running.Some?
  {
    var el := st.elems[e];
    var s := el.running.value;
    var (memory, outs) := RunOnce(sys, e, el.memory, s, Heads(sys, st, e));
    st.(elems := st.elems[e := el.(phase := Running, serial := s, memory := memory,
                                   pending := Ins(sys.g, e), outbox := Outs(sys.g, e),
                                   values := map c | c in Outs(sys.g, e) :: Sent(outs, sys.g.conns[c].pin))],
        fault := st.fault || !HeadsAgree(sys, st, e, s) || !(s > el.serial || s == 0))
  }

  function TakeItem(sys: System, st: State, c: nat): State
    requires Sized(sys, st) && c < |sys.g.conns| && sys.g.conns[c].dst < sys.g.size
  {
    var e := sys.g.conns[c].dst;
    if st.queues[c] == [] then st.(fault := true)
    else st.(elems := st.elems[e := st.elems[e].(pending := st.elems[e].pending - {c})],
             queues := st.queues[c := st.queues[c][1..]])
  }

  function PushItem(sys: System, st: State, c: nat): State
    requires Sized(sys, st) && c < |sys.g.conns| && sys.g.conns[c].src < sys.g.size
    requires c in st.elems[sys.g.conns[c].src].values
  {
    var e := sys.g.conns[c].src;
    var el := st.elems[e];
    st.(elems := st.elems[e := el.(outbox := el.outbox - {c}, telling := Some(c))],
        queues := st.queues[c := st.queues[c] + [Data(el.serial, el.values[c])]])
  }

  /** The consumer's scoreboard; a complete row goes to its ready queue. */
  function TellElem(sys: System, d: Elem, pinCount: nat, serial: nat): Elem {
    var (lookup, complete) := ScoreAdd(d.lookup, pinCount, serial);
    d.(lookup := lookup, ready := if complete then d.ready + [serial] else d.ready)
  }

  function TellConsumer(sys: System, st: State, e: nat): State
    requires Sized(sys, st) && e < sys.g.size && st.elems[e].telling.Some?
    requires st.elems[e].telling.value < |sys.g.conns| && sys.g.conns[st.elems[e].telling.value].dst < sys.g.size
  {
    var el := st.elems[e];
    var d := sys.g.conns[el.telling.value].dst;
    st.(elems := st.elems[e := el.(telling := None)][d := TellElem(sys, st.elems[d], |Ins(sys.g, d)|, el.serial)],
        fault := st.fault || !(el.serial > st.elems[d].serial || el.serial == 0))
  }

  function FinishRun(st: State, e: nat): State
    requires e < |st.elems|
  {
    var el := st.elems[e];
    st.(elems := st.elems[e := el.(phase := Done, next := el.next + 1)])
  }

  // ----- the transition relation -----

  ghost predicate Enabled(sys: System, st: State, step: Step) {
    && Sized(sys, st) && WellFormed(sys.g)
    && match step
       case Start => !st.live
       case RequestStop => st.live && !st.stopping
       case FinishStop => st.live && st.stopping && forall e | 0 <= e < sys.g.size :: st.elems[e].running.None?
       case Reap(e) => st.live && e < sys.g.size && st.elems[e].running.Some? && st.elems[e].phase == Done
       case Dispatch(e) => st.live && !st.stopping && e < sys.g.size && st.elems[e].ready != [] && st.elems[e].running.None?
       case BeginScan => st.live && !st.stopping
       case Scan(c) => st.live && !st.stopping && st.scan.Some? && c < |sys.g.conns| && |st.queues[c]| < 5
       case DispatchProducers =>
         st.live && !st.stopping && AllScanned(sys, st) && forall p | p in sys.g.producers :: BelowDispatched(st.elems[p])
       case Begin(e) => e < sys.g.size && st.elems[e].phase == Dispatched && st.elems[e].running.Some?
       case Take(c) => c < |sys.g.conns| && st.elems[sys.g.conns[c].dst].phase == Running && c in st.elems[sys.g.conns[c].dst].pending
       case Push(c) =>
         && c < |sys.g.conns| && st.elems[sys.g.conns[c].src].phase == Running
         && c in st.elems[sys.g.conns[c].src].outbox && c in st.elems[sys.g.conns[c].src].values
         && st.elems[sys.g.conns[c].src].telling.None?
       case Tell(e) => e < sys.g.size && st.elems[e].telling.Some? && st.elems[e].telling.value < |sys.g.conns|
       case Finish(e) =>
         && e < sys.g.size && st.elems[e].phase == Running
         && st.elems[e].pending == {} && st.elems[e].outbox == {} && st.elems[e].telling.None?
  }

  ghost function Next(sys: System, st: State, step: Step): State
    requires Enabled(sys, st, step)
  {
    match step
    case Start => StartAll(sys, st)
    case RequestStop => st.(stopping := true)
    case FinishStop => StopAll(st)
    case Reap(e) => st.(elems := st.elems[e := ReapElem(st.elems[e])])
    case Dispatch(e) => DispatchOne(st, e)
    case BeginScan => st.(scan := Some({}))
    case Scan(c) => st.(scan := Some(st.scan.value + {c}))
    case DispatchProducers => LaunchProducers(sys, st)
    case Begin(e) => BeginRun(sys, st, e)
    case Take(c) => TakeItem(sys, st, c)
    case Push(c) => PushItem(sys, st, c)
    case Tell(e) => TellConsumer(sys, st, e)
    case Finish(e) => FinishRun(st, e)
  }

  /** A finite behaviour: states linked by enabled steps, from the initial state. */
  ghost predicate Execution(sys: System, memory: seq<Memory>, states: seq<State>, steps: seq<Step>) {
    && |memory| == sys.g.size && |states| == |steps| + 1
    && states[0] == Initial(sys, memory)
    && forall i | 0 <= i < |steps| :: Enabled(sys, states[i], steps[i]) && states[i + 1] == Next(sys, states[i], steps[i])
  }
}
