/** Every step keeps the invariant; the consequences that the source asserts or only hopes for. */
module PipelineSafety {
  import opened FiniteSets
  import opened PipelineGraph
  import opened PipelineSteps
  import opened PipelineInvariant

  /** Serials announced on a connection were all dispatched at its source. */
  lemma ToldWithinDispatched(sys: System, st: State, c: nat)
    requires Sound(sys) && Sized(sys, st) && Elements(sys, st) && st.live && c < |sys.g.conns|
    ensures Told(sys, st, c) <= Put(sys, st, c) <= Dispatching(st.elems[sys.g.conns[c].src]) <= st.serial
  {
    var e := sys.g.conns[c].src;
    assert Lifecycle(sys.g, e, st.elems[e], st.live, st.origin.base, st.serial);
  }

  /** While an element is in a run, every queue it has yet to take from starts with the serial of the run. */
  lemma Synchronised(sys: System, st: State, e: nat, c: nat)
    requires Inv(sys, st) && st.live && e < sys.g.size && c in Ins(sys.g, e)
    requires InRun(st.elems[e]) && (st.elems[e].phase == Running ==> c in st.elems[e].pending)
    ensures st.elems[e].running == Some(st.elems[e].next)
    ensures st.queues[c] != []
    ensures st.queues[c][0] == Data(st.elems[e].next, ValueAt(sys, st.origin, c, st.elems[e].next))
  {
    assert Lifecycle(sys.g, e, st.elems[e], st.live, st.origin.base, st.serial);
    assert Scored(sys, st, e);
    ToldWithinDispatched(sys, st, c);
    assert Flowing(sys, st, c);
    assert Got(sys, st, c) == st.elems[e].next;
  }

  // ----- one element changes, nothing flows -----

  ghost predicate Quiet(sys: System, e: nat, el: Elem, after: Elem) {
    && SameBoard(el, after) && SameTold(sys.g, e, el, after)
    && SameGot(sys.g, e, el, after, {}) && SamePut(sys.g, e, el, after, {})
  }

  lemma QuietStep(sys: System, st: State, t: State, e: nat, el: Elem)
    requires Inv(sys, st) && st.live && e < sys.g.size && !t.fault
    requires Replaces(sys, st, t, e, el) && t.queues == st.queues
    requires Quiet(sys, e, st.elems[e], el) && InOrder(sys, st.origin, st.serial, e, el)
    ensures Inv(sys, t)
  {
    ElementsAndBoards(sys, st, t, e, el);
    ChannelsFrame(sys, st, t, e, el, {});
  }

  lemma ElementsAndBoards(sys: System, st: State, t: State, e: nat, el: Elem)
    requires Sound(sys) && Sized(sys, st) && Elements(sys, st) && Boards(sys, st) && e < sys.g.size
    requires Replaces(sys, st, t, e, el) && InOrder(sys, st.origin, st.serial, e, el)
    requires SameBoard(st.elems[e], el) && SameTold(sys.g, e, st.elems[e], el)
    ensures Elements(sys, t) && Boards(sys, t)
  {
    ElementsFrame(sys, st, t, e, el);
    BoardsFrame(sys, st, t, e, el);
  }

  lemma ReapKeeps(sys: System, st: State, e: nat)
    requires Inv(sys, st) && Enabled(sys, st, Reap(e))
    ensures Inv(sys, Next(sys, st, Reap(e)))
  {
    ElementIsInOrder(sys, st, e);
    QuietStep(sys, st, Next(sys, st, Reap(e)), e, ReapElem(st.elems[e]));
  }

  lemma HeadsAreInputs(sys: System, st: State, e: nat)
    requires Inv(sys, st) && st.live && e < sys.g.size && st.elems[e].phase == Dispatched
    ensures HeadsAgree(sys, st, e, st.elems[e].next)
    ensures Heads(sys, st, e) == InputsAt(sys, st.origin, e, st.elems[e].next)
  {
    forall c | c in Ins(sys.g, e)
      ensures st.queues[c] != [] && st.queues[c][0].serial == st.elems[e].next
      ensures st.queues[c][0].payload == ValueAt(sys, st.origin, c, st.elems[e].next)
    {
      Synchronised(sys, st, e, c);
    }
  }

  /** Every run starts with all its inputs present and computes what the reference evaluation says. */
  lemma BeginKeeps(sys: System, st: State, e: nat)
    requires Inv(sys, st) && Enabled(sys, st, Begin(e))
    ensures Inv(sys, Next(sys, st, Begin(e)))
  {
    ElementIsInOrderWhenRunning(sys, st, e);
    HeadsAreInputs(sys, st, e);
    var el := BegunElem(sys, st.origin, e, st.elems[e]);
    BeginInOrder(sys, st.origin, st.serial, e, st.elems[e]);
    BeginResult(sys, st, e);
    QuietStep(sys, st, st.(elems := st.elems[e := el]), e, el);
  }

  lemma BeginResult(sys: System, st: State, e: nat)
    requires Sound(sys) && Sized(sys, st) && e < sys.g.size && st.origin.base <= st.elems[e].next
    requires st.elems[e].running == Some(st.elems[e].next) && st.elems[e].serial < st.elems[e].next && !st.fault
    requires HeadsAgree(sys, st, e, st.elems[e].next)
    requires Heads(sys, st, e) == InputsAt(sys, st.origin, e, st.elems[e].next)
    requires st.elems[e].memory == MemoryAt(sys, st.origin, e, st.elems[e].next)
    ensures BeginRun(sys, st, e) == st.(elems := st.elems[e := BegunElem(sys, st.origin, e, st.elems[e])])
  {
    var el := BegunElem(sys, st.origin, e, st.elems[e]);
    var run := RunOnce(sys, e, st.elems[e].memory, st.elems[e].next, Heads(sys, st, e));
    assert run == RunAt(sys, st.origin, e, st.elems[e].next);
    assert el.values == map c | c in Outs(sys.g, e) :: Sent(run.1, sys.g.conns[c].pin);
  }

  ghost function BegunElem(sys: System, o: Origin, e: nat, el: Elem): Elem
    requires Sound(sys) && e < sys.g.size && |o.memory| == sys.g.size && o.base <= el.next
  {
    el.(phase := Running, serial := el.next, memory := RunAt(sys, o, e, el.next).0,
        pending := Ins(sys.g, e), outbox := Outs(sys.g, e),
        values := map c | c in Outs(sys.g, e) :: ValueAt(sys, o, c, el.next))
  }

  lemma BeginInOrder(sys: System, o: Origin, serial: nat, e: nat, el: Elem)
    requires Sound(sys) && e < sys.g.size && |o.memory| == sys.g.size
    requires InOrder(sys, o, serial, e, el) && el.phase == Dispatched
    ensures InOrder(sys, o, serial, e, BegunElem(sys, o, e, el)) && Quiet(sys, e, el, BegunElem(sys, o, e, el))
  {
  }

  lemma FinishInOrder(sys: System, o: Origin, serial: nat, e: nat, el: Elem, after: Elem)
    requires Sound(sys) && e < sys.g.size && |o.memory| == sys.g.size
    requires InOrder(sys, o, serial, e, el) && el.phase == Running
    requires el.pending == {} && el.outbox == {} && el.telling.None?
    requires after == el.(phase := Done, next := el.next + 1)
    ensures InOrder(sys, o, serial, e, after) && Quiet(sys, e, el, after)
  {
  }

  lemma FinishKeeps(sys: System, st: State, e: nat)
    requires Inv(sys, st) && Enabled(sys, st, Finish(e))
    ensures Inv(sys, Next(sys, st, Finish(e)))
  {
    var t := Next(sys, st, Finish(e));
    ElementIsInOrder(sys, st, e);
    FinishInOrder(sys, st.origin, st.serial, e, st.elems[e], t.elems[e]);
    QuietStep(sys, st, t, e, t.elems[e]);
  }

  // ----- dispatching -----

  lemma DispatchScored(sys: System, st: State, t: State, e: nat)
    requires Sized(sys, st) && Sized(sys, t) && WellFormed(sys.g) && e < sys.g.size
    requires Scored(sys, st, e) && t.origin.base == st.origin.base && st.elems[e].ready != []
    requires t.elems[e].ready == st.elems[e].ready[1..] && t.elems[e].lookup == st.elems[e].lookup
    requires Dispatching(t.elems[e]) == Dispatching(st.elems[e]) + 1
    requires forall c | c in Ins(sys.g, e) :: Told(sys, t, c) == Told(sys, st, c)
    ensures Scored(sys, t, e)
  {
    assert forall s :: Announced(sys, t, e, s) == Announced(sys, st, e, s);
  }

  lemma DispatchBoards(sys: System, st: State, t: State, e: nat, el: Elem)
    requires Sound(sys) && Sized(sys, st) && Boards(sys, st) && e < sys.g.size && e !in sys.g.producers
    requires Replaces(sys, st, t, e, el) && SameTold(sys.g, e, st.elems[e], el)
    requires st.elems[e].ready != [] && el.ready == st.elems[e].ready[1..] && el.lookup == st.elems[e].lookup
    requires Dispatching(el) == Dispatching(st.elems[e]) + 1
    ensures Boards(sys, t)
  {
    ToldFrame(sys, st, t, e, el);
    forall f: nat | f < sys.g.size && f !in sys.g.producers ensures Scored(sys, t, f) {
      if f == e { DispatchScored(sys, st, t, e); } else { ScoredFrame(sys, st, t, f); }
    }
  }

  /** The serial to dispatch is the next one, and it was handed out by the scheduler. */
  lemma ReadyIsNext(sys: System, st: State, e: nat)
    requires Inv(sys, st) && st.live && e < sys.g.size && st.elems[e].ready != []
    ensures e !in sys.g.producers
    ensures st.elems[e].ready[0] == Dispatching(st.elems[e]) < st.serial
    ensures st.elems[e].running.None? ==> st.elems[e].phase == Started && st.elems[e].ready[0] == st.elems[e].next
  {
    assert Lifecycle(sys.g, e, st.elems[e], st.live, st.origin.base, st.serial);
    assert Scored(sys, st, e);
    var c :| c in Ins(sys.g, e) && Told(sys, st, c) == Complete(st.elems[e]);
    ToldWithinDispatched(sys, st, c);
  }

  lemma DispatchInOrder(sys: System, o: Origin, serial: nat, e: nat, el: Elem, after: Elem)
    requires Sound(sys) && e < sys.g.size && |o.memory| == sys.g.size && e !in sys.g.producers
    requires InOrder(sys, o, serial, e, el) && el.phase == Started && el.next < serial && el.ready != []
    requires after == DispatchElem(el, el.next).(ready := el.ready[1..])
    ensures InOrder(sys, o, serial, e, after) && Dispatching(after) == Dispatching(el) + 1
    ensures SameGot(sys.g, e, el, after, {}) && SamePut(sys.g, e, el, after, {}) && SameTold(sys.g, e, el, after)
  {
  }

  lemma DispatchKeeps(sys: System, st: State, e: nat)
    requires Inv(sys, st) && Enabled(sys, st, Dispatch(e))
    ensures Inv(sys, Next(sys, st, Dispatch(e)))
  {
    var el := DispatchElem(st.elems[e], st.elems[e].next).(ready := st.elems[e].ready[1..]);
    ReadyIsNext(sys, st, e);
    ElementIsInOrder(sys, st, e);
    DispatchInOrder(sys, st.origin, st.serial, e, st.elems[e], el);
    DispatchResult(sys, st, e, el);
    DispatchStep(sys, st, Next(sys, st, Dispatch(e)), e, el);
  }

  lemma DispatchResult(sys: System, st: State, e: nat, el: Elem)
    requires Enabled(sys, st, Dispatch(e)) && st.elems[e].phase == Started && st.elems[e].ready[0] == st.elems[e].next
    requires el == DispatchElem(st.elems[e], st.elems[e].next).(ready := st.elems[e].ready[1..])
    ensures var t := Next(sys, st, Dispatch(e)); Replaces(sys, st, t, e, el) && t.fault == st.fault && t.queues == st.queues
  {
  }

  lemma DispatchStep(sys: System, st: State, t: State, e: nat, el: Elem)
    requires Inv(sys, st) && st.live && e < sys.g.size && e !in sys.g.producers && !t.fault && t.queues == st.queues
    requires Replaces(sys, st, t, e, el) && InOrder(sys, st.origin, st.serial, e, el)
    requires st.elems[e].ready != [] && el.ready == st.elems[e].ready[1..] && el.lookup == st.elems[e].lookup
    requires Dispatching(el) == Dispatching(st.elems[e]) + 1 && SameTold(sys.g, e, st.elems[e], el)
    requires SameGot(sys.g, e, st.elems[e], el, {}) && SamePut(sys.g, e, st.elems[e], el, {})
    ensures Inv(sys, t)
  {
    ElementsFrame(sys, st, t, e, el);
    DispatchBoards(sys, st, t, e, el);
    ChannelsFrame(sys, st, t, e, el, {});
  }

  lemma ProducersElements(sys: System, st: State, t: State)
    requires Sound(sys) && Sized(sys, st) && Elements(sys, st) && st.live && t == LaunchProducers(sys, st)
    requires forall p | p in sys.g.producers :: BelowDispatched(st.elems[p])
    ensures Elements(sys, t)
    ensures forall p | p in sys.g.producers :: st.elems[p].phase == Started && st.elems[p].running.None?
  {
    forall f: nat | f < sys.g.size
      ensures InOrder(sys, t.origin, t.serial, f, t.elems[f])
      ensures f in sys.g.producers ==> st.elems[f].phase == Started && st.elems[f].running.None?
    {
      assert Lifecycle(sys.g, f, st.elems[f], st.live, st.origin.base, st.serial) && Unused(st.elems[f], st.serial);
      assert Faithful(sys, st.origin, f, st.elems[f]);
    }
  }

  lemma ProducersKeep(sys: System, st: State)
    requires Inv(sys, st) && Enabled(sys, st, DispatchProducers)
    ensures Inv(sys, Next(sys, st, DispatchProducers))
  {
    var t := LaunchProducers(sys, st);
    ProducersElements(sys, st, t);
    ProducersBoards(sys, st, t);
    ProducersChannels(sys, st, t);
  }

  lemma ProducersChannels(sys: System, st: State, t: State)
    requires Sound(sys) && Sized(sys, st) && Channels(sys, st) && st.live && t == LaunchProducers(sys, st)
    requires forall p | p in sys.g.producers :: st.elems[p].phase == Started
    ensures Channels(sys, t)
  {
    forall c: nat | c < |sys.g.conns| ensures Flowing(sys, t, c) {
      LaunchedElement(sys, st, sys.g.conns[c].src, c);
      LaunchedElement(sys, st, sys.g.conns[c].dst, c);
      FlowingFrame(sys, st, t, c);
    }
  }

  lemma LaunchedElement(sys: System, st: State, e: nat, c: nat)
    requires Sized(sys, st) && e < sys.g.size
    requires e in sys.g.producers ==> st.elems[e].phase == Started
    ensures GotBy(LaunchProducers(sys, st).elems[e], c) == GotBy(st.elems[e], c)
    ensures PutBy(LaunchProducers(sys, st).elems[e], c) == PutBy(st.elems[e], c)
  {
  }

  lemma FlowingFrame(sys: System, st: State, t: State, c: nat)
    requires Sound(sys) && Sized(sys, st) && Sized(sys, t) && c < |sys.g.conns| && Flowing(sys, st, c)
    requires t.live == st.live && t.origin == st.origin && t.queues[c] == st.queues[c]
    requires Got(sys, t, c) == Got(sys, st, c) && Put(sys, t, c) == Put(sys, st, c)
    ensures Flowing(sys, t, c)
  {
  }

  lemma ProducersBoards(sys: System, st: State, t: State)
    requires Sound(sys) && Sized(sys, st) && Boards(sys, st) && st.live && t == LaunchProducers(sys, st)
    requires forall p | p in sys.g.producers :: st.elems[p].phase == Started
    ensures Boards(sys, t)
  {
    forall f: nat | f < sys.g.size && f !in sys.g.producers ensures Scored(sys, t, f) {
      ScoredFrame(sys, st, t, f);
    }
  }

  // ----- items move -----

  lemma TakeInOrder(sys: System, o: Origin, serial: nat, e: nat, el: Elem, c: nat, after: Elem)
    requires Sound(sys) && e < sys.g.size && |o.memory| == sys.g.size
    requires InOrder(sys, o, serial, e, el) && el.phase == Running && c in el.pending
    requires after == el.(pending := el.pending - {c})
    ensures InOrder(sys, o, serial, e, after) && SameBoard(el, after) && SameTold(sys.g, e, el, after)
    ensures SameGot(sys.g, e, el, after, {c}) && SamePut(sys.g, e, el, after, {})
    ensures GotBy(after, c) == GotBy(el, c) + 1
  {
  }

  lemma TakeKeeps(sys: System, st: State, c: nat)
    requires Inv(sys, st) && Enabled(sys, st, Take(c))
    ensures Inv(sys, Next(sys, st, Take(c)))
  {
    var e := sys.g.conns[c].dst;
    ElementIsInOrderWhenRunning(sys, st, e);
    Synchronised(sys, st, e, c);
    var el := st.elems[e].(pending := st.elems[e].pending - {c});
    TakeInOrder(sys, st.origin, st.serial, e, st.elems[e], c, el);
    var t := st.(elems := st.elems[e := el], queues := st.queues[c := st.queues[c][1..]]);
    assert Next(sys, st, Take(c)) == t;
    TakeFlows(sys, st, t, c);
    MovingStep(sys, st, t, e, el, c);
  }

  /** One element and one of its queues change. */
  lemma MovingStep(sys: System, st: State, t: State, e: nat, el: Elem, c: nat)
    requires Inv(sys, st) && st.live && e < sys.g.size && !t.fault
    requires Replaces(sys, st, t, e, el) && InOrder(sys, st.origin, st.serial, e, el)
    requires SameBoard(st.elems[e], el) && SameTold(sys.g, e, st.elems[e], el)
    requires SameGot(sys.g, e, st.elems[e], el, {c}) && SamePut(sys.g, e, st.elems[e], el, {c})
    requires forall d: nat | d < |sys.g.conns| && d != c :: t.queues[d] == st.queues[d]
    requires c < |sys.g.conns| && Flowing(sys, t, c)
    ensures Inv(sys, t)
  {
    ElementsAndBoards(sys, st, t, e, el);
    OtherChannels(sys, st, t, e, el, c);
  }

  lemma OtherChannels(sys: System, st: State, t: State, e: nat, el: Elem, c: nat)
    requires Sound(sys) && Sized(sys, st) && Channels(sys, st) && e < sys.g.size && Replaces(sys, st, t, e, el)
    requires SameGot(sys.g, e, st.elems[e], el, {c}) && SamePut(sys.g, e, st.elems[e], el, {c})
    requires forall d: nat | d < |sys.g.conns| && d != c :: t.queues[d] == st.queues[d]
    requires c < |sys.g.conns| && Flowing(sys, t, c)
    ensures Channels(sys, t)
  {
    ChannelsFrame(sys, st, t, e, el, {c});
  }

  lemma ElementIsInOrderWhenRunning(sys: System, st: State, e: nat)
    requires Inv(sys, st) && e < sys.g.size && InRun(st.elems[e])
    ensures st.live && InOrder(sys, st.origin, st.serial, e, st.elems[e])
  {
    assert Lifecycle(sys.g, e, st.elems[e], st.live, st.origin.base, st.serial);
  }

  lemma TakeFlows(sys: System, st: State, t: State, c: nat)
    requires Sound(sys) && Sized(sys, st) && Sized(sys, t) && st.live && t.live && t.origin == st.origin
    requires c < |sys.g.conns| && Flowing(sys, st, c) && st.queues[c] != [] && t.queues[c] == st.queues[c][1..]
    requires Got(sys, t, c) == Got(sys, st, c) + 1 && Put(sys, t, c) == Put(sys, st, c)
    ensures Flowing(sys, t, c)
  {
    ItemLeaves(sys, st.origin, c, Got(sys, st, c), Put(sys, st, c), st.queues[c]);
  }

  lemma ItemLeaves(sys: System, o: Origin, c: nat, got: nat, put: nat, q: seq<Data>)
    requires Sound(sys) && |o.memory| == sys.g.size && c < |sys.g.conns| && o.base <= got && Carries(sys, o, c, got, put, q) && q != []
    ensures Carries(sys, o, c, got + 1, put, q[1..])
  {
  }

  lemma PushInOrder(sys: System, o: Origin, serial: nat, e: nat, el: Elem, c: nat, after: Elem)
    requires Sound(sys) && e < sys.g.size && |o.memory| == sys.g.size && c in Outs(sys.g, e)
    requires InOrder(sys, o, serial, e, el) && el.phase == Running && c in el.outbox && el.telling.None?
    requires after == el.(outbox := el.outbox - {c}, telling := Some(c))
    ensures InOrder(sys, o, serial, e, after) && SameBoard(el, after) && SameTold(sys.g, e, el, after)
    ensures SameGot(sys.g, e, el, after, {}) && SamePut(sys.g, e, el, after, {c})
    ensures PutBy(after, c) == PutBy(el, c) + 1 && GotBy(after, c) == GotBy(el, c)
    ensures el.serial == PutBy(el, c) && o.base <= el.serial && c in el.values && el.values[c] == ValueAt(sys, o, c, el.serial)
  {
  }

  lemma PushKeeps(sys: System, st: State, c: nat)
    requires Inv(sys, st) && Enabled(sys, st, Push(c))
    ensures Inv(sys, Next(sys, st, Push(c)))
  {
    var e := sys.g.conns[c].src;
    ElementIsInOrderWhenRunning(sys, st, e);
    var el := st.elems[e].(outbox := st.elems[e].outbox - {c}, telling := Some(c));
    PushInOrder(sys, st.origin, st.serial, e, st.elems[e], c, el);
    var t := Pushed(st, e, el, c);
    PushFlows(sys, st, t, c);
    MovingStep(sys, st, t, e, el, c);
  }

  function Pushed(st: State, e: nat, el: Elem, c: nat): State
    requires e < |st.elems| && c < |st.queues| && c in st.elems[e].values
  {
    st.(elems := st.elems[e := el], queues := st.queues[c := st.queues[c] + [Data(st.elems[e].serial, st.elems[e].values[c])]])
  }

  lemma PushFlows(sys: System, st: State, t: State, c: nat)
    requires Sound(sys) && Sized(sys, st) && Sized(sys, t) && st.live && t.live && t.origin == st.origin
    requires c < |sys.g.conns| && Flowing(sys, st, c) && st.origin.base <= Put(sys, st, c)
    requires t.queues[c] == st.queues[c] + [Data(Put(sys, st, c), ValueAt(sys, st.origin, c, Put(sys, st, c)))]
    requires Got(sys, t, c) == Got(sys, st, c) && Put(sys, t, c) == Put(sys, st, c) + 1
    ensures Flowing(sys, t, c)
  {
    ItemFollows(sys, st.origin, c, Got(sys, st, c), Put(sys, st, c), st.queues[c], t.queues[c]);
  }

  lemma ItemFollows(sys: System, o: Origin, c: nat, got: nat, put: nat, q: seq<Data>, after: seq<Data>)
    requires Sound(sys) && |o.memory| == sys.g.size && c < |sys.g.conns| && o.base <= got <= put && Carries(sys, o, c, got, put, q)
    requires after == q + [Data(put, ValueAt(sys, o, c, put))]
    ensures Carries(sys, o, c, got, put + 1, after)
  {
  }

  // ----- a consumer is told -----

  /** Telling a consumer of serial s adds exactly pin c to those that announced s. */
  lemma TellAnnounces(sys: System, st: State, t: State, d: nat, c: nat, s: nat)
    requires Sized(sys, st) && Sized(sys, t) && WellFormed(sys.g) && d < sys.g.size && c in Ins(sys.g, d)
    requires Told(sys, st, c) == s && Told(sys, t, c) == s + 1
    requires forall k | k in Ins(sys.g, d) && k != c :: Told(sys, t, k) == Told(sys, st, k)
    ensures Announced(sys, t, d, s) == Announced(sys, st, d, s) + {c} && c !in Announced(sys, st, d, s)
    ensures forall r: nat | r != s :: Announced(sys, t, d, r) == Announced(sys, st, d, r)
  {
    forall r: nat | r != s ensures Announced(sys, t, d, r) == Announced(sys, st, d, r) {
      forall k ensures k in Announced(sys, t, d, r) <==> k in Announced(sys, st, d, r) {
      }
    }
  }

  /** Although it ignores the pin, the scoreboard's count is the number of distinct pins. */
  lemma TellCounts(sys: System, st: State, t: State, d: nat, c: nat, s: nat)
    requires Sized(sys, st) && Sized(sys, t) && WellFormed(sys.g) && d < sys.g.size && c in Ins(sys.g, d)
    requires Scored(sys, st, d) && t.origin == st.origin && st.origin.base <= s
    requires Told(sys, st, c) == s && Told(sys, t, c) == s + 1
    requires forall k | k in Ins(sys.g, d) && k != c :: Told(sys, t, k) == Told(sys, st, k)
    ensures (if s in st.elems[d].lookup then st.elems[d].lookup[s] else 0) + 1 == |Announced(sys, t, d, s)|
    ensures |Announced(sys, t, d, s)| == |Ins(sys.g, d)| <==> forall k | k in Ins(sys.g, d) :: s < Told(sys, t, k)
  {
    TellAnnounces(sys, st, t, d, c, s);
    SubsetSize(Announced(sys, t, d, s), Ins(sys.g, d));
    if forall k | k in Ins(sys.g, d) :: s < Told(sys, t, k) {
      assert Announced(sys, t, d, s) == Ins(sys.g, d);
    }
  }

  lemma TellCompletes(sys: System, st: State, t: State, d: nat, c: nat, s: nat)
    requires Sized(sys, st) && Sized(sys, t) && WellFormed(sys.g) && d < sys.g.size && c in Ins(sys.g, d)
    requires Scored(sys, st, d) && t.origin == st.origin && st.origin.base <= s
    requires Told(sys, st, c) == s && Told(sys, t, c) == s + 1
    requires forall k | k in Ins(sys.g, d) && k != c :: Told(sys, t, k) == Told(sys, st, k)
    requires forall k | k in Ins(sys.g, d) :: s < Told(sys, t, k)
    requires t.elems[d] == st.elems[d].(lookup := st.elems[d].lookup - {s}, ready := st.elems[d].ready + [s])
    ensures Complete(st.elems[d]) == s && Scored(sys, t, d)
  {
    TellAnnounces(sys, st, t, d, c, s);
    var c0 :| c0 in Ins(sys.g, d) && Told(sys, st, c0) == Complete(st.elems[d]);
    assert c0 == c;
    assert Told(sys, t, c) == Complete(t.elems[d]);
  }

  lemma TellWaits(sys: System, st: State, t: State, d: nat, c: nat, s: nat, k: nat)
    requires Sized(sys, st) && Sized(sys, t) && WellFormed(sys.g) && d < sys.g.size && c in Ins(sys.g, d)
    requires Scored(sys, st, d) && t.origin == st.origin && st.origin.base <= s
    requires Told(sys, st, c) == s && Told(sys, t, c) == s + 1
    requires forall k | k in Ins(sys.g, d) && k != c :: Told(sys, t, k) == Told(sys, st, k)
    requires k in Ins(sys.g, d) && Told(sys, t, k) <= s
    requires t.elems[d] == st.elems[d].(lookup := st.elems[d].lookup[s := |Announced(sys, t, d, s)|])
    ensures Scored(sys, t, d)
  {
    var c0 :| c0 in Ins(sys.g, d) && Told(sys, st, c0) == Complete(st.elems[d]);
    assert Complete(t.elems[d]) == Complete(st.elems[d]) && k != c;
    SomePinWaits(sys, st, t, d, c, s, k, c0);
    TellTable(sys, st, t, d, c, s);
  }

  lemma TellTable(sys: System, st: State, t: State, d: nat, c: nat, s: nat)
    requires Sized(sys, st) && Sized(sys, t) && WellFormed(sys.g) && d < sys.g.size && c in Ins(sys.g, d)
    requires Scored(sys, st, d) && t.origin == st.origin && Complete(st.elems[d]) <= s
    requires Told(sys, st, c) == s && Told(sys, t, c) == s + 1
    requires forall k | k in Ins(sys.g, d) && k != c :: Told(sys, t, k) == Told(sys, st, k)
    requires t.elems[d] == st.elems[d].(lookup := st.elems[d].lookup[s := |Announced(sys, t, d, s)|])
    ensures forall r :: r in t.elems[d].lookup && r >= t.origin.base ==>
              Complete(t.elems[d]) <= r && t.elems[d].lookup[r] == |Announced(sys, t, d, r)|
    ensures forall r: nat :: r >= Complete(t.elems[d]) && r !in t.elems[d].lookup ==> Announced(sys, t, d, r) == {}
  {
    OthersAnnounced(sys, st, t, d, c, s);
  }

  /** Telling a serial leaves what was announced of the others. */
  lemma OthersAnnounced(sys: System, st: State, t: State, d: nat, c: nat, s: nat)
    requires Sized(sys, st) && Sized(sys, t) && WellFormed(sys.g) && d < sys.g.size && c in Ins(sys.g, d)
    requires Told(sys, st, c) == s && Told(sys, t, c) == s + 1
    requires forall k | k in Ins(sys.g, d) && k != c :: Told(sys, t, k) == Told(sys, st, k)
    ensures forall r: nat | r != s :: Announced(sys, t, d, r) == Announced(sys, st, d, r)
  {
    forall r: nat | r != s ensures Announced(sys, t, d, r) == Announced(sys, st, d, r) {
    }
  }

  lemma SomePinWaits(sys: System, st: State, t: State, d: nat, c: nat, s: nat, k: nat, c0: nat)
    requires Sized(sys, st) && Sized(sys, t) && WellFormed(sys.g) && d < sys.g.size && c in Ins(sys.g, d) && c0 in Ins(sys.g, d)
    requires Told(sys, st, c) == s && Told(sys, t, c) == s + 1 && Told(sys, st, c0) == Complete(st.elems[d]) <= s
    requires forall k | k in Ins(sys.g, d) && k != c :: Told(sys, t, k) == Told(sys, st, k) >= Complete(st.elems[d])
    requires k in Ins(sys.g, d) && k != c && Told(sys, t, k) <= s
    ensures exists w :: w in Ins(sys.g, d) && Told(sys, t, w) == Complete(st.elems[d])
  {
    var w := if c0 == c then k else c0;
    assert w in Ins(sys.g, d) && Told(sys, t, w) == Complete(st.elems[d]);
  }

  /** The scoreboard stays a count of distinct pins, and rows complete once and in order. */
  lemma TellScored(sys: System, st: State, t: State, d: nat, c: nat, s: nat)
    requires Sized(sys, st) && Sized(sys, t) && WellFormed(sys.g) && d < sys.g.size && c in Ins(sys.g, d)
    requires Scored(sys, st, d) && t.origin == st.origin && st.origin.base <= s
    requires Told(sys, st, c) == s && Told(sys, t, c) == s + 1
    requires forall k | k in Ins(sys.g, d) && k != c :: Told(sys, t, k) == Told(sys, st, k)
    requires t.elems[d] == TellElem(sys, st.elems[d], |Ins(sys.g, d)|, s)
    ensures Scored(sys, t, d)
  {
    TellCounts(sys, st, t, d, c, s);
    if forall k | k in Ins(sys.g, d) :: s < Told(sys, t, k) {
      TellCompletes(sys, st, t, d, c, s);
    } else {
      var k :| k in Ins(sys.g, d) && Told(sys, t, k) <= s;
      TellWaits(sys, st, t, d, c, s, k);
    }
  }

  lemma TellInOrder(sys: System, o: Origin, serial: nat, e: nat, el: Elem, c: nat, after: Elem)
    requires Sound(sys) && e < sys.g.size && |o.memory| == sys.g.size
    requires InOrder(sys, o, serial, e, el) && el.telling == Some(c) && after == el.(telling := None)
    ensures InOrder(sys, o, serial, e, after) && SameBoard(el, after) && c in Outs(sys.g, e)
    ensures o.base <= el.serial < serial && ToldBy(el, c) == el.serial && ToldBy(after, c) == el.serial + 1
    ensures forall k | k in Outs(sys.g, e) && k != c :: ToldBy(after, k) == ToldBy(el, k)
    ensures SameGot(sys.g, e, el, after, {}) && SamePut(sys.g, e, el, after, {})
  {
  }

  lemma BoardStepInOrder(sys: System, o: Origin, serial: nat, d: nat, el: Elem, s: nat, pins: nat, after: Elem)
    requires Sound(sys) && d < sys.g.size && |o.memory| == sys.g.size && d !in sys.g.producers
    requires InOrder(sys, o, serial, d, el) && s < serial && after == TellElem(sys, el, pins, s)
    ensures InOrder(sys, o, serial, d, after)
    ensures SameTold(sys.g, d, el, after) && SameGot(sys.g, d, el, after, {}) && SamePut(sys.g, d, el, after, {})
  {
  }

  /** The consumer told is in order too, and its processing serial is below the new one. */
  lemma ToldInOrder(sys: System, st: State, d: nat, c: nat, after: Elem)
    requires Inv(sys, st) && st.live && d < sys.g.size && c in Ins(sys.g, d) && Told(sys, st, c) < st.serial
    requires after == TellElem(sys, st.elems[d], |Ins(sys.g, d)|, Told(sys, st, c))
    ensures InOrder(sys, st.origin, st.serial, d, after)
    ensures st.elems[d].serial < Told(sys, st, c)
    ensures SameTold(sys.g, d, st.elems[d], after)
    ensures SameGot(sys.g, d, st.elems[d], after, {}) && SamePut(sys.g, d, st.elems[d], after, {})
  {
    ElementIsInOrder(sys, st, d);
    BoardStepInOrder(sys, st.origin, st.serial, d, st.elems[d], Told(sys, st, c), |Ins(sys.g, d)|, after);
    assert Scored(sys, st, d);
  }

  lemma TellBoards(sys: System, st: State, t: State, e: nat, d: nat, c: nat, s: nat)
    requires Sound(sys) && Sized(sys, st) && Boards(sys, st) && st.live && t.live && Sized(sys, t)
    requires e < sys.g.size && d < sys.g.size && e != d && c in Ins(sys.g, d) && t.origin == st.origin && st.origin.base <= s
    requires forall f: nat | f < sys.g.size && f != e && f != d :: t.elems[f] == st.elems[f]
    requires SameBoard(st.elems[e], t.elems[e]) && t.elems[d] == TellElem(sys, st.elems[d], |Ins(sys.g, d)|, s)
    requires Told(sys, st, c) == s && Told(sys, t, c) == s + 1
    requires forall k: nat | k < |sys.g.conns| && k != c :: Told(sys, t, k) == Told(sys, st, k)
    ensures Boards(sys, t)
  {
    forall f: nat | f < sys.g.size && f !in sys.g.producers ensures Scored(sys, t, f) {
      if f == d { TellScored(sys, st, t, d, c, s); } else { ScoredFrame(sys, st, t, f); }
    }
  }

  lemma TellKeeps(sys: System, st: State, e: nat)
    requires Inv(sys, st) && Enabled(sys, st, Tell(e))
    ensures Inv(sys, Next(sys, st, Tell(e)))
  {
    var c := TellingOut(sys, st, e);
    var d := sys.g.conns[c].dst;
    TellSource(sys, st, e, c);
    ToldInOrder(sys, st, d, c, TellElem(sys, st.elems[d], |Ins(sys.g, d)|, st.elems[e].serial));
    TellStep(sys, st, TellConsumer(sys, st, e), e, d, c);
  }

  /** The connection that is being announced goes out of e. */
  lemma TellingOut(sys: System, st: State, e: nat) returns (c: nat)
    requires Inv(sys, st) && Enabled(sys, st, Tell(e))
    ensures st.live && st.elems[e].telling == Some(c) && c in Outs(sys.g, e)
  {
    assert Lifecycle(sys.g, e, st.elems[e], st.live, st.origin.base, st.serial);
    c := st.elems[e].telling.value;
  }

  lemma TellSource(sys: System, st: State, e: nat, c: nat)
    requires Inv(sys, st) && st.live && e < sys.g.size && st.elems[e].telling == Some(c)
    ensures var el, after := st.elems[e], st.elems[e].(telling := None);
      && InOrder(sys, st.origin, st.serial, e, after) && SameBoard(el, after) && c in Outs(sys.g, e)
      && st.origin.base <= el.serial < st.serial && ToldBy(el, c) == el.serial && ToldBy(after, c) == el.serial + 1
      && (forall k | k in Outs(sys.g, e) && k != c :: ToldBy(after, k) == ToldBy(el, k))
      && SameGot(sys.g, e, el, after, {}) && SamePut(sys.g, e, el, after, {})
  {
    ElementIsInOrder(sys, st, e);
    TellInOrder(sys, st.origin, st.serial, e, st.elems[e], c, st.elems[e].(telling := None));
  }

  lemma TellStep(sys: System, st: State, t: State, e: nat, d: nat, c: nat)
    requires Inv(sys, st) && st.live && e < sys.g.size && d < sys.g.size && e != d && c < |sys.g.conns|
    requires sys.g.conns[c].src == e && sys.g.conns[c].dst == d
    requires t == st.(elems := t.elems) && Sized(sys, t)
    requires t.elems == st.elems[e := st.elems[e].(telling := None)]
                                [d := TellElem(sys, st.elems[d], |Ins(sys.g, d)|, Told(sys, st, c))]
    requires InOrder(sys, st.origin, st.serial, e, t.elems[e]) && InOrder(sys, st.origin, st.serial, d, t.elems[d])
    requires st.origin.base <= Told(sys, st, c) && Told(sys, t, c) == Told(sys, st, c) + 1
    requires forall k | k in Outs(sys.g, e) && k != c :: ToldBy(t.elems[e], k) == ToldBy(st.elems[e], k)
    requires SameTold(sys.g, d, st.elems[d], t.elems[d])
    requires SameGot(sys.g, e, st.elems[e], t.elems[e], {}) && SamePut(sys.g, e, st.elems[e], t.elems[e], {})
    requires SameGot(sys.g, d, st.elems[d], t.elems[d], {}) && SamePut(sys.g, d, st.elems[d], t.elems[d], {})
    requires SameBoard(st.elems[e], t.elems[e])
    ensures Inv(sys, t)
  {
    var m := st.(elems := st.elems[e := t.elems[e]]);
    ElementsFrame(sys, st, m, e, t.elems[e]);
    ElementsFrame(sys, m, t, d, t.elems[d]);
    ChannelsFrame(sys, st, m, e, t.elems[e], {});
    ChannelsFrame(sys, m, t, d, t.elems[d], {});
    TellOthers(sys, st, t, e, d, c);
    TellBoards(sys, st, t, e, d, c, Told(sys, st, c));
  }

  lemma TellOthers(sys: System, st: State, t: State, e: nat, d: nat, c: nat)
    requires Sound(sys) && Sized(sys, st) && Sized(sys, t) && e < sys.g.size && d < sys.g.size
    requires forall f: nat | f < sys.g.size && f != e && f != d :: t.elems[f] == st.elems[f]
    requires forall k | k in Outs(sys.g, e) && k != c :: ToldBy(t.elems[e], k) == ToldBy(st.elems[e], k)
    requires e != d && SameTold(sys.g, d, st.elems[d], t.elems[d])
    ensures forall k: nat | k < |sys.g.conns| && k != c :: Told(sys, t, k) == Told(sys, st, k)
  {
    forall k: nat | k < |sys.g.conns| && k != c ensures Told(sys, t, k) == Told(sys, st, k) {
      assert k in Outs(sys.g, sys.g.conns[k].src);
    }
  }

  // ----- start and stop -----

  lemma StartScores(sys: System, st: State, t: State, f: nat)
    requires Sound(sys) && Sized(sys, st) && t == StartAll(sys, st)
    requires f < sys.g.size && f !in sys.g.producers && Unused(st.elems[f], st.serial)
    ensures Scored(sys, t, f)
  {
    var c :| c in Ins(sys.g, f);
    assert Told(sys, t, c) == t.serial;
    forall s: nat | s >= t.serial ensures Announced(sys, t, f, s) == {} {
      assert forall d | d in Ins(sys.g, f) :: Told(sys, t, d) == t.serial;
    }
  }

  lemma StartKeeps(sys: System, st: State)
    requires Inv(sys, st) && Enabled(sys, st, Start)
    ensures Inv(sys, Next(sys, st, Start))
  {
    var t := Next(sys, st, Start);
    forall f: nat | f < sys.g.size
      ensures Lifecycle(sys.g, f, t.elems[f], true, t.origin.base, t.serial) && Unused(t.elems[f], t.serial)
           && Faithful(sys, t.origin, f, t.elems[f]) && st.elems[f].phase == Undefined
    {
      assert Lifecycle(sys.g, f, st.elems[f], st.live, st.origin.base, st.serial) && Unused(st.elems[f], st.serial);
    }
    forall f: nat | f < sys.g.size && f !in sys.g.producers ensures Scored(sys, t, f) {
      assert Unused(st.elems[f], st.serial);
      StartScores(sys, st, t, f);
    }
    forall c: nat | c < |sys.g.conns| ensures Flowing(sys, t, c) {
      assert Flowing(sys, st, c);
    }
  }

  lemma StopKeeps(sys: System, st: State)
    requires Inv(sys, st) && Enabled(sys, st, FinishStop)
    ensures Inv(sys, Next(sys, st, FinishStop))
  {
    forall f: nat | f < sys.g.size ensures st.elems[f].phase == Started && Unused(st.elems[f], st.serial) {
      assert Lifecycle(sys.g, f, st.elems[f], st.live, st.origin.base, st.serial);
    }
  }
}
