/** What every reachable state of the pipeline satisfies, and that every step keeps it. */
module PipelineInvariant {
  import opened PipelineGraph
  import opened PipelineSteps

  predicate InRun(el: Elem) { el.phase == Dispatched || el.phase == Running }

  /** The serial of the next run to dispatch. */
  function Dispatching(el: Elem): nat { el.next + if InRun(el) then 1 else 0 }

  /** The serial after the last complete row. */
  function Complete(el: Elem): nat { Dispatching(el) + |el.ready| }

  /** Serials taken from, pushed to and announced on connection c: each the first serial not yet. */
  function GotBy(el: Elem, c: nat): nat { el.next + if el.phase == Running && c !in el.pending then 1 else 0 }

  function PutBy(el: Elem, c: nat): nat { el.next + if el.phase == Running && c !in el.outbox then 1 else 0 }

  function ToldBy(el: Elem, c: nat): nat {
    el.next + if el.phase == Running && c !in el.outbox && el.telling != Some(c) then 1 else 0
  }

  function Got(sys: System, st: State, c: nat): nat
    requires Sized(sys, st) && WellFormed(sys.g) && c < |sys.g.conns|
  {
    GotBy(st.elems[sys.g.conns[c].dst], c)
  }

  function Put(sys: System, st: State, c: nat): nat
    requires Sized(sys, st) && WellFormed(sys.g) && c < |sys.g.conns|
  {
    PutBy(st.elems[sys.g.conns[c].src], c)
  }

  function Told(sys: System, st: State, c: nat): nat
    requires Sized(sys, st) && WellFormed(sys.g) && c < |sys.g.conns|
  {
    ToldBy(st.elems[sys.g.conns[c].src], c)
  }

  // ----- one element -----

  /** Phase, run queue entry and the bookkeeping of a run agree. */
  ghost predicate Lifecycle(g: Graph, e: nat, el: Elem, live: bool, base: nat, serial: nat) {
    && (live ==> WasStarted(el) && el.phase != Failed && base <= el.next && Dispatching(el) <= serial)
    && (!live ==> el.phase == Undefined && el.serial == 0)
    && (el.running.None? <==> BelowDispatched(el))
    && (InRun(el) ==> el.running == Some(el.next))
    && (el.phase == Done ==> el.next >= 1 && el.running == Some(el.next - 1))
    && (el.phase == Running ==> el.serial == el.next)
    && (el.phase != Running ==> el.telling.None? && (live ==> el.serial < el.next))
    && (el.phase == Running ==>
          && el.pending <= Ins(g, e) && el.outbox <= Outs(g, e) <= el.values.Keys
          && (el.telling.Some? ==> el.telling.value in Outs(g, e) && el.telling.value !in el.outbox))
    && (e in g.producers && live ==> Dispatching(el) == serial && el.ready == [])
  }

  /** What an element remembers, and what it is about to send, is what the reference evaluation says. */
  ghost predicate Faithful(sys: System, o: Origin, e: nat, el: Elem)
    requires Sound(sys) && e < sys.g.size && |o.memory| == sys.g.size
  {
    && o.base <= el.next
    && if el.phase == Running then
         && el.memory == RunAt(sys, o, e, el.next).0
         && Outs(sys.g, e) <= el.values.Keys
         && forall c | c in Outs(sys.g, e) :: el.values[c] == ValueAt(sys, o, c, el.next)
       else
         el.memory == MemoryAt(sys, o, e, el.next)
  }

  /** The pins of e that have announced serial s. */
  ghost function Announced(sys: System, st: State, e: nat, s: nat): (r: set<nat>)
    requires Sized(sys, st) && WellFormed(sys.g) && e < sys.g.size
    ensures r <= Ins(sys.g, e)
  {
    set c | c in Ins(sys.g, e) && s < Told(sys, st, c)
  }

  /**
   * The scoreboard counts, for each incomplete serial of the session, the pins
   * that announced it; the ready queue holds the complete serials not yet
   * dispatched, in order and without a gap.
   */
  ghost predicate Scored(sys: System, st: State, e: nat)
    requires Sized(sys, st) && WellFormed(sys.g) && e < sys.g.size
  {
    var el := st.elems[e];
    && (forall k | 0 <= k < |el.ready| :: el.ready[k] == Dispatching(el) + k)
    && (forall c | c in Ins(sys.g, e) :: Complete(el) <= Told(sys, st, c))
    && (exists c :: c in Ins(sys.g, e) && Told(sys, st, c) == Complete(el))
    && (forall s :: s in el.lookup && s >= st.origin.base ==> Complete(el) <= s && el.lookup[s] == |Announced(sys, st, e, s)|)
    && (forall s: nat :: s >= Complete(el) && s !in el.lookup ==> Announced(sys, st, e, s) == {})
  }

  /** No scoreboard of the pipeline, stale entries included, has seen a serial not handed out yet. */
  ghost predicate Unused(el: Elem, serial: nat) {
    forall s :: s in el.lookup ==> s < serial
  }

  // ----- one connection -----

  /** The queue of c holds exactly the serials from got up to put, each with its reference value. */
  ghost predicate Carries(sys: System, o: Origin, c: nat, got: nat, put: nat, q: seq<Data>)
    requires Sound(sys) && |o.memory| == sys.g.size && c < |sys.g.conns| && o.base <= got
  {
    && |q| == put - got
    && forall k: nat | k < |q| :: q[k] == Data(got + k, ValueAt(sys, o, c, got + k))
  }

  /** The queue holds exactly the serials pushed and not taken, each with its reference value. */
  ghost predicate Flowing(sys: System, st: State, c: nat)
    requires Sized(sys, st) && Sound(sys) && c < |sys.g.conns|
  {
    if st.live then
      st.origin.base <= Got(sys, st, c) && Carries(sys, st.origin, c, Got(sys, st, c), Put(sys, st, c), st.queues[c])
    else
      st.queues[c] == []
  }

  // ----- the whole -----

  ghost predicate Elements(sys: System, st: State)
    requires Sound(sys) && Sized(sys, st)
  {
    && (forall e: nat | e < sys.g.size :: Lifecycle(sys.g, e, st.elems[e], st.live, st.origin.base, st.serial))
    && (forall e: nat | e < sys.g.size :: Unused(st.elems[e], st.serial))
    && (st.live ==> forall e: nat | e < sys.g.size :: Faithful(sys, st.origin, e, st.elems[e]))
  }

  ghost predicate Boards(sys: System, st: State)
    requires Sound(sys) && Sized(sys, st)
  {
    st.live ==> forall e: nat | e < sys.g.size && e !in sys.g.producers :: Scored(sys, st, e)
  }

  ghost predicate Channels(sys: System, st: State)
    requires Sound(sys) && Sized(sys, st)
  {
    forall c: nat | c < |sys.g.conns| :: Flowing(sys, st, c)
  }

  ghost predicate Inv(sys: System, st: State) {
    && Sound(sys) && Sized(sys, st) && !st.fault && st.serial >= 1 && st.origin.base >= 1
    && Elements(sys, st) && Boards(sys, st) && Channels(sys, st)
  }

  lemma InitialInv(sys: System, memory: seq<Memory>)
    requires Sound(sys) && |memory| == sys.g.size
    ensures Inv(sys, Initial(sys, memory))
  {
  }

  // ----- frames: one element changes -----

  /** t is st with element e replaced by el. */
  ghost predicate Replaces(sys: System, st: State, t: State, e: nat, el: Elem)
    requires Sized(sys, st) && e < sys.g.size
  {
    && Sized(sys, t) && t.elems == st.elems[e := el] && t.origin == st.origin && t.serial == st.serial
    && st.live && t.live
  }

  /** el is in order as element e of a live pipeline. */
  ghost predicate InOrder(sys: System, o: Origin, serial: nat, e: nat, el: Elem)
    requires Sound(sys) && e < sys.g.size && |o.memory| == sys.g.size
  {
    Lifecycle(sys.g, e, el, true, o.base, serial) && Unused(el, serial) && Faithful(sys, o, e, el)
  }

  ghost predicate SameGot(g: Graph, e: nat, el: Elem, after: Elem, except: set<nat>) {
    forall c | c in Ins(g, e) && c !in except :: GotBy(after, c) == GotBy(el, c)
  }

  ghost predicate SamePut(g: Graph, e: nat, el: Elem, after: Elem, except: set<nat>) {
    forall c | c in Outs(g, e) && c !in except :: PutBy(after, c) == PutBy(el, c)
  }

  ghost predicate SameTold(g: Graph, e: nat, el: Elem, after: Elem) {
    forall c | c in Outs(g, e) :: ToldBy(after, c) == ToldBy(el, c)
  }

  ghost predicate SameBoard(el: Elem, after: Elem) {
    after.ready == el.ready && after.lookup == el.lookup && Dispatching(after) == Dispatching(el)
  }

  lemma ElementIsInOrder(sys: System, st: State, e: nat)
    requires Inv(sys, st) && st.live && e < sys.g.size
    ensures InOrder(sys, st.origin, st.serial, e, st.elems[e])
  {
  }

  lemma ElementsFrame(sys: System, st: State, t: State, e: nat, el: Elem)
    requires Sound(sys) && Sized(sys, st) && Elements(sys, st) && e < sys.g.size
    requires Replaces(sys, st, t, e, el) && InOrder(sys, t.origin, t.serial, e, el)
    ensures Elements(sys, t)
  {
    forall f: nat | f < sys.g.size
      ensures Lifecycle(sys.g, f, t.elems[f], true, t.origin.base, t.serial) && Unused(t.elems[f], t.serial)
           && Faithful(sys, t.origin, f, t.elems[f])
    {
      if f != e { assert t.elems[f] == st.elems[f]; }
    }
  }

  lemma ScoredFrame(sys: System, st: State, t: State, e: nat)
    requires Sized(sys, st) && Sized(sys, t) && WellFormed(sys.g) && e < sys.g.size
    requires Scored(sys, st, e) && t.origin.base == st.origin.base && SameBoard(st.elems[e], t.elems[e])
    requires forall c | c in Ins(sys.g, e) :: Told(sys, t, c) == Told(sys, st, c)
    ensures Scored(sys, t, e)
  {
    assert forall s :: Announced(sys, t, e, s) == Announced(sys, st, e, s);
  }

  lemma ToldFrame(sys: System, st: State, t: State, e: nat, el: Elem)
    requires Sound(sys) && Sized(sys, st) && e < sys.g.size && Replaces(sys, st, t, e, el)
    requires SameTold(sys.g, e, st.elems[e], el)
    ensures forall c: nat | c < |sys.g.conns| :: Told(sys, t, c) == Told(sys, st, c)
  {
    forall c: nat | c < |sys.g.conns| ensures Told(sys, t, c) == Told(sys, st, c) {
      if sys.g.conns[c].src == e { assert c in Outs(sys.g, e); }
    }
  }

  lemma BoardsFrame(sys: System, st: State, t: State, e: nat, el: Elem)
    requires Sound(sys) && Sized(sys, st) && Boards(sys, st) && e < sys.g.size
    requires Replaces(sys, st, t, e, el) && SameBoard(st.elems[e], el) && SameTold(sys.g, e, st.elems[e], el)
    ensures Boards(sys, t)
  {
    ToldFrame(sys, st, t, e, el);
    forall f: nat | f < sys.g.size && f !in sys.g.producers ensures Scored(sys, t, f) {
      ScoredFrame(sys, st, t, f);
    }
  }

  lemma ChannelsFrame(sys: System, st: State, t: State, e: nat, el: Elem, except: set<nat>)
    requires Sound(sys) && Sized(sys, st) && Channels(sys, st) && e < sys.g.size
    requires Replaces(sys, st, t, e, el)
    requires SameGot(sys.g, e, st.elems[e], el, except) && SamePut(sys.g, e, st.elems[e], el, except)
    requires forall c: nat | c < |sys.g.conns| && c !in except :: t.queues[c] == st.queues[c]
    requires forall c: nat | c < |sys.g.conns| && c in except :: Flowing(sys, t, c)
    ensures Channels(sys, t)
  {
    forall c: nat | c < |sys.g.conns| ensures Flowing(sys, t, c) {
      if c !in except {
        assert Flowing(sys, st, c);
        assert c in Ins(sys.g, sys.g.conns[c].dst) && c in Outs(sys.g, sys.g.conns[c].src);
        assert Got(sys, t, c) == Got(sys, st, c) && Put(sys, t, c) == Put(sys, st, c);
      }
    }
  }
}
