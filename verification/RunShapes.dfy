/** What one run of an element changes, step by step, in terms of the transition system. */
module RunShapes {
  import opened PipelineGraph
  import opened PipelineSteps
  import opened PipelineInvariant
  import opened PipelineSafety
  import opened PipelineRuns
  import opened PipelineReach

  /** t differs from st in the run of e, in scoreboards and ready queues, and in queues. */
  ghost predicate MidRun(sys: System, st: State, t: State, e: nat) {
    && WellFormed(sys.g) && Sized(sys, st) && Sized(sys, t) && e < sys.g.size
    && t == st.(elems := t.elems, queues := t.queues)
    && t.elems[e] == st.elems[e].(pending := t.elems[e].pending, outbox := t.elems[e].outbox)
    && forall d: nat | d < sys.g.size && d != e ::
         t.elems[d] == st.elems[d].(lookup := t.elems[d].lookup, ready := t.elems[d].ready)
  }

  // ----- sets of connections gone through in order -----

  ghost function From(s: set<nat>, c: nat): set<nat> { set k | k in s && k >= c }

  lemma FromFirst(s: set<nat>, n: nat)
    requires forall k | k in s :: k < n
    ensures From(s, 0) == s && From(s, n) == {}
  {
  }

  lemma FromNext(s: set<nat>, c: nat)
    ensures From(s, c + 1) == if c in s then From(s, c) - {c} else From(s, c)
    ensures c in From(s, c) <==> c in s
    ensures c in s ==> s - From(s, c + 1) == s - From(s, c) + {c}
  {
  }

  /** How many of s come before c. */
  ghost function CountBefore(s: set<nat>, c: nat): nat { |s - From(s, c)| }

  lemma CountBeforeNext(s: set<nat>, c: nat)
    ensures CountBefore(s, c + 1) == CountBefore(s, c) + if c in s then 1 else 0
  {
    FromNext(s, c);
    if c in s { assert s - From(s, c + 1) == (s - From(s, c)) + {c}; }
  }

  lemma CountBeforeEnds(s: set<nat>, n: nat)
    requires forall k | k in s :: k < n
    ensures CountBefore(s, 0) == 0 && CountBefore(s, n) == |s|
  {
    FromFirst(s, n);
    assert s - From(s, 0) == {} && s - From(s, n) == s;
  }

  /** What is left of `left` when those of s before c are gone. */
  ghost function Left(left: set<nat>, s: set<nat>, c: nat): set<nat> { left - s + From(s, c) }

  lemma LeftNext(left: set<nat>, s: set<nat>, c: nat)
    ensures Left(left, s, c + 1) == if c in s then Left(left, s, c) - {c} else Left(left, s, c)
    ensures c in s ==> c in Left(left, s, c)
  {
    FromNext(s, c);
  }

  lemma LeftEnds(left: set<nat>, s: set<nat>, n: nat)
    requires s <= left && forall k | k in s :: k < n
    ensures Left(left, s, 0) == left && Left(left, s, n) == left - s
  {
    FromFirst(s, n);
  }

  ghost function OnPin(g: Graph, s: set<nat>, pin: nat): set<nat> {
    set c | c in s && c < |g.conns| && g.conns[c].pin == pin
  }

  /** The connections among s of pins not among pins. */
  ghost function Elsewhere(g: Graph, s: set<nat>, pins: set<nat>): set<nat> {
    set c | c in s && c < |g.conns| && g.conns[c].pin !in pins
  }

  lemma ElsewhereWithout(g: Graph, s: set<nat>, pins: set<nat>, pin: nat)
    ensures Elsewhere(g, s, pins + {pin}) == Elsewhere(g, s, pins) - OnPin(g, Elsewhere(g, s, pins), pin)
  {
  }

  // ----- taking -----

  /** Running, with an item waiting on every input still to take. */
  ghost predicate CanTake(sys: System, st: State, e: nat) {
    && WellFormed(sys.g) && Sized(sys, st) && e < sys.g.size
    && st.elems[e].phase == Running && st.elems[e].pending == Ins(sys.g, e)
    && forall c | c in Ins(sys.g, e) :: st.queues[c] != []
  }

  /** Since st, e has taken one item from each input not in left. */
  ghost predicate Taking(sys: System, st: State, t: State, e: nat, left: set<nat>) {
    && MidRun(sys, st, t, e) && t.elems[e].pending == left && t.elems[e].outbox == st.elems[e].outbox
    && (forall d: nat | d < sys.g.size && d != e :: t.elems[d] == st.elems[d])
    && forall c: nat | c < |sys.g.conns| ::
         t.queues[c] == if c in Ins(sys.g, e) - left && st.queues[c] != [] then st.queues[c][1..] else st.queues[c]
  }

  lemma TakeOne(sys: System, st: State, t: State, e: nat, left: set<nat>, c: nat)
    requires CanTake(sys, st, e) && Taking(sys, st, t, e, left) && Reaches(sys, st, t)
    requires c in left && left <= Ins(sys.g, e)
    ensures Enabled(sys, t, Take(c)) && t.queues[c] == st.queues[c]
    ensures Taking(sys, st, TakeItem(sys, t, c), e, left - {c}) && Reaches(sys, st, TakeItem(sys, t, c))
  {
    ReachesOn(sys, st, t, Take(c));
  }

  /** The payloads taken from the inputs before connection c. */
  ghost predicate Gathered(sys: System, st: State, e: nat, c: nat, inputs: map<nat, Option<Payload>>)
    requires |st.queues| == |sys.g.conns|
  {
    && inputs.Keys == Ins(sys.g, e) - From(Ins(sys.g, e), c)
    && forall k | k in inputs :: inputs[k] == Heads(sys, st, e)[k]
  }

  lemma GatherNext(sys: System, st: State, e: nat, c: nat, inputs: map<nat, Option<Payload>>)
    requires CanTake(sys, st, e) && c < |sys.g.conns| && Gathered(sys, st, e, c, inputs)
    ensures c in Ins(sys.g, e) ==> Gathered(sys, st, e, c + 1, inputs[c := st.queues[c][0].payload])
    ensures c !in Ins(sys.g, e) ==> Gathered(sys, st, e, c + 1, inputs)
  {
    FromNext(Ins(sys.g, e), c);
  }

  // ----- sending -----

  /** Running, with every consumer still to be sent to behind this run. */
  ghost predicate CanSend(sys: System, st: State, e: nat) {
    && WellFormed(sys.g) && Sized(sys, st) && e < sys.g.size
    && st.elems[e].phase == Running && st.elems[e].telling.None?
    && st.elems[e].outbox <= Outs(sys.g, e) <= st.elems[e].values.Keys
    && forall c | c in Outs(sys.g, e) :: st.elems[sys.g.conns[c].dst].serial < st.elems[e].serial
  }

  /** Since st, e has put its item on each output connection of st's outbox not in left, and told the consumer. */
  ghost predicate Sending(sys: System, st: State, t: State, e: nat, left: set<nat>) {
    && MidRun(sys, st, t, e) && t.elems[e].outbox == left <= st.elems[e].outbox && t.elems[e].pending == st.elems[e].pending
    && forall c: nat | c < |sys.g.conns| ::
         t.queues[c] == if c in st.elems[e].outbox - left && c in st.elems[e].values
                        then st.queues[c] + [Data(st.elems[e].serial, st.elems[e].values[c])] else st.queues[c]
  }

  /** Pushes to connection c and tells its consumer. */
  function PutItem(sys: System, st: State, c: nat): State
    requires WellFormed(sys.g) && Sized(sys, st) && c < |sys.g.conns| && c in st.elems[sys.g.conns[c].src].values
  {
    TellConsumer(sys, PushItem(sys, st, c), sys.g.conns[c].src)
  }

  /** What the objects show of an element in state el is what they show in state after. */
  ghost predicate LooksSame(el: Elem, after: Elem) {
    && after.phase == el.phase && after.serial == el.serial && after.memory == el.memory && after.lookup == el.lookup
    && after.ready == el.ready && after.running == el.running
  }

  /** Of the elements only the consumer looks different after a put. */
  lemma PutShows(sys: System, st: State, c: nat, t: State)
    requires WellFormed(sys.g) && Sized(sys, st) && c < |sys.g.conns| && c in st.elems[sys.g.conns[c].src].values
    requires t == PutItem(sys, st, c)
    ensures Sized(sys, t) && t.serial == st.serial && t.live == st.live
    ensures var e, d := sys.g.conns[c].src, sys.g.conns[c].dst;
      && t.queues == st.queues[c := st.queues[c] + [Data(st.elems[e].serial, st.elems[e].values[c])]]
      && t.elems[d] == TellElem(sys, st.elems[d], |Ins(sys.g, d)|, st.elems[e].serial)
      && forall f: nat | f < sys.g.size && f != d :: LooksSame(st.elems[f], t.elems[f])
  {
  }

  lemma PutOne(sys: System, st: State, t: State, e: nat, left: set<nat>, c: nat)
    requires CanSend(sys, st, e) && Sending(sys, st, t, e, left) && c in left
    ensures Enabled(sys, t, Push(c)) && sys.g.conns[c].src == e && c in t.elems[e].values
    ensures t.elems[e].serial == st.elems[e].serial && t.elems[e].values[c] == st.elems[e].values[c]
    ensures t.elems[sys.g.conns[c].dst].serial < t.elems[e].serial
    ensures Sending(sys, st, PutItem(sys, t, c), e, left - {c})
  {
    assert c in Outs(sys.g, e);
    var d := sys.g.conns[c].dst;
    assert t.elems[d] == st.elems[d].(lookup := t.elems[d].lookup, ready := t.elems[d].ready);
  }

  lemma PutReaches(sys: System, st: State, t: State, c: nat)
    requires Reaches(sys, st, t) && Enabled(sys, t, Push(c))
    ensures Reaches(sys, st, PutItem(sys, t, c))
  {
    ReachesOn(sys, st, t, Push(c));
    ReachesOn(sys, st, PushItem(sys, t, c), Tell(sys.g.conns[c].src));
  }

  // ----- the whole run -----

  /** A dispatched element of a reachable state can begin, take and send. */
  lemma RunBegins(sys: System, st: State, e: nat)
    requires Inv(sys, st) && e < sys.g.size && st.elems[e].phase == Dispatched
    ensures st.live && Enabled(sys, st, Begin(e)) && st.elems[e].running == Some(st.elems[e].next)
    ensures HeadsAgree(sys, st, e, st.elems[e].next) && st.elems[e].serial < st.elems[e].next
    ensures CanTake(sys, BeginRun(sys, st, e), e) && CanSend(sys, BeginRun(sys, st, e), e)
  {
    assert Lifecycle(sys.g, e, st.elems[e], st.live, st.origin.base, st.serial);
    ElementIsInOrder(sys, st, e);
    HeadsAreInputs(sys, st, e);
    forall c | c in Outs(sys.g, e) ensures st.elems[sys.g.conns[c].dst].serial < st.elems[e].next {
      ConsumerIsBehind(sys, st, e, c);
    }
  }

  lemma ConsumerIsBehind(sys: System, st: State, e: nat, c: nat)
    requires Inv(sys, st) && st.live && e < sys.g.size && st.elems[e].phase == Dispatched && c in Outs(sys.g, e)
    ensures st.elems[sys.g.conns[c].dst].serial < st.elems[e].next
  {
    var d := sys.g.conns[c].dst;
    assert Lifecycle(sys.g, d, st.elems[d], st.live, st.origin.base, st.serial);
    assert Scored(sys, st, d);
    assert c in Ins(sys.g, d);
  }

  /** What a run will send on an output connection is what the reference evaluation puts there. */
  lemma RunValues(sys: System, st: State, e: nat, c: nat)
    requires Inv(sys, st) && e < sys.g.size && st.elems[e].phase == Dispatched && c in Outs(sys.g, e)
    ensures st.live && Enabled(sys, st, Begin(e)) && st.origin.base <= st.elems[e].next
    ensures c in BeginRun(sys, st, e).elems[e].values
    ensures BeginRun(sys, st, e).elems[e].values[c] == ValueAt(sys, st.origin, c, st.elems[e].next)
  {
    RunBegins(sys, st, e);
    StepKeeps(sys, st, Begin(e));
    assert Faithful(sys, st.origin, e, BeginRun(sys, st, e).elems[e]);
  }

  lemma RunMemory(sys: System, st: State, e: nat)
    requires Inv(sys, st) && e < sys.g.size && st.elems[e].phase == Dispatched
    ensures st.live && Enabled(sys, st, Begin(e)) && st.origin.base <= st.elems[e].next
    ensures BeginRun(sys, st, e).elems[e].memory == RunAt(sys, st.origin, e, st.elems[e].next).0
  {
    RunBegins(sys, st, e);
    StepKeeps(sys, st, Begin(e));
    assert Faithful(sys, st.origin, e, BeginRun(sys, st, e).elems[e]);
  }

  lemma TakenCanSend(sys: System, b: State, t: State, e: nat)
    requires CanSend(sys, b, e) && Taking(sys, b, t, e, {})
    ensures CanSend(sys, t, e) && Sending(sys, t, t, e, t.elems[e].outbox) && t.elems[e].values == b.elems[e].values
  {
    forall c | c in Outs(sys.g, e) ensures t.elems[sys.g.conns[c].dst].serial < t.elems[e].serial {
      assert t.elems[sys.g.conns[c].dst] == b.elems[sys.g.conns[c].dst];
    }
  }

  /** b, in which a run of e has begun, holds what the user's code computes from memory and the heads of the inputs. */
  ghost predicate Computed(sys: System, b: State, e: nat, memory: Memory)
    requires Sized(sys, b) && e < sys.g.size
  {
    var (after, outs) := RunOnce(sys, e, memory, b.elems[e].serial, Heads(sys, b, e));
    && b.elems[e].memory == after
    && forall c | c in Outs(sys.g, e) && c in b.elems[e].values :: b.elems[e].values[c] == Sent(outs, sys.g.conns[c].pin)
  }

  /** A run that is skipped leaves the memory as it was and sends nothing but NULL. */
  lemma SkippedComputes(sys: System, b: State, e: nat, memory: Memory)
    requires Sized(sys, b) && e < sys.g.size && Computed(sys, b, e, memory) && NullDetected(sys.g, Heads(sys, b, e))
    ensures b.elems[e].memory == memory
    ensures forall c | c in Outs(sys.g, e) && c in b.elems[e].values :: b.elems[e].values[c] == None
  {
  }

  /**
   * The whole run of serial s: one item of that serial less on every input, the
   * reference value of that serial more on every output, the reference memory
   * left behind, and nothing else touched but consumers' boards.
   */
  ghost predicate RanOnce(sys: System, st: State, t: State, e: nat)
    requires Sound(sys) && Sized(sys, st) && e < sys.g.size
  {
    var s := st.elems[e].next;
    && Sized(sys, t) && st.origin.base <= s && t == st.(elems := t.elems, queues := t.queues)
    && t.elems[e].phase == Done && t.elems[e].next == s + 1 && t.elems[e].serial == s
    && t.elems[e].memory == RunAt(sys, st.origin, e, s).0
    && (forall d: nat | d < sys.g.size && d != e ::
          t.elems[d] == st.elems[d].(lookup := t.elems[d].lookup, ready := t.elems[d].ready))
    && (forall c | c in Ins(sys.g, e) :: st.queues[c] != [] && st.queues[c][0].serial == s && t.queues[c] == st.queues[c][1..])
    && (forall c | c in Outs(sys.g, e) :: t.queues[c] == st.queues[c] + [Data(s, ValueAt(sys, st.origin, c, s))])
    && forall c: nat | c < |sys.g.conns| && c !in Ins(sys.g, e) && c !in Outs(sys.g, e) :: t.queues[c] == st.queues[c]
  }

  /** What the first item of every input of e carries. */
  ghost function Front(sys: System, st: State, e: nat): map<nat, Option<Payload>>
    requires Sized(sys, st) && forall c | c in Ins(sys.g, e) :: st.queues[c] != []
  {
    map c | c in Ins(sys.g, e) :: st.queues[c][0].payload
  }

  /**
   * The whole run in terms of the queues: unless a guaranteed input has NULL in
   * front, the user's code runs on what all inputs have in front and its outputs
   * are sent, NULL where it put nothing; if one has, nothing is remembered and
   * NULL is sent on every output.
   */
  ghost predicate RunComputes(sys: System, st: State, t: State, e: nat)
    requires Sized(sys, st) && e < sys.g.size
  {
    var s := st.elems[e].next;
    && Sized(sys, t) && (forall c | c in Ins(sys.g, e) :: st.queues[c] != [])
    && if exists c :: c in Ins(sys.g, e) && sys.g.conns[c].guaranteed && st.queues[c][0].payload.None? then
         && t.elems[e].memory == st.elems[e].memory
         && forall c | c in Outs(sys.g, e) :: t.queues[c] == st.queues[c] + [Data(s, None)]
       else
         var (memory, outs) := sys.b.process(e, st.elems[e].memory, s, Front(sys, st, e));
         && t.elems[e].memory == memory
         && forall c | c in Outs(sys.g, e) ::
              t.queues[c] == st.queues[c] + [Data(s, if sys.g.conns[c].pin in outs then Some(outs[sys.g.conns[c].pin]) else None)]
  }

  lemma NullInFront(sys: System, st: State, e: nat)
    requires Sized(sys, st) && forall c | c in Ins(sys.g, e) :: st.queues[c] != []
    ensures NullDetected(sys.g, Heads(sys, st, e)) <==>
              exists c :: c in Ins(sys.g, e) && sys.g.conns[c].guaranteed && st.queues[c][0].payload.None?
    ensures Heads(sys, st, e) == Front(sys, st, e)
  {
    var heads := Heads(sys, st, e);
    if c :| c in Ins(sys.g, e) && sys.g.conns[c].guaranteed && st.queues[c][0].payload.None? {
      assert c in heads && heads[c].None?;
    }
  }

  /** A run as the reference evaluation has it computes what the heads of the queues say. */
  lemma RunIsComputed(sys: System, st: State, t: State, e: nat)
    requires Inv(sys, st) && st.live && e < sys.g.size && st.elems[e].phase == Dispatched && RanOnce(sys, st, t, e)
    ensures RunComputes(sys, st, t, e)
  {
    var s := st.elems[e].next;
    HeadsAreInputs(sys, st, e);
    NullInFront(sys, st, e);
    assert st.elems[e].memory == MemoryAt(sys, st.origin, e, s) by { assert Faithful(sys, st.origin, e, st.elems[e]); }
    FrontDecides(sys, st.origin, e, s, Front(sys, st, e));
  }

  /** The laws of the evaluation, for the inputs that are in front of the queues. */
  lemma FrontDecides(sys: System, o: Origin, e: nat, s: nat, front: map<nat, Option<Payload>>)
    requires Sound(sys) && |o.memory| == sys.g.size && e < sys.g.size && o.base <= s
    requires front == InputsAt(sys, o, e, s)
    ensures RunAt(sys, o, e, s).0 == MemoryAt(sys, o, e, s + 1)
    ensures if exists c :: c in Ins(sys.g, e) && sys.g.conns[c].guaranteed && front[c].None? then
              && MemoryAt(sys, o, e, s + 1) == MemoryAt(sys, o, e, s)
              && forall c | c in Outs(sys.g, e) :: ValueAt(sys, o, c, s) == None
            else
              var (memory, outs) := sys.b.process(e, MemoryAt(sys, o, e, s), s, front);
              && MemoryAt(sys, o, e, s + 1) == memory
              && forall c | c in Outs(sys.g, e) ::
                   ValueAt(sys, o, c, s) == if sys.g.conns[c].pin in outs then Some(outs[sys.g.conns[c].pin]) else None
  {
    assert front == map c | c in Ins(sys.g, e) :: ValueAt(sys, o, c, s);
    if Supplied(sys, o, e, s) {
      RunProcesses(sys, o, e, s);
    } else {
      RunSkips(sys, o, e, s);
    }
  }

  lemma SentValues(sys: System, st: State, b: State, t: State, u: State, e: nat)
    requires Inv(sys, st) && e < sys.g.size && st.elems[e].phase == Dispatched && st.elems[e].running.Some? && b == BeginRun(sys, st, e)
    requires CanSend(sys, b, e) && Taking(sys, b, t, e, {}) && Sending(sys, t, u, e, {})
    ensures st.origin.base <= st.elems[e].next
    ensures forall c | c in Outs(sys.g, e) ::
              u.queues[c] == st.queues[c] + [Data(st.elems[e].next, ValueAt(sys, st.origin, c, st.elems[e].next))]
  {
    RunBegins(sys, st, e);
    RunMemory(sys, st, e);
    forall c | c in Outs(sys.g, e)
      ensures u.queues[c] == st.queues[c] + [Data(st.elems[e].next, ValueAt(sys, st.origin, c, st.elems[e].next))]
    {
      RunValues(sys, st, e, c);
    }
  }

  lemma TakenItems(sys: System, st: State, b: State, t: State, u: State, e: nat)
    requires WellFormed(sys.g) && Sized(sys, st) && e < sys.g.size && st.elems[e].running.Some? && b == BeginRun(sys, st, e)
    requires HeadsAgree(sys, st, e, st.elems[e].next)
    requires Taking(sys, b, t, e, {}) && Sending(sys, t, u, e, {})
    ensures forall c | c in Ins(sys.g, e) ::
              st.queues[c] != [] && st.queues[c][0].serial == st.elems[e].next && u.queues[c] == st.queues[c][1..]
    ensures forall c: nat | c < |sys.g.conns| && c !in Ins(sys.g, e) && c !in Outs(sys.g, e) :: u.queues[c] == st.queues[c]
  {
    assert t.elems[e].outbox == Outs(sys.g, e);
  }

  lemma RunEnds(sys: System, st: State, b: State, t: State, u: State, e: nat)
    requires Inv(sys, st) && e < sys.g.size && st.elems[e].phase == Dispatched && st.elems[e].running.Some? && b == BeginRun(sys, st, e)
    requires CanSend(sys, b, e) && Taking(sys, b, t, e, {}) && Sending(sys, t, u, e, {})
    ensures Enabled(sys, u, Finish(e)) && RanOnce(sys, st, FinishRun(u, e), e)
  {
    RunBegins(sys, st, e);
    RunMemory(sys, st, e);
    SentValues(sys, st, b, t, u, e);
    TakenItems(sys, st, b, t, u, e);
    RunFault(sys, st, e);
    RunElements(sys, st, b, t, u, e);
  }

  lemma RunFault(sys: System, st: State, e: nat)
    requires Inv(sys, st) && e < sys.g.size && st.elems[e].phase == Dispatched && st.elems[e].running.Some?
    ensures BeginRun(sys, st, e).fault == st.fault
  {
    RunBegins(sys, st, e);
  }

  lemma RunElements(sys: System, st: State, b: State, t: State, u: State, e: nat)
    requires WellFormed(sys.g) && Sized(sys, st) && e < sys.g.size && st.elems[e].running == Some(st.elems[e].next)
    requires b == BeginRun(sys, st, e)
    requires Taking(sys, b, t, e, {}) && Sending(sys, t, u, e, {}) && CanSend(sys, b, e)
    ensures Enabled(sys, u, Finish(e))
    ensures var el := FinishRun(u, e).elems[e];
            el.phase == Done && el.next == st.elems[e].next + 1 && el.serial == st.elems[e].next && el.memory == b.elems[e].memory
    ensures forall d: nat | d < sys.g.size && d != e ::
              FinishRun(u, e).elems[d] == st.elems[d].(lookup := u.elems[d].lookup, ready := u.elems[d].ready)
  {
  }

  /** Between runs, the item at the head of any input carries the serial of the next run. */
  lemma HeadsAreNext(sys: System, st: State, e: nat)
    requires Inv(sys, st) && e < sys.g.size && BelowDispatched(st.elems[e])
    ensures forall c | c in Ins(sys.g, e) && st.queues[c] != [] :: st.queues[c][0].serial == st.elems[e].next
  {
    forall c | c in Ins(sys.g, e) && st.queues[c] != [] ensures st.queues[c][0].serial == st.elems[e].next {
      assert Flowing(sys, st, c);
    }
  }
}
