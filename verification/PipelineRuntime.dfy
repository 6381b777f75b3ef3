/**
 * The pipeline as it is written: objects whose fields change in place. The ghost
 * field `state` is the state of the transition system they show; every method
 * moves it along steps of that system.
 */
module PipelineRuntime {
  import opened PipelineGraph
  import opened PipelineSteps
  import opened PipelineInvariant
  import opened PipelineReach
  import opened RunShapes
  import opened SchedulerShapes
  import PipelineBounds
  import opened PinConnections
  import opened GraphOrdering

  /**
   * A producer or processor. Each requires is an assertion on the element's state
   * in the program; `succeeds` is what the element's own code answers.
   */
  class PipelineElement {
    const id: nat
    const board: ScoreBoard
    var phase: Phase
    var serial: nat
    var memory: Memory
    /** Output pins put on since the run began. */
    var called: set<nat>

    constructor (id: nat, memory: Memory)
      ensures this.id == id && this.memory == memory && phase == Undefined && serial == 0
      ensures fresh(board) && board.lookup == map[]
    {
      this.id, this.memory, phase, serial, called := id, memory, Undefined, 0, {};
      board := new ScoreBoard();
    }

    method Init(pins: nat, succeeds: bool) returns (ok: bool)
      requires phase == Undefined
      modifies this`phase, board
      ensures ok == succeeds && phase == if ok then Initialized else Failed
      ensures board.pinCount == pins && board.lookup == old(board.lookup)
    {
      board.SetPinCount(pins);
      if !succeeds {
        phase := Failed;
        return false;
      }
      phase := Initialized;
      ok := true;
    }

    method Start(b: Behaviour, succeeds: bool) returns (ok: bool)
      requires phase == Initialized
      modifies this`phase, this`memory
      ensures ok == succeeds && memory == b.start(id, old(memory)) && phase == if ok then Started else Failed
    {
      memory := b.start(id, memory);
      if !succeeds {
        phase := Failed;
        return false;
      }
      phase := Started;
      ok := true;
    }

    method Stop(succeeds: bool) returns (ok: bool)
      requires phase != Undefined && phase != Initialized
      modifies this`phase
      ensures ok == succeeds && phase == if ok then Initialized else Failed
    {
      if !succeeds {
        phase := Failed;
        return false;
      }
      phase := Initialized;
      ok := true;
    }

    method Deinit(succeeds: bool) returns (ok: bool)
      requires phase == Failed || phase == Initialized
      modifies this`phase, this`serial
      ensures ok == succeeds && phase == (if ok then Undefined else Failed) && serial == if ok then 0 else old(serial)
    {
      if !succeeds {
        phase := Failed;
        return false;
      }
      phase, serial := Undefined, 0;
      ok := true;
    }

    method Dispatch()
      requires phase == Started
      modifies this`phase
      ensures phase == Dispatched
    {
      phase := Dispatched;
    }
  }

  class Pipeline {
    const sys: System
    const children: seq<PipelineElement>
    const connections: seq<PinConnection>
    /** Complete rows waiting to be dispatched, and serials dispatched and not reaped, by element. */
    var readyQueue: map<nat, seq<nat>>
    var runQueue: map<nat, nat>
    var serial: nat
    var running: bool
    ghost var state: State

    // ----- what the objects show -----

    ghost function Boards(): set<ScoreBoard> { set e | e in children :: e.board }

    ghost predicate Built() {
      && WellFormed(sys.g) && |children| == sys.g.size && |connections| == |sys.g.conns|
      && (forall e | 0 <= e < |children| :: children[e].id == e)
      && (forall e, f | 0 <= e < f < |children| :: children[e] != children[f] && children[e].board != children[f].board)
      && forall c, d | 0 <= c < d < |connections| :: connections[c] != connections[d]
    }

    function Child(e: nat): PipelineElement requires e < |children| { children[e] }

    ghost function Ready(e: nat): seq<nat> reads this`readyQueue { if e in readyQueue then readyQueue[e] else [] }

    ghost function Entry(e: nat): Option<nat> reads this`runQueue { if e in runQueue then Some(runQueue[e]) else None }

    ghost predicate ShowsElement(e: nat, el: Elem, live: bool)
      requires e < |children|
      reads this`readyQueue, this`runQueue, children[e], children[e].board
    {
      var x := children[e];
      && x.phase == el.phase && x.serial == el.serial && (el.phase != Running ==> x.memory == el.memory)
      && x.board.lookup == el.lookup && (live ==> x.board.pinCount == |Ins(sys.g, e)| && e in readyQueue)
      && Ready(e) == el.ready && Entry(e) == el.running
    }

    ghost predicate Valid()
      reads this, children, connections, Boards()
    {
      && Built() && Sized(sys, state) && serial == state.serial && running == state.live
      && (forall e: nat | e < sys.g.size :: ShowsElement(e, state.elems[e], state.live))
      && (forall c: nat | c < |sys.g.conns| :: connections[c].queue == state.queues[c])
    }

    static method NewElements(memory: seq<Memory>) returns (elements: seq<PipelineElement>)
      ensures |elements| == |memory|
      ensures forall e | 0 <= e < |elements| :: fresh(elements[e]) && fresh(elements[e].board) && elements[e].id == e
      ensures forall e | 0 <= e < |elements| :: elements[e].memory == memory[e] && elements[e].phase == Undefined
      ensures forall e | 0 <= e < |elements| :: elements[e].serial == 0 && elements[e].board.lookup == map[]
      ensures forall e, f | 0 <= e < f < |elements| :: elements[e] != elements[f] && elements[e].board != elements[f].board
    {
      elements := [];
      while |elements| < |memory|
        invariant |elements| <= |memory|
        invariant forall e | 0 <= e < |elements| :: fresh(elements[e]) && fresh(elements[e].board) && elements[e].id == e
        invariant forall e | 0 <= e < |elements| :: elements[e].memory == memory[e] && elements[e].phase == Undefined
        invariant forall e | 0 <= e < |elements| :: elements[e].serial == 0 && elements[e].board.lookup == map[]
        invariant forall e, f | 0 <= e < f < |elements| :: elements[e] != elements[f] && elements[e].board != elements[f].board
      {
        var element := new PipelineElement(|elements|, memory[|elements|]);
        elements := elements + [element];
      }
    }

    static method NewConnections(n: nat) returns (conns: seq<PinConnection>)
      ensures |conns| == n
      ensures forall c | 0 <= c < |conns| :: fresh(conns[c]) && conns[c].queue == []
      ensures forall c, d | 0 <= c < d < |conns| :: conns[c] != conns[d]
    {
      conns := [];
      while |conns| < n
        invariant |conns| <= n
        invariant forall c | 0 <= c < |conns| :: fresh(conns[c]) && conns[c].queue == []
        invariant forall c, d | 0 <= c < d < |conns| :: conns[c] != conns[d]
      {
        var conn := new PinConnection();
        conns := conns + [conn];
      }
    }

    constructor (sys: System, memory: seq<Memory>)
      requires WellFormed(sys.g) && |memory| == sys.g.size
      ensures Valid() && this.sys == sys && state == Initial(sys, memory)
    {
      var elements := NewElements(memory);
      var conns := NewConnections(|sys.g.conns|);
      this.sys, children, connections := sys, elements, conns;
      readyQueue, runQueue, serial, running := map[], map[], 1, false;
      state := Initial(sys, memory);
      new;
      forall e: nat | e < sys.g.size ensures ShowsElement(e, state.elems[e], state.live) {
        assert state.elems[e].memory == memory[e];
      }
    }

    // ----- a run -----

    /** A consumer hears of an item on one of its pins; a complete row is made ready. */
    method NewData(d: nat, s: nat)
      requires d < |children| && d in readyQueue
      requires s > children[d].serial || s == 0
      modifies this`readyQueue, children[d].board
      ensures var (lookup, complete) := ScoreAdd(old(children[d].board.lookup), old(children[d].board.pinCount), s);
              && children[d].board.lookup == lookup && children[d].board.pinCount == old(children[d].board.pinCount)
              && readyQueue == if complete then old(readyQueue)[d := old(readyQueue)[d] + [s]] else old(readyQueue)
    {
      var complete := children[d].board.Add(s);
      if complete {
        readyQueue := readyQueue[d := readyQueue[d] + [s]];
      }
    }

    /** The consumer hears of an item, as its state in the transition system does. */
    method Hear(d: nat, s: nat, ghost el: Elem)
      requires Built() && d < |children| && ShowsElement(d, el, true) && s > el.serial
      modifies this`readyQueue, children[d].board
      ensures ShowsElement(d, TellElem(sys, el, |Ins(sys.g, d)|, s), true)
      ensures forall f: nat | f != d :: Ready(f) == old(Ready(f)) && (f in readyQueue <==> f in old(readyQueue))
    {
      NewData(d, s);
    }

    method Deliver(c: nat, d: nat, data: Data)
      requires Valid() && state.live && c < |sys.g.conns| && sys.g.conns[c].dst == d && state.elems[d].serial < data.serial
      modifies this`readyQueue, connections[c], children[d].board
      ensures Built() && forall k: nat | k < |sys.g.conns| ::
                connections[k].queue == if k == c then state.queues[c] + [data] else state.queues[k]
      ensures forall f: nat | f < sys.g.size && f != d :: ShowsElement(f, state.elems[f], true)
      ensures ShowsElement(d, TellElem(sys, state.elems[d], |Ins(sys.g, d)|, data.serial), true)
    {
      connections[c].Put(data);
      assert ShowsElement(d, state.elems[d], true);
      Hear(d, data.serial, state.elems[d]);
      forall f: nat | f < sys.g.size && f != d ensures ShowsElement(f, state.elems[f], true) {
        assert children[f] != children[d] && children[f].board != children[d].board;
      }
    }

    /** An item is queued on a connection and its consumer told. */
    method Put(c: nat, data: Data)
      requires Valid() && state.live && Enabled(sys, state, Push(c))
      requires var el := state.elems[sys.g.conns[c].src]; data == Data(el.serial, el.values[c])
      requires state.elems[sys.g.conns[c].dst].serial < data.serial
      modifies this`readyQueue, this`state, connections[c], children[sys.g.conns[c].dst].board
      ensures Valid() && state == PutItem(sys, old(state), c)
    {
      ghost var st, t := state, PutItem(sys, state, c);
      PutShows(sys, st, c, t);
      Deliver(c, sys.g.conns[c].dst, data);
      Look(st, t, c, data);
      state := t;
    }

    /** Objects that show st with the item delivered show t, the state after the put. */
    lemma Look(st: State, t: State, c: nat, data: Data)
      requires Built() && Sized(sys, st) && Sized(sys, t) && c < |sys.g.conns|
      requires forall k: nat | k < |sys.g.conns| ::
                 connections[k].queue == if k == c then st.queues[c] + [data] else st.queues[k]
      requires t.queues == st.queues[c := st.queues[c] + [data]]
      requires var d := sys.g.conns[c].dst;
        && ShowsElement(d, t.elems[d], true)
        && forall f: nat | f < sys.g.size && f != d :: ShowsElement(f, st.elems[f], true) && LooksSame(st.elems[f], t.elems[f])
      ensures forall f: nat | f < sys.g.size :: ShowsElement(f, t.elems[f], true)
      ensures forall k: nat | k < |sys.g.conns| :: connections[k].queue == t.queues[k]
    {
    }

    /** The oldest item of a connection is taken; without one the program throws, which the model records as a fault. */
    method Get(c: nat) returns (payload: Option<Payload>, thrown: bool)
      requires Valid() && Enabled(sys, state, Take(c))
      modifies this`state, connections[c]
      ensures Valid() && state == TakeItem(sys, old(state), c) && (thrown <==> old(state).queues[c] == [])
      ensures !thrown ==> payload == old(state).queues[c][0].payload
      ensures state.fault == (old(state).fault || thrown)
    {
      var data := connections[c].Get();
      thrown := data.None?;
      payload := if thrown then None else data.value.payload;
      state := TakeItem(sys, state, c);
    }

    /**
     * Whether a row is waiting on the inputs of a processor, and under which serial.
     * `corrupted` is the error raised when the serials of a row differ.
     */
    method DataAvailableOnInputPins(e: nat) returns (next: Option<nat>, corrupted: bool)
      requires Valid() && Inv(sys, state) && e < sys.g.size && BelowDispatched(state.elems[e])
      ensures !corrupted
      ensures next == if Ins(sys.g, e) != {} && (forall c | c in Ins(sys.g, e) :: state.queues[c] != [])
                      then Some(state.elems[e].next) else None
    {
      HeadsAreNext(sys, state, e);
      var waiting, serials := HeadSerials(e, state.elems[e].next);
      if !waiting || serials == [] { return None, false; }
      corrupted := false;
      var i := 0;
      while i < |serials| && !corrupted
        invariant i <= |serials| && !corrupted
      {
        corrupted := serials[0] != serials[i];
        i := i + 1;
      }
      next := if corrupted then None else Some(serials[0]);
    }

    method HeadSerials(e: nat, ghost n: nat) returns (waiting: bool, serials: seq<nat>)
      requires Valid() && e < sys.g.size
      requires forall c | c in Ins(sys.g, e) && state.queues[c] != [] :: state.queues[c][0].serial == n
      ensures waiting <==> forall c | c in Ins(sys.g, e) :: state.queues[c] != []
      ensures (forall i | 0 <= i < |serials| :: serials[i] == n) && (waiting ==> (serials == [] <==> Ins(sys.g, e) == {}))
    {
      serials := [];
      var c := 0;
      while c < |sys.g.conns|
        invariant c <= |sys.g.conns|
        invariant forall i | 0 <= i < |serials| :: serials[i] == n
        invariant forall k | k in Ins(sys.g, e) && k < c :: state.queues[k] != []
        invariant serials == [] <==> forall k | k in Ins(sys.g, e) :: k >= c
      {
        if sys.g.conns[c].dst == e {
          assert c in Ins(sys.g, e) && connections[c].queue == state.queues[c];
          var data := connections[c].Peek();
          if data.None? { return false, serials; }
          serials := serials + [data.value.serial];
        }
        c := c + 1;
      }
      waiting := true;
    }

    /** Looks at the item on every pin guaranteed data. */
    method PreInput(e: nat) returns (nullDetected: bool)
      requires Valid() && e < sys.g.size && forall c | c in Ins(sys.g, e) :: state.queues[c] != []
      ensures nullDetected <==> exists c :: c in Ins(sys.g, e) && sys.g.conns[c].guaranteed && state.queues[c][0].payload.None?
      ensures nullDetected <==> NullDetected(sys.g, Heads(sys, state, e))
    {
      nullDetected := false;
      var c := 0;
      while c < |sys.g.conns|
        invariant c <= |sys.g.conns|
        invariant nullDetected <==>
                    exists k: nat :: k < c && k in Ins(sys.g, e) && sys.g.conns[k].guaranteed && state.queues[k][0].payload.None?
      {
        if sys.g.conns[c].dst == e && sys.g.conns[c].guaranteed {
          assert c in Ins(sys.g, e) && connections[c].queue == state.queues[c];
          var data := connections[c].Peek();
          if data.value.payload.None? { nullDetected := true; }
        }
        c := c + 1;
      }
      NullInFront(sys, state, e);
    }

    /** Takes the item of connection c if it is an input of e. */
    method TakeFrom(e: nat, c: nat, ghost st: State) returns (payload: Option<Payload>)
      requires Valid() && CanTake(sys, st, e) && c < |sys.g.conns|
      requires Taking(sys, st, state, e, From(Ins(sys.g, e), c)) && Reaches(sys, st, state)
      modifies this`state, connections
      ensures Valid() && Taking(sys, st, state, e, From(Ins(sys.g, e), c + 1)) && Reaches(sys, st, state)
      ensures c in Ins(sys.g, e) ==> payload == st.queues[c][0].payload
    {
      payload := None;
      FromNext(Ins(sys.g, e), c);
      if sys.g.conns[c].dst == e {
        TakeOne(sys, st, state, e, From(Ins(sys.g, e), c), c);
        var thrown;
        payload, thrown := Get(c);
      }
    }

    /** Takes one item from every connected input: a payload is got, a NULL cleared. */
    method GetInputs(e: nat) returns (inputs: map<nat, Option<Payload>>)
      requires Valid() && CanTake(sys, state, e)
      modifies this`state, connections
      ensures Valid() && Taking(sys, old(state), state, e, {}) && Reaches(sys, old(state), state)
      ensures inputs == Heads(sys, old(state), e)
    {
      inputs := map[];
      ghost var st := state;
      ReachesSelf(sys, st);
      FromFirst(Ins(sys.g, e), |sys.g.conns|);
      var c := 0;
      while c < |sys.g.conns|
        invariant c <= |sys.g.conns| && Valid() && Reaches(sys, st, state)
        invariant Taking(sys, st, state, e, From(Ins(sys.g, e), c))
        invariant Gathered(sys, st, e, c, inputs)
      {
        GatherNext(sys, st, e, c, inputs);
        var payload := TakeFrom(e, c, st);
        if sys.g.conns[c].dst == e {
          inputs := inputs[c := payload];
        }
        c := c + 1;
      }
    }

    /** Throws away the first item of every connected input. */
    method FlushFirst(e: nat)
      requires Valid() && CanTake(sys, state, e)
      modifies this`state, connections
      ensures Valid() && Taking(sys, old(state), state, e, {}) && Reaches(sys, old(state), state)
    {
      ghost var st := state;
      ReachesSelf(sys, st);
      FromFirst(Ins(sys.g, e), |sys.g.conns|);
      var c := 0;
      while c < |sys.g.conns|
        invariant c <= |sys.g.conns| && Valid() && Reaches(sys, st, state)
        invariant Taking(sys, st, state, e, From(Ins(sys.g, e), c))
      {
        var _ := TakeFrom(e, c, st);
        c := c + 1;
      }
    }

    /** The connections of e's output pins that nothing was put on. */
    ghost function Uncalled(e: nat): set<nat>
      requires e < |children|
      reads children[e]
    {
      Elsewhere(sys.g, Outs(sys.g, e), children[e].called)
    }

    /** In the middle of a run that began as st, with everything sent except to the connections in left. */
    ghost predicate Outgoing(e: nat, st: State, left: set<nat>)
      reads this, children, connections, Boards()
    {
      Valid() && CanSend(sys, st, e) && st.live && Sending(sys, st, state, e, left) && Reaches(sys, st, state)
    }

    /** Puts the next item of a run, on connection c. */
    method PutNext(e: nat, c: nat, payload: Option<Payload>, ghost st: State, ghost left: set<nat>)
      requires Outgoing(e, st, left)
      requires c in left && c in st.elems[e].values && payload == st.elems[e].values[c]
      modifies this`readyQueue, this`state, connections, Boards()
      ensures Outgoing(e, st, left - {c})
    {
      PutOne(sys, st, state, e, left, c);
      PutReaches(sys, st, state, c);
      Put(c, Data(children[e].serial, payload));
    }

    /** Puts a payload on an output pin, once per run; false where the program throws. */
    method PutVariant(e: nat, pin: nat, payload: Payload, ghost st: State) returns (ok: bool)
      requires e < |children| && Outgoing(e, st, Uncalled(e))
      requires forall c | c in Outs(sys.g, e) && sys.g.conns[c].pin == pin :: st.elems[e].values[c] == Some(payload)
      modifies this`readyQueue, this`state, connections, Boards(), Child(e)`called
      ensures Outgoing(e, st, Uncalled(e)) && children[e].called == old(children[e].called) + {pin}
      ensures ok <==> pin !in old(children[e].called)
    {
      if pin in children[e].called {
        assert old(children[e].called) + {pin} == children[e].called;
        return false;
      }
      ghost var left := Uncalled(e);
      ElsewhereWithout(sys.g, Outs(sys.g, e), children[e].called, pin);
      children[e].called := children[e].called + {pin};
      PutOnAll(e, pin, payload, st, left);
      ok := true;
    }

    method PutOnAll(e: nat, pin: nat, payload: Payload, ghost st: State, ghost left: set<nat>)
      requires Outgoing(e, st, left)
      requires forall c | c in Outs(sys.g, e) && sys.g.conns[c].pin == pin :: c in left && st.elems[e].values[c] == Some(payload)
      modifies this`readyQueue, this`state, connections, Boards()
      ensures Outgoing(e, st, left - OnPin(sys.g, left, pin))
    {
      ghost var mine := OnPin(sys.g, left, pin);
      LeftEnds(left, mine, |sys.g.conns|);
      var c := 0;
      while c < |sys.g.conns|
        invariant c <= |sys.g.conns| && Outgoing(e, st, Left(left, mine, c))
      {
        PutIfOnPin(e, pin, c, payload, st, left, mine);
        c := c + 1;
      }
    }

    method PutIfOnPin(e: nat, pin: nat, c: nat, payload: Payload, ghost st: State, ghost left: set<nat>, ghost mine: set<nat>)
      requires c < |sys.g.conns| && Outgoing(e, st, Left(left, mine, c)) && mine == OnPin(sys.g, left, pin)
      requires forall k | k in Outs(sys.g, e) && sys.g.conns[k].pin == pin :: k in left && st.elems[e].values[k] == Some(payload)
      modifies this`readyQueue, this`state, connections, Boards()
      ensures Outgoing(e, st, Left(left, mine, c + 1))
    {
      LeftNext(left, mine, c);
      if sys.g.conns[c].src == e && sys.g.conns[c].pin == pin {
        PutNext(e, c, Some(payload), st, Left(left, mine, c));
      }
    }

    /** Sends NULL on every output pin nothing was put on, so that consumers stay in step. */
    method PostOutput(e: nat, ghost st: State)
      requires e < |children| && Outgoing(e, st, Uncalled(e))
      requires forall c | c in Uncalled(e) :: st.elems[e].values[c] == None
      modifies this`readyQueue, this`state, connections, Boards()
      ensures Outgoing(e, st, {})
    {
      ghost var left := Uncalled(e);
      FromFirst(left, |sys.g.conns|);
      var c := 0;
      while c < |sys.g.conns|
        invariant c <= |sys.g.conns| && Outgoing(e, st, From(left, c))
      {
        PutNull(e, c, st, left);
        c := c + 1;
      }
    }

    method PutNull(e: nat, c: nat, ghost st: State, ghost left: set<nat>)
      requires e < |children| && c < |sys.g.conns| && left == Uncalled(e) && Outgoing(e, st, From(left, c))
      requires forall k | k in left :: st.elems[e].values[k] == None
      modifies this`readyQueue, this`state, connections, Boards()
      ensures Outgoing(e, st, From(left, c + 1))
    {
      FromNext(left, c);
      if sys.g.conns[c].src == e && sys.g.conns[c].pin !in children[e].called {
        PutNext(e, c, None, st, From(left, c));
      }
    }

    /** The user's code: takes its inputs, computes, and puts what it has on its output pins. */
    method Process(e: nat) returns (ghost t: State)
      requires Valid() && CanTake(sys, state, e) && CanSend(sys, state, e) && state.live
      requires state.elems[e].outbox == Outs(sys.g, e) && children[e].called == {}
      requires !NullDetected(sys.g, Heads(sys, state, e)) && Computed(sys, state, e, children[e].memory)
      modifies this`readyQueue, this`state, connections, Boards(), Child(e)`called, Child(e)`memory
      ensures Taking(sys, old(state), t, e, {}) && Outgoing(e, t, {}) && Reaches(sys, old(state), t)
      ensures children[e].memory == old(state).elems[e].memory
    {
      ghost var b := state;
      var inputs := GetInputs(e);
      t := state;
      TakenCanSend(sys, b, t, e);
      var outs := Compute(e, inputs, b);
      ReachesSelf(sys, t);
      PutOutputs(e, outs, t);
    }

    /** The part that is the user's own: new memory and output from the inputs. */
    method Compute(e: nat, inputs: map<nat, Option<Payload>>, ghost b: State) returns (outs: map<nat, Payload>)
      requires Valid() && CanTake(sys, b, e) && state.elems[e].phase == Running && state.elems[e].serial == b.elems[e].serial
      requires inputs == Heads(sys, b, e) && !NullDetected(sys.g, inputs) && Computed(sys, b, e, children[e].memory)
      modifies Child(e)`memory
      ensures Valid() && children[e].memory == b.elems[e].memory
      ensures forall c | c in Outs(sys.g, e) && c in b.elems[e].values :: b.elems[e].values[c] == Sent(outs, sys.g.conns[c].pin)
    {
      var (memory, puts) := sys.b.process(e, children[e].memory, children[e].serial, inputs);
      children[e].memory := memory;
      outs := puts;
    }

    method PutOutputs(e: nat, outs: map<nat, Payload>, ghost t: State)
      requires e < |children| && Outgoing(e, t, Outs(sys.g, e)) && children[e].called == {}
      requires forall c | c in Outs(sys.g, e) :: t.elems[e].values[c] == Sent(outs, sys.g.conns[c].pin)
      modifies this`readyQueue, this`state, connections, Boards(), Child(e)`called
      ensures Outgoing(e, t, {})
    {
      assert Uncalled(e) == Outs(sys.g, e);
      var todo := outs.Keys;
      while todo != {}
        invariant todo <= outs.Keys && children[e].called == outs.Keys - todo && Outgoing(e, t, Uncalled(e))
      {
        var pin :| pin in todo;
        var _ := PutVariant(e, pin, outs[pin], t);
        todo := todo - {pin};
      }
      PostOutput(e, t);
    }

    /** An input was NULL: its row is thrown away and NULL sent on. */
    method Skip(e: nat) returns (ghost t: State)
      requires Valid() && CanTake(sys, state, e) && CanSend(sys, state, e) && state.live
      requires state.elems[e].outbox == Outs(sys.g, e) && children[e].called == {}
      requires NullDetected(sys.g, Heads(sys, state, e)) && Computed(sys, state, e, children[e].memory)
      modifies this`readyQueue, this`state, connections, Boards()
      ensures Taking(sys, old(state), t, e, {}) && Outgoing(e, t, {}) && Reaches(sys, old(state), t)
      ensures children[e].memory == old(state).elems[e].memory
    {
      t := DropRow(e);
      PostNulls(e, t);
    }

    method DropRow(e: nat) returns (ghost t: State)
      requires Valid() && CanTake(sys, state, e) && CanSend(sys, state, e) && state.live
      requires state.elems[e].outbox == Outs(sys.g, e) && children[e].called == {}
      requires NullDetected(sys.g, Heads(sys, state, e)) && Computed(sys, state, e, children[e].memory)
      modifies this`state, connections
      ensures Taking(sys, old(state), t, e, {}) && Outgoing(e, t, Outs(sys.g, e)) && Reaches(sys, old(state), t)
      ensures forall c | c in Outs(sys.g, e) :: t.elems[e].values[c] == None
      ensures children[e].called == {} && children[e].memory == old(state).elems[e].memory
    {
      ghost var b := state;
      SkippedComputes(sys, b, e, children[e].memory);
      FlushFirst(e);
      t := state;
      TakenCanSend(sys, b, t, e);
      ReachesSelf(sys, t);
    }

    method PostNulls(e: nat, ghost t: State)
      requires e < |children| && Outgoing(e, t, Outs(sys.g, e)) && children[e].called == {}
      requires forall c | c in Outs(sys.g, e) :: t.elems[e].values[c] == None
      modifies this`readyQueue, this`state, connections, Boards()
      ensures Outgoing(e, t, {}) && children[e].memory == old(children[e].memory)
    {
      assert Uncalled(e) == Outs(sys.g, e);
      PostOutput(e, t);
    }

    /** The run of a dispatched element, from the first assertion to the end. */
    method Run(e: nat)
      requires Valid() && Inv(sys, state) && e < sys.g.size && children[e].phase == Dispatched
      modifies this`readyQueue, this`state, connections, Boards(), Child(e)
      ensures Valid() && Inv(sys, state) && Reaches(sys, old(state), state) && RanOnce(sys, old(state), state, e)
      ensures RunComputes(sys, old(state), state, e)
    {
      ghost var st := state;
      RunBegins(sys, st, e);
      Begin(e);
      ghost var b := state;
      ghost var t := Body(e);
      RunConcludes(st, b, t, state, e);
      End(e);
      RunIsComputed(sys, st, state, e);
    }

    /** Looks for NULL on the inputs, then skips the run or carries it out. */
    method Body(e: nat) returns (ghost t: State)
      requires Valid() && CanTake(sys, state, e) && CanSend(sys, state, e) && state.live
      requires state.elems[e].outbox == Outs(sys.g, e) && Computed(sys, state, e, children[e].memory)
      modifies this`readyQueue, this`state, connections, Boards(), Child(e)`called, Child(e)`memory
      ensures Taking(sys, old(state), t, e, {}) && Outgoing(e, t, {}) && Reaches(sys, old(state), t)
      ensures children[e].memory == old(state).elems[e].memory
    {
      var nullDetected := PreInput(e);
      ForgetCalls(e);
      if nullDetected {
        t := Skip(e);
      } else {
        t := Process(e);
      }
    }

    method ForgetCalls(e: nat)
      requires Valid() && e < |children|
      modifies Child(e)`called
      ensures Valid() && children[e].called == {}
    {
      children[e].called := {};
    }

    method End(e: nat)
      requires Valid() && Enabled(sys, state, Finish(e)) && children[e].memory == state.elems[e].memory
      modifies this`state, Child(e)`phase
      ensures Valid() && state == FinishRun(old(state), e)
    {
      children[e].phase := Done;
      state := FinishRun(state, e);
    }

    lemma RunConcludes(st: State, b: State, t: State, u: State, e: nat)
      requires Inv(sys, st) && e < sys.g.size && st.elems[e].phase == Dispatched && Enabled(sys, st, PipelineSteps.Begin(e))
      requires b == BeginRun(sys, st, e) && Reaches(sys, b, t) && Reaches(sys, t, u)
      requires CanSend(sys, b, e) && Taking(sys, b, t, e, {}) && Sending(sys, t, u, e, {})
      ensures Enabled(sys, u, Finish(e)) && RanOnce(sys, st, FinishRun(u, e), e)
      ensures Reaches(sys, st, FinishRun(u, e)) && Inv(sys, FinishRun(u, e)) && u.elems[e].memory == b.elems[e].memory
    {
      RunEnds(sys, st, b, t, u, e);
      RunReaches(st, b, t, u, e);
      ReachesKeeps(sys, st, FinishRun(u, e));
    }

    /** Running, under the serial it was dispatched with. */
    method Begin(e: nat)
      requires Valid() && Enabled(sys, state, PipelineSteps.Begin(e)) && state.live
      modifies this`state, Child(e)`phase, Child(e)`serial
      ensures Valid() && state == BeginRun(sys, old(state), e)
      ensures Computed(sys, state, e, children[e].memory) && state.elems[e].outbox == Outs(sys.g, e)
    {
      children[e].phase := Running;
      children[e].serial := runQueue[e];
      state := BeginRun(sys, state, e);
      assert Heads(sys, state, e) == Heads(sys, old(state), e);
    }

    lemma RunReaches(st: State, b: State, t: State, u: State, e: nat)
      requires Enabled(sys, st, PipelineSteps.Begin(e)) && b == BeginRun(sys, st, e)
      requires Reaches(sys, b, t) && Reaches(sys, t, u) && Enabled(sys, u, Finish(e))
      ensures Reaches(sys, st, FinishRun(u, e))
    {
      ReachesSelf(sys, st);
      ReachesOn(sys, st, st, PipelineSteps.Begin(e));
      ReachesBoth(sys, st, b, t);
      ReachesBoth(sys, st, t, u);
      ReachesOn(sys, st, u, Finish(e));
    }

    // ----- the scheduler -----

    method ReapOne(e: nat)
      requires Valid() && e < sys.g.size && running
      modifies this`runQueue, this`state, Child(e)`phase
      ensures Valid() && Reaches(sys, old(state), state)
      ensures state == old(state).(elems := old(state).elems[e := Reaped(old(state).elems[e])])
    {
      ReapReaches(sys, state, e);
      state := state.(elems := state.elems[e := Reaped(state.elems[e])]);
      if e in runQueue && children[e].phase == Done {
        children[e].phase := Started;
        runQueue := runQueue - {e};
      }
    }

    /** Removes finished runs from the run queue. */
    method Reap()
      requires Valid() && running
      modifies this`runQueue, this`state, children
      ensures Valid() && Reaches(sys, old(state), state) && state == old(state).(elems := state.elems)
      ensures forall e: nat | e < sys.g.size :: state.elems[e] == Reaped(old(state).elems[e])
      ensures forall e: nat | e < sys.g.size :: var was := old(state).elems[e];
                state.elems[e] == if was.running.Some? && was.phase == Done then was.(phase := Started, running := None) else was
    {
      ghost var st := state;
      ReachesSelf(sys, st);
      var e := 0;
      while e < |children|
        invariant e <= |children| && Valid() && Reaches(sys, st, state) && state == st.(elems := state.elems)
        invariant forall k: nat | k < sys.g.size :: state.elems[k] == if k < e then Reaped(st.elems[k]) else st.elems[k]
      {
        ghost var before := state;
        ReapOne(e);
        ReachesBoth(sys, st, before, state);
        e := e + 1;
      }
    }

    method DispatchElement(e: nat, ghost el: Elem)
      requires Built() && e < |children| && ShowsElement(e, el, true) && (el.running.None? ==> el.phase == Started)
      modifies this`runQueue, this`readyQueue, Child(e)`phase
      ensures ShowsElement(e, NextDispatched(el), true)
      ensures forall f: nat | f != e :: Ready(f) == old(Ready(f)) && Entry(f) == old(Entry(f)) && (f in readyQueue <==> f in old(readyQueue))
    {
      if e in readyQueue && readyQueue[e] != [] && e !in runQueue {
        children[e].Dispatch();
        runQueue := runQueue[e := readyQueue[e][0]];
        readyQueue := readyQueue[e := readyQueue[e][1..]];
      }
    }

    method DispatchOne(e: nat)
      requires Valid() && e < sys.g.size && running && !state.stopping
      requires state.elems[e].running.None? ==> state.elems[e].phase == Started
      modifies this`runQueue, this`readyQueue, this`state, Child(e)`phase
      ensures Valid() && Reaches(sys, old(state), state)
      ensures state == old(state).(elems := old(state).elems[e := NextDispatched(old(state).elems[e])])
    {
      ghost var st := state;
      DispatchReaches(sys, st, e);
      assert ShowsElement(e, st.elems[e], true);
      DispatchElement(e, st.elems[e]);
      state := st.(elems := st.elems[e := NextDispatched(st.elems[e])]);
    }

    /** Dispatches, for every element not running, its oldest complete row. */
    method DispatchReady()
      requires Valid() && running && !state.stopping
      requires forall e: nat | e < sys.g.size :: state.elems[e].running.None? ==> state.elems[e].phase == Started
      modifies this`runQueue, this`readyQueue, this`state, children
      ensures Valid() && Reaches(sys, old(state), state) && state == old(state).(elems := state.elems)
      ensures forall e: nat | e < sys.g.size :: state.elems[e] == NextDispatched(old(state).elems[e])
      ensures forall e: nat | e < sys.g.size :: var was := old(state).elems[e];
                && (was.running.Some? || was.ready == [] ==> state.elems[e] == was)
                && (was.running.None? && was.ready != [] ==>
                      state.elems[e] == was.(phase := Dispatched, running := Some(was.ready[0]), ready := was.ready[1..]))
    {
      ghost var st := state;
      ReachesSelf(sys, st);
      var e := 0;
      while e < |children|
        invariant e <= |children| && Valid() && Reaches(sys, st, state) && state == st.(elems := state.elems)
        invariant forall k: nat | k < sys.g.size :: state.elems[k] == if k < e then NextDispatched(st.elems[k]) else st.elems[k]
      {
        ghost var before := state;
        DispatchOne(e);
        ReachesBoth(sys, st, before, state);
        e := e + 1;
      }
    }

    /** The longest queue. */
    method MaxQueue() returns (max: nat)
      requires Valid()
      ensures forall c: nat | c < |sys.g.conns| :: |state.queues[c]| <= max
      ensures max == 0 || exists c: nat :: c < |sys.g.conns| && |state.queues[c]| == max
    {
      max := 0;
      var c := 0;
      while c < |connections|
        invariant c <= |connections|
        invariant forall k: nat | k < c :: |state.queues[k]| <= max
        invariant max == 0 || exists k: nat :: k < c && |state.queues[k]| == max
      {
        assert connections[c].queue == state.queues[c];
        if |connections[c].queue| > max { max := |connections[c].queue|; }
        c := c + 1;
      }
    }

    /** Whether every producer is idle and, by its own account, has something to produce. */
    method AllReady(willing: set<nat>) returns (ready: bool)
      requires Valid()
      ensures ready <==> forall p | p in sys.g.producers :: BelowDispatched(state.elems[p]) && p in willing
    {
      ready := true;
      var e := 0;
      while e < |children|
        invariant e <= |children|
        invariant ready <==> forall p | p in sys.g.producers && p < e :: BelowDispatched(state.elems[p]) && p in willing
      {
        assert ShowsElement(e, state.elems[e], state.live);
        if e in sys.g.producers {
          var phase := children[e].phase;
          if !(phase == Undefined || phase == Initialized || phase == Started) || e !in willing {
            ready := false;
          }
        }
        e := e + 1;
      }
    }

    method LaunchOne(e: nat, ghost el: Elem)
      requires Built() && e < |children| && ShowsElement(e, el, true) && el.phase == Started
      modifies this`runQueue, Child(e)`phase
      ensures runQueue == old(runQueue)[e := serial] && ShowsElement(e, DispatchElem(el, serial), true)
    {
      children[e].Dispatch();
      runQueue := runQueue[e := serial];
    }

    method LaunchAll()
      requires Valid() && running
      requires forall p | p in sys.g.producers :: state.elems[p].phase == Started
      modifies this`runQueue, this`serial, this`state, children
      ensures Valid() && state == LaunchProducers(sys, old(state))
    {
      ghost var st := state;
      LaunchEach(st);
      state := LaunchProducers(sys, st);
      serial := serial + 1;
      forall k: nat | k < sys.g.size ensures ShowsElement(k, state.elems[k], true) {
        if k in sys.g.producers {
          assert state.elems[k] == DispatchElem(st.elems[k], st.serial);
        } else {
          assert state.elems[k] == st.elems[k];
        }
      }
    }

    method LaunchEach(ghost st: State)
      requires Valid() && running && state == st && forall p | p in sys.g.producers :: st.elems[p].phase == Started
      modifies this`runQueue, children
      ensures Built() && serial == st.serial && forall c: nat | c < |sys.g.conns| :: connections[c].queue == st.queues[c]
      ensures forall k: nat | k < sys.g.size && k !in sys.g.producers :: ShowsElement(k, st.elems[k], true)
      ensures forall k: nat | k < sys.g.size && k in sys.g.producers :: ShowsElement(k, DispatchElem(st.elems[k], st.serial), true)
    {
      var e := 0;
      while e < |children|
        invariant e <= |children| && state == st && serial == st.serial
        invariant forall k: nat | k < sys.g.size && !(k < e && k in sys.g.producers) :: ShowsElement(k, st.elems[k], true)
        invariant forall k: nat | k < e && k in sys.g.producers :: ShowsElement(k, DispatchElem(st.elems[k], st.serial), true)
      {
        if e in sys.g.producers {
          LaunchOne(e, st.elems[e]);
        }
        e := e + 1;
      }
    }

    /** Dispatches all producers under the next serial, or none. */
    method RunProducers(willing: set<nat>) returns (launched: bool)
      requires Valid() && running && !state.stopping
      requires forall e: nat | e < sys.g.size :: BelowDispatched(state.elems[e]) ==> state.elems[e].phase == Started
      modifies this`runQueue, this`serial, this`state, children
      ensures Valid() && Reaches(sys, old(state), state) && (launched <==> CanLaunch(sys, old(state), willing))
      ensures state == if launched then LaunchProducers(sys, old(state)) else old(state)
    {
      ReachesSelf(sys, state);
      launched := false;
      var max := MaxQueue();
      if max < 5 {
        launched := AllReady(willing);
        if launched {
          LaunchReaches(sys, state);
          LaunchAll();
        }
      }
    }

    /** The three phases of a tick. */
    method ReapAndDispatch(willing: set<nat>) returns (launched: bool)
      requires Valid() && Inv(sys, state) && running && !state.stopping
      modifies this`runQueue, this`readyQueue, this`serial, this`state, children
      ensures Valid() && Inv(sys, state) && Reaches(sys, old(state), state)
      ensures state.queues == old(state).queues && state.serial == old(state).serial + if launched then 1 else 0
      ensures forall e: nat | e < sys.g.size :: state.elems[e] ==
                var el := NextDispatched(Reaped(old(state).elems[e]));
                if launched && e in sys.g.producers then DispatchElem(el, old(state).serial) else el
      ensures launched <==>
                && (forall c: nat | c < |sys.g.conns| :: |old(state).queues[c]| < 5)
                && (forall p | p in sys.g.producers :: p in willing && BelowDispatched(NextDispatched(Reaped(old(state).elems[p]))))
    {
      ghost var st := state;
      Reap();
      ghost var reaped := state;
      ReachesKeeps(sys, st, reaped);
      PhaseFacts(sys, reaped);
      DispatchReady();
      ghost var dispatched := state;
      ReachesKeeps(sys, reaped, dispatched);
      PhaseFacts(sys, dispatched);
      launched := RunProducers(willing);
      ReachesKeeps(sys, dispatched, state);
      ReachesBoth(sys, st, reaped, dispatched);
      ReachesBoth(sys, st, dispatched, state);
    }

    /**
     * One tick of the heartbeat: finished runs are reaped, ready rows of idle
     * processors dispatched, and the producers launched together if none is busy
     * and no queue is long. `willing` are the producers that have something to produce.
     */
    method Schedule(willing: set<nat>) returns (launched: bool)
      requires Valid() && Inv(sys, state) && running && !state.stopping
      modifies this`runQueue, this`readyQueue, this`serial, this`state, children
      ensures Valid() && Inv(sys, state) && Reaches(sys, old(state), state)
      ensures state.queues == old(state).queues && state.serial == old(state).serial + if launched then 1 else 0
      ensures forall e: nat | e < sys.g.size :: state.elems[e] ==
                var el := NextDispatched(Reaped(old(state).elems[e]));
                if launched && e in sys.g.producers then DispatchElem(el, old(state).serial) else el
      ensures launched <==>
                && (forall c: nat | c < |sys.g.conns| :: |old(state).queues[c]| < 5)
                && (forall p | p in sys.g.producers :: p in willing && BelowDispatched(NextDispatched(Reaped(old(state).elems[p]))))
      ensures TickedAll(sys, old(state), state, launched)
      ensures launched <==>
                && (forall c: nat | c < |sys.g.conns| :: |old(state).queues[c]| < 5)
                && (forall p | p in sys.g.producers :: p in willing && Free(old(state).elems[p]))
      ensures PipelineBounds.Idle(sys, old(state)) && sys.g.producers <= willing ==> launched
      ensures !PipelineBounds.Idle(sys, old(state)) && (forall e: nat | e < sys.g.size :: Free(old(state).elems[e])) && !launched ==>
                PipelineBounds.Work(sys, state, sys.g.size) < PipelineBounds.Work(sys, old(state), sys.g.size)
      ensures PipelineBounds.Idle(sys, state) || exists e: nat :: e < sys.g.size && (state.elems[e].phase == Dispatched || state.elems[e].phase == Running)
      ensures forall e: nat | e < sys.g.size ::
                state.elems[e].phase != Done && (state.elems[e].running.Some? || state.elems[e].ready == [])
    {
      ghost var st := state;
      launched := ReapAndDispatch(willing);
      TickAchieves(sys, st, state, launched, willing);
    }

    // ----- start and stop -----

    /** Counts the connected inputs of an element. */
    method CountInputs(e: nat) returns (count: nat)
      ensures count == |Ins(sys.g, e)|
    {
      count := 0;
      CountBeforeEnds(Ins(sys.g, e), |sys.g.conns|);
      var c := 0;
      while c < |sys.g.conns|
        invariant c <= |sys.g.conns| && count == CountBefore(Ins(sys.g, e), c)
      {
        CountBeforeNext(Ins(sys.g, e), c);
        if sys.g.conns[c].dst == e { count := count + 1; }
        c := c + 1;
      }
    }

    method InitOne(e: nat, ghost el: Elem)
      requires Built() && e < |children| && ShowsElement(e, el, false) && el.phase == Undefined
      modifies Child(e)`phase, children[e].board
      ensures ShowsInitialized(e, el)
    {
      var pins := CountInputs(e);
      var _ := children[e].Init(pins, true);
    }

    ghost predicate ShowsInitialized(e: nat, el: Elem)
      requires e < |children|
      reads this`readyQueue, this`runQueue, children[e], children[e].board
    {
      ShowsElement(e, el.(phase := Initialized), false) && children[e].board.pinCount == |Ins(sys.g, e)|
    }

    method InitElements()
      requires Valid() && !running && forall e: nat | e < sys.g.size :: state.elems[e].phase == Undefined
      modifies children, Boards()
      ensures forall e: nat | e < sys.g.size :: ShowsInitialized(e, state.elems[e])
    {
      var e := 0;
      while e < |children|
        invariant e <= |children|
        invariant forall k: nat | e <= k < sys.g.size :: ShowsElement(k, state.elems[k], false)
        invariant forall k: nat | k < e :: ShowsInitialized(k, state.elems[k])
      {
        InitOne(e, state.elems[e]);
        e := e + 1;
      }
    }

    /** Initialises every element and gives it an empty ready queue. */
    method InitAll()
      requires Valid() && !running && forall e: nat | e < sys.g.size :: state.elems[e].phase == Undefined
      modifies this`readyQueue, children, Boards()
      ensures forall e: nat | e < sys.g.size :: ShowsElement(e, state.elems[e].(phase := Initialized, ready := []), true)
    {
      InitElements();
      ResetReady();
    }

    method ResetReady()
      modifies this`readyQueue
      ensures forall k: nat | k < |children| :: k in readyQueue && readyQueue[k] == []
    {
      var e := 0;
      while e < |children|
        invariant e <= |children| && forall k: nat | k < e :: k in readyQueue && readyQueue[k] == []
      {
        readyQueue := readyQueue[e := []];
        e := e + 1;
      }
    }

    method StartOne(e: nat, ghost el: Elem)
      requires Built() && e < |children| && ShowsElement(e, el, true) && el.phase == Initialized && el.ready == []
      modifies Child(e)`phase, Child(e)`memory
      ensures ShowsElement(e, StartElem(sys, el, e, state.serial), true)
    {
      var _ := children[e].Start(sys.b, true);
    }

    method StartElements()
      requires Built() && Sized(sys, state)
      requires forall e: nat | e < sys.g.size :: ShowsElement(e, state.elems[e].(phase := Initialized, ready := []), true)
      modifies children
      ensures forall e: nat | e < sys.g.size :: ShowsElement(e, StartElem(sys, state.elems[e], e, state.serial), true)
    {
      var e := 0;
      while e < |children|
        invariant e <= |children|
        invariant forall k: nat | e <= k < sys.g.size :: ShowsElement(k, state.elems[k].(phase := Initialized, ready := []), true)
        invariant forall k: nat | k < e :: ShowsElement(k, StartElem(sys, state.elems[k], k, state.serial), true)
      {
        StartOne(e, state.elems[e].(phase := Initialized, ready := []));
        e := e + 1;
      }
    }

    /**
     * Starts the pipeline, unless it has no elements: all are initialised, the
     * graph is checked for cycles, all are started. After a cycle the elements
     * are left initialised.
     */
    method Start()
      requires Valid() && !running && forall e: nat | e < sys.g.size :: state.elems[e].phase == Undefined
      modifies this`readyQueue, this`running, this`state, children, Boards()
      ensures running <==> sys.g.size > 0 && Acyclic(sys.g)
      ensures running ==> Valid() && state == StartAll(sys, old(state))
      ensures running ==> state.live && !state.stopping && state.serial == old(state).serial && state.queues == old(state).queues
      ensures running ==> state.origin.base == old(state).serial && forall e: nat | e < sys.g.size :: var was := old(state).elems[e];
                && state.elems[e] == was.(phase := Started, memory := sys.b.start(e, was.memory), ready := [], next := old(state).serial)
                && state.origin.memory[e] == state.elems[e].memory
      ensures !running ==> state == old(state) && forall e: nat | e < sys.g.size :: children[e].phase == Initialized
      ensures Inv(sys, old(state)) ==> Inv(sys, state) && (running <==> sys.g.size > 0)
    {
      ghost var st := state;
      if |children| > 0 {
        InitAll();
        var acyclic := CheckGraph();
        if acyclic {
          StartAndRun();
        } else {
          forall e: nat | e < sys.g.size ensures children[e].phase == Initialized {
            assert ShowsElement(e, state.elems[e].(phase := Initialized, ready := []), true);
          }
        }
      }
      StartKeepsInv(st);
    }

    lemma StartKeepsInv(st: State)
      ensures Inv(sys, st) ==> Acyclic(sys.g)
      ensures Inv(sys, st) && !st.live ==> Inv(sys, StartAll(sys, st))
    {
      if Inv(sys, st) {
        RankedIsAcyclic(sys.g, sys.rank);
        if !st.live { StartReaches(sys, st); }
      }
    }

    /** The check that the program makes before starting; a graph with ranks passes it. */
    method CheckGraph() returns (acyclic: bool)
      requires Built() && sys.g.size > 0
      ensures acyclic <==> Acyclic(sys.g)
      ensures Ranked(sys.g, sys.rank) ==> acyclic
    {
      if Ranked(sys.g, sys.rank) { RankedIsAcyclic(sys.g, sys.rank); }
      var check := new CycleCheck(sys.g);
      acyclic := check.GenerateGraphOrdering();
    }

    method StartAndRun()
      requires Built() && Sized(sys, state) && serial == state.serial
      requires forall e: nat | e < sys.g.size :: ShowsElement(e, state.elems[e].(phase := Initialized, ready := []), true)
      requires forall c: nat | c < |sys.g.conns| :: connections[c].queue == state.queues[c]
      modifies this`running, this`state, children
      ensures Valid() && running && state == StartAll(sys, old(state))
    {
      StartElements();
      running := true;
      state := StartAll(sys, state);
    }

    method StopOne(e: nat, ghost el: Elem)
      requires Built() && e < |children| && ShowsElement(e, el, true) && el.phase == Started
      modifies Child(e)`phase, Child(e)`serial
      ensures ShowsElement(e, el.(phase := Undefined, serial := 0), true)
    {
      var stopped := children[e].Stop(true);
      var _ := children[e].Deinit(true);
    }

    method StopElements()
      requires Valid() && running && forall e: nat | e < sys.g.size :: state.elems[e].phase == Started
      modifies children
      ensures forall e: nat | e < sys.g.size :: ShowsElement(e, state.elems[e].(phase := Undefined, serial := 0), true)
    {
      var e := 0;
      while e < |children|
        invariant e <= |children|
        invariant forall k: nat | e <= k < sys.g.size :: ShowsElement(k, state.elems[k], true)
        invariant forall k: nat | k < e :: ShowsElement(k, state.elems[k].(phase := Undefined, serial := 0), true)
      {
        StopOne(e, state.elems[e]);
        e := e + 1;
      }
    }

    method FlushAll()
      requires Built()
      modifies connections
      ensures forall c | 0 <= c < |connections| :: connections[c].queue == []
    {
      var c := 0;
      while c < |connections|
        invariant c <= |connections| && forall k | 0 <= k < c :: connections[k].queue == []
      {
        connections[c].Flush();
        c := c + 1;
      }
    }

    /**
     * Stops the pipeline: waits for every run under way, then stops and
     * de-initialises the elements and flushes the connections. Serials go on, and
     * with no run to wait for the scoreboards are as they were.
     */
    method Stop()
      requires Valid() && Inv(sys, state) && running && forall e: nat | e < sys.g.size :: state.elems[e].phase != Running
      modifies this, children, connections, Boards()
      ensures Valid() && Inv(sys, state) && Reaches(sys, old(state), state) && !running && serial == old(serial)
      ensures forall c | 0 <= c < |connections| :: connections[c].queue == []
      ensures forall e: nat | e < sys.g.size :: children[e].phase == Undefined && e !in runQueue
      ensures (forall e: nat | e < sys.g.size :: old(state).elems[e].phase != Dispatched) ==>
                forall e: nat | e < sys.g.size ::
                  state.elems[e].lookup == old(state).elems[e].lookup && state.elems[e].memory == old(state).elems[e].memory
    {
      ghost var st := state;
      AwaitRuns();
      ghost var waited := state;
      Halt();
      ReachesBoth(sys, st, waited, state);
    }

    method Halt()
      requires Valid() && Inv(sys, state) && running
      requires forall e: nat | e < sys.g.size :: state.elems[e].running.Some? ==> state.elems[e].phase == Done
      modifies this, children, connections
      ensures Valid() && Inv(sys, state) && Reaches(sys, old(state), state) && !running && serial == old(serial)
      ensures forall c | 0 <= c < |connections| :: connections[c].queue == []
      ensures forall e: nat | e < sys.g.size ::
                && children[e].phase == Undefined && e !in runQueue
                && state.elems[e].lookup == old(state).elems[e].lookup && state.elems[e].memory == old(state).elems[e].memory
    {
      ghost var waited := state;
      state := RequestedStop(sys, waited);
      Reap();
      ghost var reaped := state;
      StopReaches(sys, waited, reaped);
      StopAndFlush();
      forall e: nat | e < sys.g.size
        ensures children[e].phase == Undefined && state.elems[e].lookup == waited.elems[e].lookup && e !in runQueue
      {
        assert reaped.elems[e] == Reaped(waited.elems[e]) && ShowsElement(e, state.elems[e], false);
      }
    }

    /** Waits for the workers: whatever is dispatched is run to its end. */
    method AwaitRuns()
      requires Valid() && Inv(sys, state) && running && forall e: nat | e < sys.g.size :: state.elems[e].phase != Running
      modifies this`readyQueue, this`state, connections, Boards(), children
      ensures Valid() && Inv(sys, state) && Reaches(sys, old(state), state) && running
      ensures forall e: nat | e < sys.g.size :: state.elems[e].running.Some? ==> state.elems[e].phase == Done
      ensures (forall e: nat | e < sys.g.size :: old(state).elems[e].phase != Dispatched) ==> state == old(state)
    {
      ReachesSelf(sys, state);
      AwaitEach(state);
      UnderWayIsDone(sys, state);
    }

    /** No run of the elements before e is under way, and nothing happened if nothing was dispatched. */
    ghost predicate Awaited(st: State, e: nat)
      reads this, children, connections, Boards()
    {
      && Valid() && Inv(sys, state) && Reaches(sys, st, state) && running
      && (forall k: nat | k < sys.g.size :: state.elems[k].phase != Running && (k < e ==> state.elems[k].phase != Dispatched))
      && ((forall k: nat | k < sys.g.size :: st.elems[k].phase != Dispatched) ==> state == st)
    }

    method AwaitEach(ghost st: State)
      requires Sized(sys, st) && Awaited(st, 0)
      modifies this`readyQueue, this`state, connections, Boards(), children
      ensures Awaited(st, sys.g.size)
    {
      var e := 0;
      while e < |children|
        invariant e <= |children| && Awaited(st, e)
      {
        AwaitRun(e, st);
        e := e + 1;
      }
    }

    /** Of a run, what waiting for it needs to know: only its own element is elsewhere in its life cycle. */
    method AwaitEnd(e: nat)
      requires Valid() && Inv(sys, state) && e < sys.g.size && children[e].phase == Dispatched
      modifies this`readyQueue, this`state, connections, Boards(), Child(e)
      ensures Valid() && Inv(sys, state) && Reaches(sys, old(state), state)
      ensures Sized(sys, old(state)) && forall d: nat | d < sys.g.size ::
                state.elems[d].phase == if d == e then Done else old(state).elems[d].phase
    {
      Run(e);
    }

    method AwaitRun(e: nat, ghost st: State)
      requires Sized(sys, st) && e < sys.g.size && Awaited(st, e)
      modifies this`readyQueue, this`state, connections, Boards(), Child(e)
      ensures Awaited(st, e + 1)
    {
      assert ShowsElement(e, state.elems[e], state.live);
      if children[e].phase == Dispatched {
        ghost var before := state;
        AwaitEnd(e);
        ReachesBoth(sys, st, before, state);
      }
    }

    method StopAndFlush()
      requires Valid() && running && forall e: nat | e < sys.g.size :: state.elems[e].phase == Started
      modifies this`readyQueue, this`running, this`state, children, connections
      ensures Valid() && !running && state == StopAll(old(state))
    {
      StopElements();
      FlushAll();
      readyQueue := map[];
      running := false;
      state := StopAll(state);
    }
  }
}
