/**
 * The element graph of a pipeline and its reference semantics: what every
 * connection carries under each serial when the graph is evaluated serial by
 * serial in topological order.
 */
module PipelineGraph {

  datatype Option<T> = None | Some(value: T)

  /** A payload travelling on a connection, and what an element remembers between runs: opaque codes. */
  type Payload = int
  type Memory = int

  /** A connection from an output pin to an input pin; an input pin has one connection, so it is named by it. */
  datatype Conn = Conn(src: nat, pin: nat, dst: nat, guaranteed: bool)

  datatype Graph = Graph(size: nat, producers: set<nat>, conns: seq<Conn>)

  /** The user's code: `start` before a session, `process` (or `produce`) in a run that saw no NULL. */
  datatype Behaviour = Behaviour(
    start: (nat, Memory) -> Memory,
    process: (nat, Memory, nat, map<nat, Option<Payload>>) -> (Memory, map<nat, Payload>))

  /** `rank` witnesses that the graph is acyclic. */
  datatype System = System(g: Graph, b: Behaviour, rank: seq<nat>)

  ghost predicate WellFormed(g: Graph) {
    && (forall p | p in g.producers :: p < g.size)
    && (forall c | 0 <= c < |g.conns| :: g.conns[c].src < g.size && g.conns[c].dst < g.size
                                      && g.conns[c].src != g.conns[c].dst && g.conns[c].dst !in g.producers)
  }

  /** Every processor has a connected input. */
  ghost predicate Fed(g: Graph) {
    forall e: nat | e < g.size && e !in g.producers :: Ins(g, e) != {}
  }

  ghost predicate Ranked(g: Graph, rank: seq<nat>) {
    && |rank| == g.size
    && forall c | 0 <= c < |g.conns| :: g.conns[c].src < g.size && g.conns[c].dst < g.size
                                     && rank[g.conns[c].src] < rank[g.conns[c].dst]
  }

  ghost predicate Sound(sys: System) {
    WellFormed(sys.g) && Fed(sys.g) && Ranked(sys.g, sys.rank)
  }

  function Ins(g: Graph, e: nat): (s: set<nat>)
    ensures forall c :: c in s <==> 0 <= c < |g.conns| && g.conns[c].dst == e
  {
    set c: nat | c < |g.conns| && g.conns[c].dst == e
  }

  function Outs(g: Graph, e: nat): (s: set<nat>)
    ensures forall c :: c in s <==> 0 <= c < |g.conns| && g.conns[c].src == e
  {
    set c: nat | c < |g.conns| && g.conns[c].src == e
  }

  /** A nonempty walk along connections, given by their indices. */
  ghost predicate IsWalk(g: Graph, p: seq<nat>) {
    && |p| > 0 && (forall k | 0 <= k < |p| :: p[k] < |g.conns|)
    && forall k, l | 0 <= k < |p| && l == k + 1 && l < |p| :: g.conns[p[k]].dst == g.conns[p[l]].src
  }

  // ----- one run of one element -----

  /** A NULL on a connection whose pin is guaranteed data makes the element skip its run. */
  predicate NullDetected(g: Graph, inputs: map<nat, Option<Payload>>) {
    exists c :: c in inputs && c < |g.conns| && g.conns[c].guaranteed && inputs[c].None?
  }

  /** New memory and the payloads put on output pins; skipped runs change nothing and put nothing. */
  function RunOnce(sys: System, e: nat, m: Memory, serial: nat, inputs: map<nat, Option<Payload>>): (Memory, map<nat, Payload>) {
    if NullDetected(sys.g, inputs) then (m, map[]) else sys.b.process(e, m, serial, inputs)
  }

  /** A pin that nothing was put on sends NULL to its connections. */
  function Sent(outs: map<nat, Payload>, pin: nat): Option<Payload> {
    if pin in outs then Some(outs[pin]) else None
  }

  // ----- evaluation serial by serial -----

  /** Where a session starts: its first serial and what each element remembers then. */
  datatype Origin = Origin(base: nat, memory: seq<Memory>)

  ghost function MemoryAt(sys: System, o: Origin, e: nat, s: nat): Memory
    requires Sound(sys) && |o.memory| == sys.g.size && e < sys.g.size && o.base <= s
    decreases s, sys.rank[e], 0
  {
    if s == o.base then o.memory[e] else RunAt(sys, o, e, s - 1).0
  }

  ghost function InputsAt(sys: System, o: Origin, e: nat, s: nat): map<nat, Option<Payload>>
    requires Sound(sys) && |o.memory| == sys.g.size && e < sys.g.size && o.base <= s
    decreases s, sys.rank[e], 1
  {
    map c | c in Ins(sys.g, e) :: Sent(RunAt(sys, o, sys.g.conns[c].src, s).1, sys.g.conns[c].pin)
  }

  ghost function RunAt(sys: System, o: Origin, e: nat, s: nat): (Memory, map<nat, Payload>)
    requires Sound(sys) && |o.memory| == sys.g.size && e < sys.g.size && o.base <= s
    decreases s, sys.rank[e], 2
  {
    RunOnce(sys, e, MemoryAt(sys, o, e, s), s, InputsAt(sys, o, e, s))
  }

  /** What connection c carries under serial s. */
  ghost function ValueAt(sys: System, o: Origin, c: nat, s: nat): Option<Payload>
    requires Sound(sys) && |o.memory| == sys.g.size && c < |sys.g.conns| && o.base <= s
  {
    Sent(RunAt(sys, o, sys.g.conns[c].src, s).1, sys.g.conns[c].pin)
  }

  // ----- the laws of the evaluation, in terms of the user's code and what connections carry -----

  /** Every input that is guaranteed data carries some under serial s. */
  ghost predicate Supplied(sys: System, o: Origin, e: nat, s: nat)
    requires Sound(sys) && |o.memory| == sys.g.size && e < sys.g.size && o.base <= s
  {
    forall c | c in Ins(sys.g, e) && sys.g.conns[c].guaranteed :: ValueAt(sys, o, c, s).Some?
  }

  /** In its first run of a session an element remembers what it had when the session began. */
  lemma SessionBegins(sys: System, o: Origin, e: nat)
    requires Sound(sys) && |o.memory| == sys.g.size && e < sys.g.size
    ensures MemoryAt(sys, o, e, o.base) == o.memory[e]
  {
  }

  /**
   * When every guaranteed input carries data the user's code runs, on all that
   * the inputs carry, NULL on the others included: it decides what the element
   * remembers, and each output carries what it put there, or NULL.
   */
  lemma RunProcesses(sys: System, o: Origin, e: nat, s: nat)
    requires Sound(sys) && |o.memory| == sys.g.size && e < sys.g.size && o.base <= s && Supplied(sys, o, e, s)
    ensures var (memory, outs) := sys.b.process(e, MemoryAt(sys, o, e, s), s, map c | c in Ins(sys.g, e) :: ValueAt(sys, o, c, s));
      && MemoryAt(sys, o, e, s + 1) == memory
      && forall c | c in Outs(sys.g, e) ::
           ValueAt(sys, o, c, s) == if sys.g.conns[c].pin in outs then Some(outs[sys.g.conns[c].pin]) else None
  {
    assert InputsAt(sys, o, e, s) == map c | c in Ins(sys.g, e) :: ValueAt(sys, o, c, s);
    assert MemoryAt(sys, o, e, s + 1) == RunAt(sys, o, e, s).0;
  }

  /** When some guaranteed input carries NULL the run leaves no trace but NULL on every output. */
  lemma RunSkips(sys: System, o: Origin, e: nat, s: nat)
    requires Sound(sys) && |o.memory| == sys.g.size && e < sys.g.size && o.base <= s && !Supplied(sys, o, e, s)
    ensures MemoryAt(sys, o, e, s + 1) == MemoryAt(sys, o, e, s)
    ensures forall c | c in Outs(sys.g, e) :: ValueAt(sys, o, c, s) == None
  {
    var c :| c in Ins(sys.g, e) && sys.g.conns[c].guaranteed && ValueAt(sys, o, c, s).None?;
    assert c in InputsAt(sys, o, e, s) && InputsAt(sys, o, e, s)[c] == None;
    assert MemoryAt(sys, o, e, s + 1) == RunAt(sys, o, e, s).0;
  }

  // ----- the laws leave no choice -----

  /** What an element remembers before serial s, and what a connection carries under it. */
  type Memories = (nat, nat) -> Memory
  type Values = (nat, nat) -> Option<Payload>

  /** m and v obey the three laws for element e under serial s. */
  ghost predicate Obeys(sys: System, o: Origin, m: Memories, v: Values, e: nat, s: nat)
    requires Sound(sys) && |o.memory| == sys.g.size && e < sys.g.size && o.base <= s
  {
    && m(e, o.base) == o.memory[e]
    && if forall c | c in Ins(sys.g, e) && sys.g.conns[c].guaranteed :: v(c, s).Some? then
         var (memory, outs) := sys.b.process(e, m(e, s), s, map c | c in Ins(sys.g, e) :: v(c, s));
         && m(e, s + 1) == memory
         && forall c | c in Outs(sys.g, e) :: v(c, s) == if sys.g.conns[c].pin in outs then Some(outs[sys.g.conns[c].pin]) else None
       else
         m(e, s + 1) == m(e, s) && forall c | c in Outs(sys.g, e) :: v(c, s) == None
  }

  ghost predicate ObeysAll(sys: System, o: Origin, m: Memories, v: Values)
    requires Sound(sys) && |o.memory| == sys.g.size
  {
    forall e: nat, s: nat | e < sys.g.size && o.base <= s :: Obeys(sys, o, m, v, e, s)
  }

  /** Any account of a session that obeys the laws is the one evaluated here. */
  lemma {:induction false} LawsDetermineAll(sys: System, o: Origin, m: Memories, v: Values, e: nat, s: nat)
    requires Sound(sys) && |o.memory| == sys.g.size && e < sys.g.size && o.base <= s && ObeysAll(sys, o, m, v)
    ensures m(e, s) == MemoryAt(sys, o, e, s)
    ensures forall c | c in Outs(sys.g, e) :: v(c, s) == ValueAt(sys, o, c, s)
    decreases s, sys.rank[e]
  {
    if s > o.base {
      LawsDetermineAll(sys, o, m, v, e, s - 1);
      InputsDetermined(sys, o, m, v, e, s - 1);
      RunDetermined(sys, o, m, v, e, s - 1);
    } else {
      BeginningDetermined(sys, o, m, v, e);
    }
    InputsDetermined(sys, o, m, v, e, s);
    RunDetermined(sys, o, m, v, e, s);
  }

  lemma {:induction false} InputsDetermined(sys: System, o: Origin, m: Memories, v: Values, e: nat, s: nat)
    requires Sound(sys) && |o.memory| == sys.g.size && e < sys.g.size && o.base <= s && ObeysAll(sys, o, m, v)
    ensures forall c | c in Ins(sys.g, e) :: v(c, s) == ValueAt(sys, o, c, s)
    decreases s, sys.rank[e], 0
  {
    forall c | c in Ins(sys.g, e) ensures v(c, s) == ValueAt(sys, o, c, s) {
      assert c in Outs(sys.g, sys.g.conns[c].src);
      LawsDetermineAll(sys, o, m, v, sys.g.conns[c].src, s);
    }
  }

  lemma BeginningDetermined(sys: System, o: Origin, m: Memories, v: Values, e: nat)
    requires Sound(sys) && |o.memory| == sys.g.size && e < sys.g.size && ObeysAll(sys, o, m, v)
    ensures m(e, o.base) == MemoryAt(sys, o, e, o.base)
  {
    assert Obeys(sys, o, m, v, e, o.base);
  }

  /** An element whose memory and inputs agree with the evaluation agrees with it after its run. */
  lemma RunDetermined(sys: System, o: Origin, m: Memories, v: Values, e: nat, s: nat)
    requires Sound(sys) && |o.memory| == sys.g.size && e < sys.g.size && o.base <= s && ObeysAll(sys, o, m, v)
    requires m(e, s) == MemoryAt(sys, o, e, s) && forall c | c in Ins(sys.g, e) :: v(c, s) == ValueAt(sys, o, c, s)
    ensures m(e, s + 1) == MemoryAt(sys, o, e, s + 1)
    ensures forall c | c in Outs(sys.g, e) :: v(c, s) == ValueAt(sys, o, c, s)
  {
    assert Obeys(sys, o, m, v, e, s);
    assert (map c | c in Ins(sys.g, e) :: v(c, s)) == map c | c in Ins(sys.g, e) :: ValueAt(sys, o, c, s);
    if Supplied(sys, o, e, s) {
      RunProcesses(sys, o, e, s);
    } else {
      RunSkips(sys, o, e, s);
    }
  }
}
