/** The cycle check made before a pipeline starts, and the topological ordering it leaves behind. */
module GraphOrdering {
  import opened FiniteSets
  import opened PipelineGraph

  // ----- walks and cycles -----

  ghost predicate WalkFromTo(g: Graph, p: seq<nat>, a: nat, b: nat) {
    IsWalk(g, p) && g.conns[p[0]].src == a && g.conns[p[|p| - 1]].dst == b
  }

  /** Data leaving a can arrive at b over one or more connections. */
  ghost predicate Feeds(g: Graph, a: nat, b: nat) {
    exists p :: WalkFromTo(g, p, a, b)
  }

  ghost predicate Acyclic(g: Graph) {
    forall e: nat | e < g.size :: !Feeds(g, e, e)
  }

  lemma ConnectionFeeds(g: Graph, c: nat)
    requires c < |g.conns|
    ensures Feeds(g, g.conns[c].src, g.conns[c].dst)
  {
    assert WalkFromTo(g, [c], g.conns[c].src, g.conns[c].dst);
  }

  lemma FeedsOn(g: Graph, c: nat, b: nat)
    requires c < |g.conns| && Feeds(g, g.conns[c].dst, b)
    ensures Feeds(g, g.conns[c].src, b)
  {
    var p :| WalkFromTo(g, p, g.conns[c].dst, b);
    var q := [c] + p;
    assert q[|q| - 1] == p[|p| - 1];
    assert WalkFromTo(g, q, g.conns[c].src, b);
  }

  lemma {:induction false} RanksRise(g: Graph, rank: seq<nat>, p: seq<nat>)
    requires Ranked(g, rank) && IsWalk(g, p)
    ensures rank[g.conns[p[0]].src] < rank[g.conns[p[|p| - 1]].dst]
    decreases |p|
  {
    if |p| > 1 {
      var q := p[1..];
      assert IsWalk(g, q) && q[|q| - 1] == p[|p| - 1];
      RanksRise(g, rank, q);
    }
  }

  lemma RankedIsAcyclic(g: Graph, rank: seq<nat>)
    requires Ranked(g, rank)
    ensures Acyclic(g)
  {
    forall e: nat | e < g.size ensures !Feeds(g, e, e) {
      if Feeds(g, e, e) {
        var p :| WalkFromTo(g, p, e, e);
        RanksRise(g, rank, p);
      }
    }
  }

  // ----- orderings -----

  /** Elements of g, none twice, each after all elements that feed it directly. */
  ghost predicate Sorted(g: Graph, ordering: seq<nat>) {
    && (forall i | 0 <= i < |ordering| :: ordering[i] < g.size)
    && (forall i, j | 0 <= i < j < |ordering| :: ordering[i] != ordering[j])
    && forall i, c | 0 <= i < |ordering| && 0 <= c < |g.conns| && g.conns[c].dst == ordering[i] ::
         g.conns[c].src in ordering[..i]
  }

  lemma SortedAppend(g: Graph, ordering: seq<nat>, e: nat)
    requires Sorted(g, ordering) && e < g.size && e !in ordering
    requires forall c | 0 <= c < |g.conns| && g.conns[c].dst == e :: g.conns[c].src in ordering
    ensures Sorted(g, ordering + [e])
  {
    var longer := ordering + [e];
    forall i, c | 0 <= i < |longer| && 0 <= c < |g.conns| && g.conns[c].dst == longer[i]
      ensures g.conns[c].src in longer[..i]
    {
      if i < |ordering| {
        assert longer[..i] == ordering[..i] && longer[i] == ordering[i];
      } else {
        assert longer[..i] == ordering;
      }
    }
  }

  function Position(s: seq<nat>, e: nat): (i: nat)
    requires e in s
    ensures i < |s| && s[i] == e
  {
    if s[0] == e then 0 else 1 + Position(s[1..], e)
  }

  /** The positions in a complete sorted ordering rank the graph. */
  function Ranks(g: Graph, ordering: seq<nat>): (rank: seq<nat>)
    requires forall e: nat | e < g.size :: e in ordering
  {
    seq(g.size, e requires 0 <= e < g.size => Position(ordering, e))
  }

  lemma SortedRanks(g: Graph, ordering: seq<nat>)
    requires WellFormed(g) && Sorted(g, ordering) && forall e: nat | e < g.size :: e in ordering
    ensures Ranked(g, Ranks(g, ordering))
  {
    var rank := Ranks(g, ordering);
    forall c | 0 <= c < |g.conns| ensures rank[g.conns[c].src] < rank[g.conns[c].dst] {
      var i := rank[g.conns[c].dst];
      var s := g.conns[c].src;
      assert s in ordering[..i];
      var k :| 0 <= k < i && ordering[k] == s;
      assert ordering[rank[s]] == s;
    }
  }

  lemma SortedSize(g: Graph, ordering: seq<nat>)
    requires Sorted(g, ordering) && forall e: nat | e < g.size :: e in ordering
    ensures |ordering| == g.size
  {
    assert Members(ordering) == Below(g.size);
  }

  function Members(s: seq<nat>): (m: set<nat>)
    ensures forall e :: e in m <==> e in s
    ensures (forall i, j | 0 <= i < j < |s| :: s[i] != s[j]) ==> |m| == |s|
  {
    if s == [] then {} else
      assert forall e :: e in s <==> e == s[0] || e in s[1..];
      {s[0]} + Members(s[1..])
  }

  // ----- the check -----

  /** A depth-first search from the end nodes against the direction of the data. */
  class CycleCheck {
    const g: Graph
    /** Elements all of whose inputs have been seen; and the elements the search is inside of. */
    var ordering: seq<nat>
    var visited: set<nat>

    constructor (g: Graph)
      requires WellFormed(g)
      ensures this.g == g && ordering == [] && visited == {}
    {
      this.g := g;
      ordering, visited := [], {};
    }

    /** An element that only produces is an end node when nothing is connected to it; a processor always is. */
    method IsEndNode(e: nat) returns (end: bool)
      ensures end <==> e !in g.producers || Outs(g, e) == {}
    {
      if e !in g.producers { return true; }
      var c := 0;
      while c < |g.conns|
        invariant c <= |g.conns|
        invariant forall k: nat | k < c :: g.conns[k].src != e
      {
        if g.conns[c].src == e {
          assert c in Outs(g, e);
          return false;
        }
        c := c + 1;
      }
      end := true;
    }

    ghost predicate Searching(e: nat)
      reads this
    {
      && WellFormed(g) && Sorted(g, ordering) && e < g.size
      && (forall v | v in visited :: v < g.size && v !in ordering && Feeds(g, e, v))
    }

    /** The search has come back to an element it was inside of, and listed it last. */
    ghost predicate CycleFound()
      reads this
    {
      ordering != [] && ordering[|ordering| - 1] < g.size && Feeds(g, ordering[|ordering| - 1], ordering[|ordering| - 1])
    }

    /** Visits an element: its inputs first, in the order of its pins. */
    method Visit(e: nat) returns (ok: bool)
      requires Searching(e)
      modifies this
      decreases g.size - |visited|, 1
      ensures ok ==> Sorted(g, ordering) && old(ordering) <= ordering && e in ordering && visited == old(visited)
      ensures ok ==> forall v | v in visited :: v !in ordering
      ensures !ok ==> CycleFound()
    {
      if e in ordering { return true; }
      if e in visited {
        ordering := ordering + [e];
        return false;
      }
      if e in g.producers {
        SortedAppend(g, ordering, e);
        ordering := ordering + [e];
        return true;
      }
      VisitedBelow(e);
      visited := visited + {e};
      ok := VisitInputs(e);
      if ok {
        visited := visited - {e};
        SortedAppend(g, ordering, e);
        ordering := ordering + [e];
      }
    }

    lemma VisitedBelow(e: nat)
      requires e < g.size && e !in visited && forall v | v in visited :: v < g.size
      ensures |visited + {e}| == |visited| + 1 <= g.size
    {
      SubsetSize(visited + {e}, Below(g.size));
    }

    method VisitInputs(e: nat) returns (ok: bool)
      requires Sorted(g, ordering) && WellFormed(g) && e in visited && |visited| <= g.size
      requires forall v | v in visited :: v < g.size && v !in ordering && (v == e || Feeds(g, e, v))
      modifies this
      decreases g.size - |visited|, 2
      ensures ok ==> Sorted(g, ordering) && old(ordering) <= ordering && visited == old(visited)
      ensures ok ==> forall v | v in visited :: v !in ordering
      ensures ok ==> forall c | 0 <= c < |g.conns| && g.conns[c].dst == e :: g.conns[c].src in ordering
      ensures !ok ==> CycleFound()
    {
      var c := 0;
      while c < |g.conns|
        invariant c <= |g.conns| && Sorted(g, ordering) && old(ordering) <= ordering && visited == old(visited)
        invariant forall v | v in visited :: v !in ordering
        invariant forall k: nat | k < c && g.conns[k].dst == e :: g.conns[k].src in ordering
      {
        if g.conns[c].dst == e {
          InputSearches(c);
          ok := Visit(g.conns[c].src);
          if !ok { return false; }
        }
        c := c + 1;
      }
      ok := true;
    }

    lemma InputSearches(c: nat)
      requires WellFormed(g) && Sorted(g, ordering) && c < |g.conns|
      requires forall v | v in visited :: v < g.size && v !in ordering && (v == g.conns[c].dst || Feeds(g, g.conns[c].dst, v))
      ensures Searching(g.conns[c].src)
    {
      forall v | v in visited ensures Feeds(g, g.conns[c].src, v) {
        ConnectionFeeds(g, c);
        if v != g.conns[c].dst { FeedsOn(g, c, v); }
      }
    }

    /**
     * The whole check: true exactly when the graph has no cycle, and then the
     * ordering lists every element once, each after the elements that feed it;
     * when there is one, the element listed last is on it.
     */
    method GenerateGraphOrdering() returns (ok: bool)
      requires WellFormed(g) && g.size > 0 && ordering == [] && visited == {}
      modifies this
      ensures ok <==> Acyclic(g)
      ensures ok ==> Sorted(g, ordering) && |ordering| == g.size && forall e: nat | e < g.size :: e in ordering
      ensures ok ==> Ranked(g, Ranks(g, ordering))
      ensures !ok ==> CycleFound()
    {
      var endNodes: set<nat> := {};
      var e := 0;
      while e < g.size
        invariant e <= g.size
        invariant ordering == [] && visited == {}
        invariant forall k: nat :: k in endNodes <==> k < e && (k !in g.producers || Outs(g, k) == {})
      {
        var end := IsEndNode(e);
        if end { endNodes := endNodes + {e}; }
        e := e + 1;
      }
      SomeEndNode(g, endNodes);
      if endNodes == {} { return false; }
      var todo := endNodes;
      while todo != {}
        invariant todo <= endNodes && Sorted(g, ordering) && visited == {}
        invariant forall k | k in endNodes && k !in todo :: k in ordering
      {
        var node :| node in todo;
        ok := Visit(node);
        if !ok { return; }
        todo := todo - {node};
      }
      EndNodesReachAll(g, endNodes, ordering);
      SortedSize(g, ordering);
      SortedRanks(g, ordering);
      RankedIsAcyclic(g, Ranks(g, ordering));
      ok := true;
    }
  }

  /** There is always an end node: a producer feeds a processor, and every processor is one. */
  lemma SomeEndNode(g: Graph, endNodes: set<nat>)
    requires WellFormed(g) && g.size > 0
    requires forall k: nat :: k in endNodes <==> k < g.size && (k !in g.producers || Outs(g, k) == {})
    ensures endNodes != {}
  {
    if 0 in g.producers && Outs(g, 0) != {} {
      var c :| c in Outs(g, 0);
      assert g.conns[c].dst in endNodes;
    } else {
      assert 0 in endNodes;
    }
  }

  /** Every element is an end node or feeds a processor, so a search from the end nodes misses none. */
  lemma EndNodesReachAll(g: Graph, endNodes: set<nat>, ordering: seq<nat>)
    requires WellFormed(g) && Sorted(g, ordering)
    requires forall k: nat :: k in endNodes <==> k < g.size && (k !in g.producers || Outs(g, k) == {})
    requires forall k | k in endNodes :: k in ordering
    ensures forall e: nat | e < g.size :: e in ordering
  {
    forall e: nat | e < g.size ensures e in ordering {
      if e !in endNodes {
        var c :| c in Outs(g, e);
        var d := g.conns[c].dst;
        assert d in endNodes;
        var i :| 0 <= i < |ordering| && ordering[i] == d;
        assert e in ordering[..i];
      }
    }
  }
}
