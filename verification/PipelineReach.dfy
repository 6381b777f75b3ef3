/** Sequences of steps between two states of the pipeline. */
module PipelineReach {
  import opened PipelineGraph
  import opened PipelineSteps
  import opened PipelineInvariant
  import opened PipelineRuns

  ghost predicate Leads(sys: System, st: State, steps: seq<Step>, t: State)
    decreases |steps|
  {
    if steps == [] then t == st
    else Enabled(sys, st, steps[0]) && Leads(sys, Next(sys, st, steps[0]), steps[1..], t)
  }

  ghost predicate Reaches(sys: System, st: State, t: State) {
    exists steps :: Leads(sys, st, steps, t)
  }

  lemma {:induction false} LeadsBoth(sys: System, st: State, steps: seq<Step>, m: State, more: seq<Step>, t: State)
    requires Leads(sys, st, steps, m) && Leads(sys, m, more, t)
    ensures Leads(sys, st, steps + more, t)
    decreases |steps|
  {
    if steps == [] {
      assert steps + more == more;
    } else {
      LeadsBoth(sys, Next(sys, st, steps[0]), steps[1..], m, more, t);
      assert (steps + more)[1..] == steps[1..] + more;
    }
  }

  lemma ReachesSelf(sys: System, st: State)
    ensures Reaches(sys, st, st)
  {
    assert Leads(sys, st, [], st);
  }

  lemma ReachesBoth(sys: System, st: State, m: State, t: State)
    requires Reaches(sys, st, m) && Reaches(sys, m, t)
    ensures Reaches(sys, st, t)
  {
    var steps :| Leads(sys, st, steps, m);
    var more :| Leads(sys, m, more, t);
    LeadsBoth(sys, st, steps, m, more, t);
  }

  lemma ReachesOn(sys: System, st: State, m: State, step: Step)
    requires Reaches(sys, st, m) && Enabled(sys, m, step)
    ensures Reaches(sys, st, Next(sys, m, step))
  {
    assert Leads(sys, Next(sys, m, step), [], Next(sys, m, step));
    assert Leads(sys, m, [step], Next(sys, m, step));
    ReachesBoth(sys, st, m, Next(sys, m, step));
  }

  lemma {:induction false} LeadsKeeps(sys: System, st: State, steps: seq<Step>, t: State)
    requires Inv(sys, st) && Leads(sys, st, steps, t)
    ensures Inv(sys, t)
    decreases |steps|
  {
    if steps != [] {
      StepKeeps(sys, st, steps[0]);
      LeadsKeeps(sys, Next(sys, st, steps[0]), steps[1..], t);
    }
  }

  lemma ReachesKeeps(sys: System, st: State, t: State)
    requires Inv(sys, st) && Reaches(sys, st, t)
    ensures Inv(sys, t)
  {
    var steps :| Leads(sys, st, steps, t);
    LeadsKeeps(sys, st, steps, t);
  }

  lemma ExtendsByOne(sys: System, memory: seq<Memory>, states: seq<State>, steps: seq<Step>, step: Step)
    requires Execution(sys, memory, states, steps) && Enabled(sys, states[|steps|], step)
    ensures Execution(sys, memory, states + [Next(sys, states[|steps|], step)], steps + [step])
  {
    var states', steps' := states + [Next(sys, states[|steps|], step)], steps + [step];
    forall i | 0 <= i < |steps'| ensures Enabled(sys, states'[i], steps'[i]) && states'[i + 1] == Next(sys, states'[i], steps'[i]) {
      assert states'[i] == states[i];
      if i < |steps| {
        assert states'[i + 1] == states[i + 1] && steps'[i] == steps[i];
      }
    }
  }

  /** What is reached from the last state of an execution is the last state of a longer one. */
  lemma {:induction false} Extends(sys: System, memory: seq<Memory>, states: seq<State>, steps: seq<Step>, more: seq<Step>, t: State)
    returns (states': seq<State>)
    requires Execution(sys, memory, states, steps) && Leads(sys, states[|steps|], more, t)
    ensures Execution(sys, memory, states', steps + more) && states'[|steps + more|] == t
    decreases |more|
  {
    if more == [] {
      states' := states;
      assert steps + more == steps;
    } else {
      ExtendsByOne(sys, memory, states, steps, more[0]);
      var longer := states + [Next(sys, states[|steps|], more[0])];
      states' := Extends(sys, memory, longer, steps + [more[0]], more[1..], t);
      assert steps + [more[0]] + more[1..] == steps + more;
    }
  }
}
