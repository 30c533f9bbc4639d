/** Paths through the states of a Raft cluster, for the runs that show why a hypothesis is needed. */
module RaftPaths {
  import opened RaftCluster

  /** Which hypotheses a path obeys: those of `IsRun`, or those of `IsCompactingRun`. */
  datatype Rule = WithoutCompaction | WithCompaction

  ghost predicate Allowed(rule: Rule, s: Cluster, step: Step) {
    && Enabled(s, step) && RepliesInTerm(s, step)
    && match rule
       case WithoutCompaction => NoCompaction(s)
       case WithCompaction => AppendIsHarmless(s, step)
  }

  /** From s to s' by allowed steps. */
  ghost predicate Leads(rule: Rule, s: Cluster, steps: seq<Step>, s': Cluster)
    decreases |steps|
  {
    if steps == [] then s' == s
    else Allowed(rule, s, steps[0]) && Leads(rule, After(s, steps[0]), steps[1..], s')
  }

  lemma {:induction false} LeadsOn(rule: Rule, s: Cluster, steps: seq<Step>, s': Cluster, more: seq<Step>, s'': Cluster)
    requires Leads(rule, s, steps, s') && Leads(rule, s', more, s'')
    ensures Leads(rule, s, steps + more, s'')
    decreases |steps|
  {
    hide After, Enabled, RepliesInTerm, AppendIsHarmless;
    if steps == [] {
      assert steps + more == more;
    } else {
      LeadsOn(rule, After(s, steps[0]), steps[1..], s', more, s'');
      assert (steps + more)[1..] == steps[1..] + more;
    }
  }

  lemma StepLeads(rule: Rule, s: Cluster, step: Step)
    requires Allowed(rule, s, step)
    ensures Enabled(s, step) && Leads(rule, s, [step], After(s, step))
  {
    hide After, Enabled, RepliesInTerm, AppendIsHarmless;
    assert [step][1..] == [];
    assert Leads(rule, After(s, step), [], After(s, step));
  }

  lemma OneMore(rule: Rule, s: Cluster, steps: seq<Step>, s': Cluster, step: Step)
    requires Leads(rule, s, steps, s') && Allowed(rule, s', step)
    ensures Enabled(s', step)
    ensures Leads(rule, s, steps + [step], After(s', step))
  {
    StepLeads(rule, s', step);
    hide *;
    LeadsOn(rule, s, steps, s', [step], After(s', step));
  }
}
