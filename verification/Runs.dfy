/** Building runs of the protocol one step at a time. */
module Runs {
  import opened Common
  import opened Uuids
  import opened Ledger
  import opened Serial
  import opened Protocol

  predicate FaultFree(steps: seq<Step>) {
    forall step <- steps :: step.Arrive? || step.Advance? || step.SetAccount?
  }

  lemma Start()
    ensures Run([]) == Some(INITIAL)
  {
  }

  lemma Extend(steps: seq<Step>, s: State, step: Step) returns (steps': seq<Step>, s': State)
    requires Run(steps) == Some(s) && Enabled(s, step)
    ensures Run(steps') == Some(s') && s' == Do(s, step)
    ensures steps' == steps + [step]
  {
    steps', s' := steps + [step], Do(s, step);
    assert steps'[..|steps|] == steps;
  }

  lemma OpenBothAccounts(first: Uuid, second: Uuid) returns (steps: seq<Step>, s: State)
    requires first != second
    ensures Run(steps) == Some(s) && s.processes == [] && s.redis == map[]
    ensures s.db.transactions == [] && s.db.ledger == [] && FaultFree(steps)
    ensures ActiveAccount(s.db, first).Success? && ActiveAccount(s.db, second).Success?
  {
    Start();
    hide Run;
    steps, s := [], INITIAL;
    steps, s := Extend(steps, s, SetAccount(first, Active));
    steps, s := Extend(steps, s, SetAccount(second, Active));
  }
}
