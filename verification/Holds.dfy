/**
  What the candidate, hold-blocked and eligible counts of one table are to each other
  (adapters/postgres/sql.go, candidateWhere, heldCountStatement and eligibilityWhere).
  */
module Holds {
  import opened Outcomes
  import opened Conditions
  import opened Job
  import opened Sql
  import opened CompilerCorrectness
  import opened Statements

  /** A plain table: a row at every occupied physical location (ctid). */
  type Table = map<nat, Row>

  /** The locations whose row makes a clause's text TRUE, which is what a WHERE keeps. */
  function Selected(t: Table, text: string, args: seq<Value>, ord: Ordering): set<nat> {
    set id | id in t && EvalText(text, t[id], args, ord).True?
  }

  ghost function Eligible(t: Table, p: Predicate, condition: Option<Condition>, ord: Ordering): set<nat>
    requires condition.Some? ==> WellFormed(condition.value)
  {
    set id | id in t && EligibleMeaning(p, condition, t[id], ord).True?
  }

  ghost function Candidates(t: Table, p: Predicate, condition: Option<Condition>, holds: seq<Condition>,
                            ord: Ordering): (ids: set<nat>)
    requires Compilable(p, condition, holds)
    ensures ids <= t.Keys
  {
    set id | id in t && CandidateMeaning(p, condition, holds, t[id], ord).True?
  }

  ghost function Held(t: Table, p: Predicate, condition: Option<Condition>, holds: seq<Condition>,
                      ord: Ordering): set<nat>
    requires Compilable(p, condition, holds)
  {
    set id | id in t && HeldMeaning(p, condition, holds, t[id], ord).True?
  }

  /** The count and delete clauses select the candidates; the held clause selects the held rows. */
  lemma ClausesSelect(t: Table, p: Predicate, condition: Option<Condition>, holds: seq<Condition>, later: seq<Value>,
                      ord: Ordering)
    requires Compilable(p, condition, holds)
    ensures CandidateWhere(p, condition, holds).Ok? && HeldWhere(p, condition, holds).Ok?
    ensures var where := CandidateWhere(p, condition, holds).value;
            Selected(t, where.text, where.arguments + later, ord) == Candidates(t, p, condition, holds, ord)
    ensures var where := HeldWhere(p, condition, holds).value;
            Selected(t, where.text, where.arguments + later, ord) == Held(t, p, condition, holds, ord)
  {
    CandidateReads(p, condition, holds);
    HeldReads(p, condition, holds);
    var where, held := CandidateWhere(p, condition, holds).value, HeldWhere(p, condition, holds).value;
    forall id | id in t
      ensures EvalText(where.text, t[id], where.arguments + later, ord)
              == CandidateMeaning(p, condition, holds, t[id], ord)
      ensures EvalText(held.text, t[id], held.arguments + later, ord) == HeldMeaning(p, condition, holds, t[id], ord)
    {
      CandidateClauseCorrect(p, condition, holds, later, t[id], ord);
      HeldClauseCorrect(p, condition, holds, later, t[id], ord);
    }
  }

  /** A candidate is known to be under no hold at all: not one of them is true or unknown. */
  lemma CandidateEscapesEveryHold(t: Table, p: Predicate, condition: Option<Condition>, holds: seq<Condition>,
                                  ord: Ordering, id: nat)
    requires Compilable(p, condition, holds) && id in Candidates(t, p, condition, holds, ord)
    ensures forall i :: 0 <= i < |holds| ==> Meanings(holds, t[id], Instant(p.at), ord)[i] == False
  {
    var ts := Meanings(holds, t[id], Instant(p.at), ord);
    forall i | 0 <= i < |holds| ensures ts[i] == False {
      assert ts[i] in ts;
    }
  }

  /**
    Candidates and held rows are disjoint parts of the eligible rows, and they exhaust them -
    the two counts add up to the eligible count - if and only if no eligible row leaves the hold
    disjunction unknown.
    */
  lemma HoldPartition(t: Table, p: Predicate, condition: Option<Condition>, holds: seq<Condition>, ord: Ordering)
    requires Compilable(p, condition, holds)
    ensures Candidates(t, p, condition, holds, ord) !! Held(t, p, condition, holds, ord)
    ensures Candidates(t, p, condition, holds, ord) + Held(t, p, condition, holds, ord)
            <= Eligible(t, p, condition, ord)
    ensures |Candidates(t, p, condition, holds, ord)| + |Held(t, p, condition, holds, ord)|
            == |Eligible(t, p, condition, ord)|
            <==> forall id :: id in Eligible(t, p, condition, ord) ==> !HoldMeaning(p, holds, t[id], ord).Unknown?
  {
    RowsSplit(t, p, condition, holds, ord);
    var truth := (id: nat) => if id in t then HoldMeaning(p, holds, t[id], ord) else Unknown;
    TruthPartition(Eligible(t, p, condition, ord), Candidates(t, p, condition, holds, ord),
                   Held(t, p, condition, holds, ord), truth);
  }

  /** On each row, the three clauses divide as the hold's truth value does. */
  lemma RowsSplit(t: Table, p: Predicate, condition: Option<Condition>, holds: seq<Condition>, ord: Ordering)
    requires Compilable(p, condition, holds)
    ensures forall id :: id in Candidates(t, p, condition, holds, ord) <==>
              id in Eligible(t, p, condition, ord) && HoldMeaning(p, holds, t[id], ord).False?
    ensures forall id :: id in Held(t, p, condition, holds, ord) <==>
              id in Eligible(t, p, condition, ord) && HoldMeaning(p, holds, t[id], ord).True?
  {
  }

  /** Splitting a set by a truth value: the known parts exhaust it exactly when nothing is unknown. */
  lemma TruthPartition(whole: set<nat>, no: set<nat>, yes: set<nat>, truth: nat -> Truth)
    requires forall id :: id in no <==> id in whole && truth(id).False?
    requires forall id :: id in yes <==> id in whole && truth(id).True?
    ensures no !! yes && no + yes <= whole
    ensures |no| + |yes| == |whole| <==> forall id :: id in whole ==> !truth(id).Unknown?
  {
    var open := set id | id in whole && truth(id).Unknown?;
    assert whole == no + yes + open && no !! yes && (no + yes) !! open;
    assert |no + yes| == |no| + |yes|;
    assert |whole| == |no + yes| + |open|;
    assert open == {} <==> |open| == 0;
  }
}
