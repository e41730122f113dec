/** Choosing the best active backend under a ranking: first by rank, then by backend number. */
module Preference {

  ghost predicate Before(rank: nat -> nat, a: nat, b: nat) {
    rank(a) < rank(b) || (rank(a) == rank(b) && a < b)
  }

  ghost predicate IsChoice(rank: nat -> nat, active: set<nat>, b: nat) {
    b in active && forall a :: a in active && a != b ==> Before(rank, b, a)
  }

  lemma {:induction false} ChoiceExists(rank: nat -> nat, active: set<nat>)
    requires active != {}
    ensures exists b :: IsChoice(rank, active, b)
    decreases |active|
  {
    var x :| x in active;
    var rest := active - {x};
    assert active == rest + {x};
    if rest == {} {
      assert IsChoice(rank, active, x);
    } else {
      ChoiceExists(rank, rest);
      var b :| IsChoice(rank, rest, b);
      assert IsChoice(rank, active, if Before(rank, b, x) then b else x);
    }
  }

  ghost function Choice(rank: nat -> nat, active: set<nat>): (b: nat)
    requires active != {}
    ensures IsChoice(rank, active, b)
  {
    ChoiceExists(rank, active);
    var b :| IsChoice(rank, active, b);
    b
  }

  lemma {:induction false} ChoiceIsUnique(rank: nat -> nat, active: set<nat>, a: nat, b: nat)
    requires IsChoice(rank, active, a) && IsChoice(rank, active, b)
    ensures a == b
  {
    assert !(Before(rank, a, b) && Before(rank, b, a));
  }

  /** Minimal disruption, in full: between any two sets of active backends the choice changes only
      if the old choice has left or the new choice has joined. */
  lemma {:induction false} Disruption(rank: nat -> nat, before: set<nat>, after: set<nat>)
    requires before != {} && after != {}
    ensures
      var b, a := Choice(rank, before), Choice(rank, after);
      a == b || b in before - after || a in after - before
  {
    var b, a := Choice(rank, before), Choice(rank, after);
    assert !(Before(rank, a, b) && Before(rank, b, a));
  }

  /** Removing one backend moves only the flows that were on it. */
  lemma {:induction false} RemovalDisruption(rank: nat -> nat, active: set<nat>, gone: nat)
    requires active - {gone} != {}
    ensures active != {}
    ensures Choice(rank, active) != gone ==> Choice(rank, active - {gone}) == Choice(rank, active)
  {
    Disruption(rank, active, active - {gone});
  }

  /** Adding one backend moves flows only onto it. */
  lemma {:induction false} AdditionDisruption(rank: nat -> nat, active: set<nat>, joined: nat)
    requires active != {}
    ensures Choice(rank, active + {joined}) in {Choice(rank, active), joined}
  {
    Disruption(rank, active, active + {joined});
  }
}
