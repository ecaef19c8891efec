/** Schedules of n threads, and fair ones: those made of rounds in which every thread gets a turn. */
module Schedules {

  ghost predicate Schedule(n: nat, schedule: seq<nat>) {
    forall i :: 0 <= i < |schedule| ==> schedule[i] < n
  }

  /** A round gives every thread at least one turn, in any order and with any repetitions. */
  ghost predicate Round(n: nat, schedule: seq<nat>) {
    Schedule(n, schedule) && forall t: nat :: t < n ==> t in schedule
  }

  ghost predicate AllRounds(n: nat, rounds: seq<seq<nat>>) {
    forall i :: 0 <= i < |rounds| ==> Round(n, rounds[i])
  }

  /** The first k rounds as one schedule. */
  function Whole(rounds: seq<seq<nat>>, k: nat): (r: seq<nat>)
    requires k <= |rounds|
  {
    if k == 0 then [] else Whole(rounds, k - 1) + rounds[k - 1]
  }

  lemma {:induction false} WholeSchedule(n: nat, rounds: seq<seq<nat>>, k: nat)
    requires k <= |rounds| && AllRounds(n, rounds)
    ensures Schedule(n, Whole(rounds, k))
  {
    if k > 0 {
      WholeSchedule(n, rounds, k - 1);
      assert Round(n, rounds[k - 1]);
    }
  }
}
