/** Who may still be drawn: the participants that no ledger entry names. */
module Eligibility {
  import opened Records

  /** `winners.some(winner => winner.name === person)` */
  predicate HasWon(winners: seq<Winner>, person: string) {
    person in Names(winners)
  }

  /**
   * `people.filter(person => !winners.some(winner => winner.name === person))`: the participants
   * not yet in the ledger, in list order. Nobody is added, and a duplicate-free list stays so.
   */
  function Eligible(people: seq<string>, winners: seq<Winner>): (r: seq<string>)
    ensures forall x :: x in r <==> x in people && !HasWon(winners, x)
    ensures multiset(r) <= multiset(people)
    ensures Distinct(people) ==> Distinct(r)
  {
    if people == [] then []
    else
      var rest := Eligible(people[1..], winners);
      assert people == [people[0]] + people[1..];
      if HasWon(winners, people[0]) then rest else [people[0]] + rest
  }

  /** Before anything is drawn every participant is eligible. */
  lemma {:induction false} EligibleWithEmptyLedger(people: seq<string>)
    ensures Eligible(people, []) == people
  {
    if people != [] {
      EligibleWithEmptyLedger(people[1..]);
      assert !HasWon([], people[0]);
    }
  }

  /** Appending ledger entries can only shrink the eligible list: nobody becomes eligible by a draw. */
  lemma {:induction false} EligibleAfterAppend(people: seq<string>, winners: seq<Winner>, added: seq<Winner>)
    ensures forall x :: x in Eligible(people, winners + added) <==> x in Eligible(people, winners) && x !in Names(added)
  {
    NamesAppend(winners, added);
  }

  /**
   * Deleting a ledger entry makes its person eligible again, provided they are still a participant
   * and no other entry names them; other names may repeat in the ledger.
   */
  lemma DeletedWinnerEligibleAgain(people: seq<string>, winners: seq<Winner>, index: int)
    requires 0 <= index < |winners| && winners[index].name in people
    requires forall k :: 0 <= k < |winners| && k != index ==> winners[k].name != winners[index].name
    ensures winners[index].name in Eligible(people, DeleteAt(winners, index))
  {
    var r := DeleteAt(winners, index);
    var x := winners[index].name;
    forall k | 0 <= k < |r| ensures Names(r)[k] != x {
      var s := if k < index then k else k + 1;
      DeleteAtIndex(winners, index, k);
      assert Names(r)[k] == r[k].name == winners[s].name;
    }
  }

  /** A ledger that names "a" twice still lets a delete of the only "b" entry make "b" eligible. */
  lemma DeleteBesideRepeatedName()
    ensures var winners := [Winner("a", "P"), Winner("a", "P"), Winner("b", "P")];
      && !Distinct(Names(winners))
      && "b" in Eligible(["a", "b"], DeleteAt(winners, 2))
  {
    var winners := [Winner("a", "P"), Winner("a", "P"), Winner("b", "P")];
    assert Names(winners)[0] == Names(winners)[1];
    DeletedWinnerEligibleAgain(["a", "b"], winners, 2);
  }
}
