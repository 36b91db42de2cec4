/**
 * The draw as a transition of the session: the guard `startLottery` checks before it enters the
 * rolling state, and the commit `stopLottery` performs (draw, ledger append, prize decrement).
 */
module DrawEngine {
  import opened Records
  import opened Inventory
  import opened Eligibility
  import opened Selection

  /** Why a start is refused, or that it may go ahead. */
  datatype Verdict = Ready | PrizeShortage | PeopleShortage

  /**
   * The two guards of `startLottery`, in order: the chosen prize must be found with at least
   * `count` units left, then at least `count` participants must still be eligible.
   */
  function CheckStart(s: Session, prize: string, count: int): (v: Verdict)
    ensures v == PrizeShortage <==>
              (forall i :: 0 <= i < |s.prizes| ==> s.prizes[i].name != prize) ||
              count > Find(s.prizes, prize).value.count
    ensures v == Ready <==>
              (exists i :: 0 <= i < |s.prizes| && s.prizes[i].name == prize && count <= s.prizes[i].count &&
                           forall k :: 0 <= k < i ==> s.prizes[k].name != prize) &&
              count <= |Eligible(s.people, s.winners)|
  {
    var found := Find(s.prizes, prize);
    if found.None? || count > found.value.count then PrizeShortage
    else if |Eligible(s.people, s.winners)| < count then PeopleShortage
    else Ready
  }

  /** The names `stopLottery` draws for a request of `count` from the session's eligible participants. */
  function Drawn(s: Session, count: int, rolls: seq<nat>): seq<string>
    requires FitsSplice(rolls, |Eligible(s.people, s.winners)|, count)
  {
    SpliceDraw(Eligible(s.people, s.winners), count, rolls)
  }

  /**
   * The session after `stopLottery`: the drawn names, each tagged with the current prize, are
   * appended to the ledger, and the prizes with that name lose as many units as names were drawn.
   */
  function Commit(s: Session, prize: string, count: int, rolls: seq<nat>): (r: Session)
    requires FitsSplice(rolls, |Eligible(s.people, s.winners)|, count)
    ensures r.people == s.people
    ensures |r.winners| == |s.winners| + DrawSize(count, |Eligible(s.people, s.winners)|)
    ensures r.winners[..|s.winners|] == s.winners
  {
    var d := Drawn(s, count, rolls);
    Session(s.people, Adjust(s.prizes, prize, -|d|), s.winners + Award(d, prize))
  }

  /** The commit assembled from the entries a run of the commit loop produced. */
  lemma CommitFromEntries(s: Session, prize: string, count: int, rolls: seq<nat>, newWinners: seq<Winner>)
    requires FitsSplice(rolls, |Eligible(s.people, s.winners)|, count)
    requires newWinners == Award(Drawn(s, count, rolls), prize)
    ensures Commit(s, prize, count, rolls) == Session(s.people, Adjust(s.prizes, prize, -|newWinners|), s.winners + newWinners)
    ensures Names(newWinners) == Drawn(s, count, rolls)
  {
    NamesOfAward(Drawn(s, count, rolls), prize);
  }

  /**
   * The new ledger entries: as many as requested while eligible participants last
   * (min(count, |eligible|)), pairwise distinct when the participant list is, each for an eligible
   * participant, and each recording the current prize.
   */
  lemma CommitWinners(s: Session, prize: string, count: int, rolls: seq<nat>)
    requires FitsSplice(rolls, |Eligible(s.people, s.winners)|, count)
    ensures var added := Commit(s, prize, count, rolls).winners[|s.winners|..];
      && |added| == (if count <= 0 then 0 else if count < |Eligible(s.people, s.winners)| then count else |Eligible(s.people, s.winners)|)
      && (Distinct(s.people) ==> Distinct(Names(added)))
      && (forall w :: w in added ==> w.prize == prize && w.name in s.people && !HasWon(s.winners, w.name))
  {
    var pool := Eligible(s.people, s.winners);
    var d := Drawn(s, count, rolls);
    assert Commit(s, prize, count, rolls).winners[|s.winners|..] == Award(d, prize);
    NamesOfAward(d, prize);
    AwardEntries(d, prize);
    SpliceDrawMembers(pool, count, rolls);
    if Distinct(s.people) {
      SpliceDrawDistinct(pool, count, rolls);
    }
  }

  /**
   * The prize update of `stopLottery`: prizes named after the current prize lose exactly as many
   * units as entries were appended; every other prize is unchanged; order, names and images are kept.
   */
  lemma CommitPrizes(s: Session, prize: string, count: int, rolls: seq<nat>)
    requires FitsSplice(rolls, |Eligible(s.people, s.winners)|, count)
    ensures var r := Commit(s, prize, count, rolls);
      var n := |r.winners| - |s.winners|;
      && |r.prizes| == |s.prizes|
      && (forall i :: 0 <= i < |s.prizes| && s.prizes[i].name != prize ==> r.prizes[i] == s.prizes[i])
      && (forall i :: 0 <= i < |s.prizes| && s.prizes[i].name == prize ==>
            r.prizes[i] == s.prizes[i].(count := s.prizes[i].count - n))
  {
  }

  /**
   * When the start guards hold for the state the commit runs on, no prize count goes negative:
   * the prize `find` returned had at least `count` units, and at most `count` names are drawn.
   */
  lemma GuardedCommitKeepsStock(s: Session, prize: string, count: int, rolls: seq<nat>)
    requires FitsSplice(rolls, |Eligible(s.people, s.winners)|, count)
    requires CheckStart(s, prize, count) == Ready
    requires NonNegative(s.prizes) && UniqueNames(s.prizes)
    ensures NonNegative(Commit(s, prize, count, rolls).prizes)
  {
    CommitWithinStock(s, prize, count, rolls);
  }

  /** A commit that draws no more than the found prize holds keeps every count non-negative. */
  lemma CommitWithinStock(s: Session, prize: string, count: int, rolls: seq<nat>)
    requires FitsSplice(rolls, |Eligible(s.people, s.winners)|, count)
    requires Find(s.prizes, prize).Some? && count <= Find(s.prizes, prize).value.count
    requires NonNegative(s.prizes) && UniqueNames(s.prizes)
    ensures NonNegative(Commit(s, prize, count, rolls).prizes)
  {
    var d := Drawn(s, count, rolls);
    var found := Find(s.prizes, prize).value;
    assert found.count >= 0;
    DecrementKeepsNonNegative(s.prizes, prize, |d|);
  }

  /**
   * A draw moves units of a prize from stock to the ledger: for any prize held by exactly one
   * configuration entry, units in stock plus units recorded in the ledger stay the same; prizes
   * other than the one drawn are not touched at all.
   */
  lemma CommitConserves(s: Session, prize: string, count: int, rolls: seq<nat>, name: string)
    requires FitsSplice(rolls, |Eligible(s.people, s.winners)|, count)
    requires name != prize || Holders(s.prizes, name) == 1
    ensures var r := Commit(s, prize, count, rolls);
      Stock(r.prizes, name) + Awarded(r.winners, name) == Stock(s.prizes, name) + Awarded(s.winners, name)
  {
    var d := Drawn(s, count, rolls);
    BatchConserves(s.prizes, s.winners, d, prize, name);
  }

  /**
   * The commit re-reads the count field instead of the count the guard approved. With one unit of
   * prize "A" and three participants the guard approves a request of 1; if the count is then set
   * to 3 before stopping, three names are drawn and "A" is left with -2 units.
   */
  lemma CountEditOverdraws()
    ensures var s := Session(["p1", "p2", "p3"], [Prize("A", "", 1)], []);
      && CheckStart(s, "A", 1) == Ready
      && FitsSplice([0, 0, 0], |Eligible(s.people, s.winners)|, 3)
      && Commit(s, "A", 3, [0, 0, 0]).prizes == [Prize("A", "", -2)]
  {
    var s := Session(["p1", "p2", "p3"], [Prize("A", "", 1)], []);
    EligibleWithEmptyLedger(s.people);
    OverdrawGuard(s);
    ZeroRollsFit();
    OverdrawCommit(s);
  }

  lemma OverdrawGuard(s: Session)
    requires s.prizes == [Prize("A", "", 1)] && |Eligible(s.people, s.winners)| == 3
    ensures CheckStart(s, "A", 1) == Ready
  {
    assert Find(s.prizes, "A") == Some(Prize("A", "", 1));
  }

  lemma OverdrawCommit(s: Session)
    requires s.prizes == [Prize("A", "", 1)] && |Eligible(s.people, s.winners)| == 3
    requires FitsSplice([0, 0, 0], 3, 3)
    ensures Commit(s, "A", 3, [0, 0, 0]).prizes == [Prize("A", "", -2)]
  {
    assert |Drawn(s, 3, [0, 0, 0])| == 3;
    var after := Adjust(s.prizes, "A", -3);
    assert after[0] == Prize("A", "", -2);
    assert Commit(s, "A", 3, [0, 0, 0]).prizes == after;
  }

  lemma ZeroRollsFit()
    ensures FitsSplice([0, 0, 0], 3, 3)
  {
    var rolls: seq<nat> := [0, 0, 0];
    assert FitsSplice(rolls[2..], 1, 1);
    assert FitsSplice(rolls[1..], 2, 2);
  }

  /**
   * Nothing keeps prize names unique, and the start guard checks only the first prize `find`
   * returns while the commit's `map` decrements every prize with that name. With 5 units and then
   * 1 unit both named "A", a request of 3 passes the guard and the second entry is left at -2.
   */
  lemma DuplicateNameOverdraws()
    ensures var s := Session(["p1", "p2", "p3"], [Prize("A", "", 5), Prize("A", "", 1)], []);
      && NonNegative(s.prizes) && !UniqueNames(s.prizes)
      && CheckStart(s, "A", 3) == Ready
      && FitsSplice([0, 0, 0], |Eligible(s.people, s.winners)|, 3)
      && Commit(s, "A", 3, [0, 0, 0]).prizes == [Prize("A", "", 2), Prize("A", "", -2)]
  {
    var s := Session(["p1", "p2", "p3"], [Prize("A", "", 5), Prize("A", "", 1)], []);
    DuplicatePrizes(s.prizes);
    EligibleWithEmptyLedger(s.people);
    DuplicateGuard(s);
    ZeroRollsFit();
    DuplicateCommit(s);
  }

  lemma DuplicatePrizes(prizes: seq<Prize>)
    requires prizes == [Prize("A", "", 5), Prize("A", "", 1)]
    ensures NonNegative(prizes) && !UniqueNames(prizes)
  {
    assert prizes[0].name == prizes[1].name;
  }

  lemma DuplicateGuard(s: Session)
    requires s.prizes == [Prize("A", "", 5), Prize("A", "", 1)] && |Eligible(s.people, s.winners)| == 3
    ensures CheckStart(s, "A", 3) == Ready
  {
    assert Find(s.prizes, "A") == Some(Prize("A", "", 5));
  }

  lemma DuplicateCommit(s: Session)
    requires s.prizes == [Prize("A", "", 5), Prize("A", "", 1)] && |Eligible(s.people, s.winners)| == 3
    requires FitsSplice([0, 0, 0], 3, 3)
    ensures Commit(s, "A", 3, [0, 0, 0]).prizes == [Prize("A", "", 2), Prize("A", "", -2)]
  {
    assert |Drawn(s, 3, [0, 0, 0])| == 3;
    var after := Adjust(s.prizes, "A", -3);
    assert after[0] == Prize("A", "", 2) && after[1] == Prize("A", "", -2);
    assert Commit(s, "A", 3, [0, 0, 0]).prizes == after;
  }

  /**
   * The count input of the wired panel: `Math.min(parseInt(value) || 1, 5)`. Text that does not
   * parse (`None`) and 0 both become 1; the result is never 0 and never above 5, but a negative
   * number passes through unchanged.
   */
  function ClampCount(parsed: Option<int>): (r: int)
    ensures r != 0 && r <= 5
    ensures parsed.None? ==> r == 1
    ensures parsed == Some(0) ==> r == 1
    ensures parsed.Some? && parsed.value != 0 ==> r == if parsed.value < 5 then parsed.value else 5
  {
    var v := if parsed.None? || parsed.value == 0 then 1 else parsed.value;
    if v < 5 then v else 5
  }
}
