/** The home page's session state: the three lists its child components read and replace. */
module HomePage {
  import opened Records
  import opened Eligibility

  class Home {
    var people: seq<string>
    var prizes: seq<Prize>
    var winners: seq<Winner>

    /** The three lists as one value. */
    function Snapshot(): Session
      reads this
    {
      Session(people, prizes, winners)
    }

    /** Before anything is loaded every list is empty. */
    constructor()
      ensures people == [] && prizes == [] && winners == []
    {
      people := [];
      prizes := [];
      winners := [];
    }

    /** `handleLotteryComplete`: the new entries are appended to the ledger, in draw order. */
    method HandleLotteryComplete(newWinners: seq<Winner>)
      modifies this
      ensures winners == old(winners) + newWinners
      ensures people == old(people) && prizes == old(prizes)
    {
      winners := winners + newWinners;
    }

    /** The `setPrizes` setter handed to the draw panel and the ledger view. */
    method SetPrizes(updated: seq<Prize>)
      modifies this
      ensures prizes == updated
      ensures people == old(people) && winners == old(winners)
    {
      prizes := updated;
    }

    /** The `setWinners` setter handed to the ledger view. */
    method SetWinners(updated: seq<Winner>)
      modifies this
      ensures winners == updated
      ensures people == old(people) && prizes == old(prizes)
    {
      winners := updated;
    }
  }

  /**
   * The ledger names nobody twice as long as every appended batch is duplicate-free and names
   * only participants not already in the ledger, which is what a commit appends.
   */
  lemma AppendKeepsNamesDistinct(winners: seq<Winner>, newWinners: seq<Winner>)
    requires Distinct(Names(winners)) && Distinct(Names(newWinners))
    requires forall w :: w in newWinners ==> !HasWon(winners, w.name)
    ensures Distinct(Names(winners + newWinners))
  {
    var all := Names(winners + newWinners);
    NamesAppend(winners, newWinners);
    forall i, j | 0 <= i < j < |all| ensures all[i] != all[j] {
      if i < |winners| <= j {
        var w := newWinners[j - |winners|];
        assert w in newWinners && all[j] == w.name;
        assert all[i] == Names(winners)[i];
      }
    }
  }
}
