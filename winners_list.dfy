/** The ledger view's delete handler: remove one entry and give its unit back to the prize. */
module WinnersList {
  import opened Records
  import opened Inventory
  import opened Eligibility
  import opened Selection
  import opened DrawEngine
  import opened HomePage

  /**
   * `handleDelete(index)`: the entry at `index` leaves the ledger and every prize carrying the
   * entry's prize name gains one unit. An index outside the ledger finds no entry: the ledger
   * setter gets an equal copy, and the prize `map` either fails on the missing record (some prize
   * configured) or yields the empty list again (none configured), so nothing changes.
   */
  function DeleteWinner(s: Session, index: int): (r: Session)
    ensures r.people == s.people
    ensures !(0 <= index < |s.winners|) ==> r == s
  {
    if 0 <= index < |s.winners| then
      Session(s.people, Adjust(s.prizes, s.winners[index].prize, 1), DeleteAt(s.winners, index))
    else s
  }

  /** The handler wired to the home page: the new ledger and the new prize list go to its setters. */
  method HandleDelete(home: Home, index: int)
    modifies home
    ensures home.Snapshot() == DeleteWinner(old(home.Snapshot()), index)
  {
    if 0 <= index < |home.winners| {
      var deleted := home.winners[index];
      home.SetWinners(DeleteAt(home.winners, index));
      home.SetPrizes(Adjust(home.prizes, deleted.prize, 1));
    }
  }

  /**
   * A delete at a valid index shortens the ledger by exactly one, keeps every other entry in its
   * original order, and gives one unit back to each prize named by the deleted entry and to no
   * other; when no prize carries that name the prize list is unchanged.
   */
  lemma DeleteWinnerEffect(s: Session, index: int)
    requires 0 <= index < |s.winners|
    ensures var r := DeleteWinner(s, index);
      var q := s.winners[index].prize;
      && |r.winners| == |s.winners| - 1
      && r.winners == s.winners[..index] + s.winners[index + 1..]
      && |r.prizes| == |s.prizes|
      && (forall i :: 0 <= i < |s.prizes| && s.prizes[i].name == q ==> r.prizes[i] == s.prizes[i].(count := s.prizes[i].count + 1))
      && (forall i :: 0 <= i < |s.prizes| && s.prizes[i].name != q ==> r.prizes[i] == s.prizes[i])
      && ((forall i :: 0 <= i < |s.prizes| ==> s.prizes[i].name != q) ==> r.prizes == s.prizes)
  {
    DeleteAtSlices(s.winners, index);
  }

  /**
   * Deleting moves one unit of the deleted entry's prize from the ledger back to stock: for every
   * prize held by exactly one configuration entry, units in stock plus units in the ledger stay
   * the same, and prizes the entry does not name are not touched at all.
   */
  lemma DeleteConserves(s: Session, index: int, name: string)
    requires 0 <= index < |s.winners|
    requires name != s.winners[index].prize || Holders(s.prizes, name) == 1
    ensures var r := DeleteWinner(s, index);
      Stock(r.prizes, name) + Awarded(r.winners, name) == Stock(s.prizes, name) + Awarded(s.winners, name)
  {
    AdjustStock(s.prizes, s.winners[index].prize, 1, name);
    AwardedDelete(s.winners, index, name);
  }

  /** The ledger view's delete applied to the newest entry `k` times. */
  function UndoLast(s: Session, k: nat): Session
    decreases k
  {
    if k == 0 || s.winners == [] then s else UndoLast(DeleteWinner(s, |s.winners| - 1), k - 1)
  }

  /**
   * Deleting, newest first, the entries a batch for one prize appended restores the ledger and
   * the prize list that held before the batch was recorded.
   */
  lemma {:induction false} UndoBatch(people: seq<string>, prizes: seq<Prize>, winners: seq<Winner>, names: seq<string>, prize: string)
    ensures UndoLast(Session(people, Adjust(prizes, prize, -|names|), winners + Award(names, prize)), |names|) ==
            Session(people, prizes, winners)
    decreases |names|
  {
    if names == [] {
      AdjustZero(prizes, prize);
      assert winners + Award(names, prize) == winners;
    } else {
      var n := |names|;
      var front := names[..n - 1];
      var s := Session(people, Adjust(prizes, prize, -n), winners + Award(names, prize));
      assert names == front + [names[n - 1]];
      AwardSnoc(front, names[n - 1], prize);
      var ledger := winners + Award(front, prize);
      assert s.winners == ledger + [Winner(names[n - 1], prize)];
      DeleteAtSlices(s.winners, |s.winners| - 1);
      assert DeleteAt(s.winners, |s.winners| - 1) == ledger;
      AdjustCompose(prizes, prize, -n, 1);
      assert DeleteWinner(s, |s.winners| - 1) == Session(people, Adjust(prizes, prize, -|front|), ledger);
      UndoBatch(people, prizes, winners, front, prize);
    }
  }

  /**
   * Draw-then-delete round trip: deleting, newest first, all the entries one commit appended gives
   * back exactly the session before the commit, prize counts included. Unlike the conservation
   * lemmas this needs no uniqueness of prize names.
   */
  lemma UndoCommit(s: Session, prize: string, count: int, rolls: seq<nat>)
    requires FitsSplice(rolls, |Eligible(s.people, s.winners)|, count)
    ensures var r := Commit(s, prize, count, rolls);
      UndoLast(r, |r.winners| - |s.winners|) == s
  {
    var d := Drawn(s, count, rolls);
    UndoBatch(s.people, s.prizes, s.winners, d, prize);
  }
}
