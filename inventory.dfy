/**
 * The prize list seen as an inventory: lookup by name, the count adjustment a draw or a
 * ledger deletion applies, and the prizes the draw panel offers for selection.
 */
module Inventory {
  import opened Records

  /** `prizes.find(p => p.name === name)`: the first prize carrying that name, if any. */
  function Find(prizes: seq<Prize>, name: string): (r: Option<Prize>)
    ensures r.None? <==> forall i :: 0 <= i < |prizes| ==> prizes[i].name != name
    ensures r.Some? ==> exists i :: 0 <= i < |prizes| && prizes[i] == r.value && r.value.name == name &&
                          forall k :: 0 <= k < i ==> prizes[k].name != name
  {
    if prizes == [] then None
    else if prizes[0].name == name then Some(prizes[0])
    else
      var r := Find(prizes[1..], name);
      if r.Some? then
        var i :| 0 <= i < |prizes| - 1 && prizes[1..][i] == r.value && r.value.name == name &&
                 forall k :: 0 <= k < i ==> prizes[1..][k].name != name;
        assert prizes[i + 1] == r.value;
        r
      else r
  }

  /**
   * `prizes.map(p => p.name === name ? {...p, count: p.count + delta} : p)`: every prize named
   * `name` gains `delta` units (a draw passes a negative delta), all other prizes stay as they are,
   * and order, names and images are kept.
   */
  function Adjust(prizes: seq<Prize>, name: string, delta: int): (r: seq<Prize>)
    ensures |r| == |prizes|
    ensures forall i :: 0 <= i < |prizes| ==> r[i].name == prizes[i].name && r[i].image == prizes[i].image
    ensures forall i :: 0 <= i < |prizes| && prizes[i].name != name ==> r[i] == prizes[i]
    ensures forall i :: 0 <= i < |prizes| && prizes[i].name == name ==> r[i].count == prizes[i].count + delta
  {
    seq(|prizes|, i requires 0 <= i < |prizes| =>
      if prizes[i].name == name then prizes[i].(count := prizes[i].count + delta) else prizes[i])
  }

  /** Two adjustments of the same prize add up; in particular a decrement by n is undone by n increments of one. */
  lemma AdjustCompose(prizes: seq<Prize>, name: string, a: int, b: int)
    ensures Adjust(Adjust(prizes, name, a), name, b) == Adjust(prizes, name, a + b)
  {
  }

  lemma AdjustZero(prizes: seq<Prize>, name: string)
    ensures Adjust(prizes, name, 0) == prizes
  {
  }

  /** Number of prizes carrying `name` (the prize form does not keep names unique). */
  function Holders(prizes: seq<Prize>, name: string): nat {
    if prizes == [] then 0 else (if prizes[0].name == name then 1 else 0) + Holders(prizes[1..], name)
  }

  /** Units of `name` in stock: the counts of all prizes carrying that name, summed. */
  function Stock(prizes: seq<Prize>, name: string): int {
    if prizes == [] then 0 else (if prizes[0].name == name then prizes[0].count else 0) + Stock(prizes[1..], name)
  }

  /** An adjustment moves the stock of its own prize by `delta` per holder, and no other prize's stock. */
  lemma {:induction false} AdjustStock(prizes: seq<Prize>, name: string, delta: int, other: string)
    ensures Stock(Adjust(prizes, name, delta), name) == Stock(prizes, name) + delta * Holders(prizes, name)
    ensures other != name ==> Stock(Adjust(prizes, name, delta), other) == Stock(prizes, other)
  {
    if prizes != [] {
      var r := Adjust(prizes, name, delta);
      assert r[1..] == Adjust(prizes[1..], name, delta);
      AdjustStock(prizes[1..], name, delta, other);
      MulSucc(delta, Holders(prizes[1..], name));
    }
  }

  lemma MulSucc(a: int, b: int)
    ensures a * (b + 1) == a * b + a
  {
  }

  /** Units of `name` handed out: the ledger entries recording that prize. */
  function Awarded(winners: seq<Winner>, name: string): nat {
    if winners == [] then 0 else (if winners[0].prize == name then 1 else 0) + Awarded(winners[1..], name)
  }

  lemma {:induction false} AwardedAppend(a: seq<Winner>, b: seq<Winner>, name: string)
    ensures Awarded(a + b, name) == Awarded(a, name) + Awarded(b, name)
  {
    if a != [] {
      assert (a + b)[1..] == a[1..] + b;
      AwardedAppend(a[1..], b, name);
    } else {
      assert a + b == b;
    }
  }

  /** A draw of `names` for `prize` records one unit of `prize` per name and none of any other prize. */
  lemma {:induction false} AwardedOfAward(names: seq<string>, prize: string, name: string)
    ensures Awarded(Award(names, prize), name) == if name == prize then |names| else 0
  {
    if names != [] {
      assert Award(names, prize)[1..] == Award(names[1..], prize);
      AwardedOfAward(names[1..], prize, name);
    }
  }

  /** Removing one ledger entry removes one unit of its own prize from the awarded tally. */
  lemma {:induction false} AwardedDelete(winners: seq<Winner>, index: int, name: string)
    requires 0 <= index < |winners|
    ensures Awarded(DeleteAt(winners, index), name) + (if winners[index].prize == name then 1 else 0) == Awarded(winners, name)
  {
    if index > 0 {
      AwardedDelete(winners[1..], index - 1, name);
      assert DeleteAt(winners, index)[1..] == DeleteAt(winners[1..], index - 1);
    }
  }

  /**
   * Recording a batch of names for `prize` while taking as many units of it off the prize list
   * keeps stock plus ledger constant for every prize held by exactly one entry, and for every
   * prize other than `prize`.
   */
  lemma BatchConserves(prizes: seq<Prize>, winners: seq<Winner>, names: seq<string>, prize: string, name: string)
    requires name != prize || Holders(prizes, name) == 1
    ensures Stock(Adjust(prizes, prize, -|names|), name) + Awarded(winners + Award(names, prize), name) ==
            Stock(prizes, name) + Awarded(winners, name)
  {
    AdjustStock(prizes, prize, -|names|, name);
    AwardedAppend(winners, Award(names, prize), name);
    AwardedOfAward(names, prize, name);
  }

  /** No prize has gone below zero units. */
  predicate NonNegative(prizes: seq<Prize>) {
    forall i :: 0 <= i < |prizes| ==> prizes[i].count >= 0
  }

  predicate UniqueNames(prizes: seq<Prize>) {
    forall i, j :: 0 <= i < j < |prizes| ==> prizes[i].name != prizes[j].name
  }

  /** With unique names the prize `find` returns is the only one an adjustment touches. */
  lemma {:induction false} UniqueHolder(prizes: seq<Prize>, name: string)
    requires UniqueNames(prizes)
    ensures Holders(prizes, name) <= 1
    ensures Find(prizes, name).Some? ==> Holders(prizes, name) == 1 && Stock(prizes, name) == Find(prizes, name).value.count
    ensures Find(prizes, name).None? ==> Holders(prizes, name) == 0 && Stock(prizes, name) == 0
  {
    if prizes != [] {
      UniqueHolder(prizes[1..], name);
      if prizes[0].name == name {
        NotHeld(prizes[1..], name);
      }
    }
  }

  lemma {:induction false} NotHeld(prizes: seq<Prize>, name: string)
    requires forall i :: 0 <= i < |prizes| ==> prizes[i].name != name
    ensures Holders(prizes, name) == 0 && Stock(prizes, name) == 0
  {
    if prizes != [] {
      NotHeld(prizes[1..], name);
    }
  }

  /**
   * A draw of `n` units keeps every count non-negative when the prize `find` returns had at least
   * `n` units and names are unique; other prizes are not touched.
   */
  lemma DecrementKeepsNonNegative(prizes: seq<Prize>, name: string, n: int)
    requires NonNegative(prizes) && UniqueNames(prizes)
    requires Find(prizes, name).Some? && 0 <= n <= Find(prizes, name).value.count
    ensures NonNegative(Adjust(prizes, name, -n))
  {
    var r := Adjust(prizes, name, -n);
    forall i | 0 <= i < |prizes| && prizes[i].name == name ensures r[i].count >= 0 {
      var p := Find(prizes, name).value;
      var j :| 0 <= j < |prizes| && prizes[j] == p && forall k :: 0 <= k < j ==> prizes[k].name != name;
      assert i == j;
    }
  }

  /** `prizes.filter(prize => prize.count > 0)`: the prizes offered for selection, in list order. */
  function AvailablePrizes(prizes: seq<Prize>): (r: seq<Prize>)
    ensures forall p :: p in r <==> p in prizes && p.count > 0
    ensures |r| <= |prizes|
  {
    if prizes == [] then []
    else (if prizes[0].count > 0 then [prizes[0]] else []) + AvailablePrizes(prizes[1..])
  }
}
