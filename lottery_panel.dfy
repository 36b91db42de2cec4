/**
 * The draw panel the home page wires in: its own state (rolling flag, chosen prize, requested
 * count, names on display) and the start / tick / stop handlers that read the session and, on
 * stop, hand the new ledger entries and the decremented prizes back to it.
 */
module Lottery {
  import opened Records
  import opened Inventory
  import opened Eligibility
  import opened Selection
  import opened DrawEngine
  import opened HomePage

  class LotteryPanel {
    var isRolling: bool
    var currentPrize: string
    var currentCount: int
    var displayNames: seq<string>
    /** The eligible list the rolling closure captured when the roll started. */
    var rollPool: seq<string>
    /** The count the rolling closure captured when the roll started. */
    var rollCount: int

    /** A running roll never asks for more names than it captured. */
    predicate Valid()
      reads this
    {
      isRolling ==> rollCount <= |rollPool|
    }

    /** Not rolling, no prize chosen, a count of 1 and five empty name slots. */
    constructor()
      ensures Valid()
      ensures !isRolling && currentPrize == "" && currentCount == 1
      ensures displayNames == ["", "", "", "", ""]
    {
      isRolling := false;
      currentPrize := "";
      currentCount := 1;
      displayNames := ["", "", "", "", ""];
      rollPool := [];
      rollCount := 0;
    }

    /** The prize selector: the chosen name becomes the current prize. */
    method ChoosePrize(name: string)
      modifies this`currentPrize
      ensures currentPrize == name
    {
      currentPrize := name;
    }

    /** The count input, clamped as the wired panel clamps it. */
    method SetCount(parsed: Option<int>)
      modifies this`currentCount
      ensures currentCount == ClampCount(parsed)
      ensures currentCount <= 5 && currentCount != 0
    {
      currentCount := ClampCount(parsed);
    }

    /**
     * `startLottery`. While rolling it stops instead (see `Stop`). Otherwise it changes nothing
     * unless both guards pass; then it enters the rolling state, captures the eligible list and
     * the count, and shows the first tick. A negative count passes both guards, but building the
     * first tick's array throws, so the panel is left rolling with its names unchanged.
     */
    method Start(home: Home, rolls: seq<nat>)
      requires Valid()
      requires isRolling ==> FitsSplice(rolls, |Eligible(home.people, home.winners)|, currentCount)
      requires !isRolling && CheckStart(home.Snapshot(), currentPrize, currentCount) == Ready && currentCount >= 0 ==>
                 FitsRoll(rolls, |Eligible(home.people, home.winners)|, currentCount)
      modifies this, home
      ensures Valid()
      ensures currentPrize == old(currentPrize) && currentCount == old(currentCount)
      ensures old(isRolling) ==>
                !isRolling &&
                home.Snapshot() == Commit(old(home.Snapshot()), currentPrize, currentCount, rolls) &&
                displayNames == Drawn(old(home.Snapshot()), currentCount, rolls)
      ensures !old(isRolling) ==> home.Snapshot() == old(home.Snapshot())
      ensures !old(isRolling) && CheckStart(home.Snapshot(), currentPrize, currentCount) != Ready ==>
                !isRolling && displayNames == old(displayNames) &&
                rollPool == old(rollPool) && rollCount == old(rollCount)
      ensures !old(isRolling) && CheckStart(home.Snapshot(), currentPrize, currentCount) == Ready ==>
                isRolling && rollPool == Eligible(home.people, home.winners) && rollCount == currentCount &&
                (currentCount >= 0 ==> displayNames == RollNames(rollPool, currentCount, rolls)) &&
                (currentCount < 0 ==> displayNames == old(displayNames))
    {
      if isRolling {
        Stop(home, rolls);
        return;
      }
      var found := Find(home.prizes, currentPrize);
      if found.None? || currentCount > found.value.count {
        return;
      }
      var available := Eligible(home.people, home.winners);
      if |available| < currentCount {
        return;
      }
      isRolling := true;
      rollPool := available;
      rollCount := currentCount;
      if rollCount >= 0 {
        Tick(rolls);
      }
    }

    /**
     * `rollNames`: one tick of the roll shows `rollCount` names picked from the captured
     * eligible list; nothing else changes.
     */
    method Tick(rolls: seq<nat>)
      requires Valid() && isRolling && rollCount >= 0
      requires FitsRoll(rolls, |rollPool|, rollCount)
      modifies this`displayNames
      ensures displayNames == RollNames(rollPool, rollCount, rolls)
      ensures |displayNames| == rollCount && forall name :: name in displayNames ==> name in rollPool
    {
      displayNames := RollNames(rollPool, rollCount, rolls);
    }

    /**
     * `stopLottery`: leaves the rolling state, draws from the eligible list recomputed now (not the
     * captured one) with the count set now, appends the new entries to the ledger, takes the drawn
     * number of units off the current prize and shows the drawn names in order.
     */
    method Stop(home: Home, rolls: seq<nat>)
      requires FitsSplice(rolls, |Eligible(home.people, home.winners)|, currentCount)
      modifies this`isRolling, this`displayNames, home
      ensures !isRolling && Valid()
      ensures home.Snapshot() == Commit(old(home.Snapshot()), currentPrize, currentCount, rolls)
      ensures displayNames == Drawn(old(home.Snapshot()), currentCount, rolls)
    {
      isRolling := false;
      ghost var before := home.Snapshot();
      var available := Eligible(home.people, home.winners);
      var newWinners := DrawWinners(available, currentCount, currentPrize, rolls);
      CommitFromEntries(before, currentPrize, currentCount, rolls, newWinners);
      home.HandleLotteryComplete(newWinners);
      home.SetPrizes(Adjust(home.prizes, currentPrize, -|newWinners|));
      displayNames := Names(newWinners);
    }
  }
}
