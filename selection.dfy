/**
 * The two random selections of the draw panel. `Math.floor(Math.random() * n)` is the only source
 * of randomness; the model takes its successive values as an oracle `rolls`, each value below
 * the `n` it was drawn for, and every property below holds for every such oracle.
 */
module Selection {
  import opened Records

  /**
   * The names shown by one tick of the roll:
   * `Array(count).fill('').map(() => pool[Math.floor(Math.random() * pool.length)])`.
   * Names may repeat; each is taken from the pool.
   */
  predicate FitsRoll(rolls: seq<nat>, poolSize: nat, count: nat) {
    |rolls| >= count && forall i :: 0 <= i < count ==> rolls[i] < poolSize
  }

  function RollNames<T(==)>(pool: seq<T>, count: nat, rolls: seq<nat>): (names: seq<T>)
    requires FitsRoll(rolls, |pool|, count)
    ensures |names| == count
    ensures forall i :: 0 <= i < count ==> names[i] in pool
  {
    seq(count, i requires 0 <= i < count => pool[rolls[i]])
  }

  /**
   * How many winners the commit loop draws:
   * `for (let i = 0; i < count; i++) if (pool.length > 0) ...` takes one name per pass while any is left.
   */
  function DrawSize(count: int, poolSize: nat): nat {
    if count <= 0 then 0 else if count < poolSize then count else poolSize
  }

  /** The oracle for the commit loop: the d-th draw picks an index below the size of the pool left after d draws. */
  predicate FitsSplice(rolls: seq<nat>, poolSize: nat, count: int)
    decreases poolSize
  {
    count <= 0 || poolSize == 0 ||
    (|rolls| > 0 && rolls[0] < poolSize && FitsSplice(rolls[1..], poolSize - 1, count - 1))
  }

  /**
   * The names the commit loop draws by `pool.splice(index, 1)` on a copy of the pool: as many as
   * requested while names remain, each taken from a different position of the pool.
   */
  function SpliceDraw<T(==)>(pool: seq<T>, count: int, rolls: seq<nat>): (drawn: seq<T>)
    requires FitsSplice(rolls, |pool|, count)
    ensures |drawn| == DrawSize(count, |pool|)
    decreases |pool|
  {
    if count <= 0 || pool == [] then []
    else
      var rest := DeleteAt(pool, rolls[0]);
      [pool[rolls[0]]] + SpliceDraw(rest, count - 1, rolls[1..])
  }

  /** One pass of the commit loop with names left: the first roll picks the name, the rest of the oracle serves the smaller pool. */
  lemma SpliceStep<T>(pool: seq<T>, count: int, rolls: seq<nat>)
    requires FitsSplice(rolls, |pool|, count) && count > 0 && pool != []
    ensures rolls[0] < |pool|
    ensures FitsSplice(rolls[1..], |pool| - 1, count - 1)
    ensures SpliceDraw(pool, count, rolls) == [pool[rolls[0]]] + SpliceDraw(DeleteAt(pool, rolls[0]), count - 1, rolls[1..])
  {
  }

  /** The loop's bookkeeping across one pass with names left: the drawn name moves from the pending draw to the drawn prefix. */
  lemma SpliceAdvance<T>(drawn: seq<T>, pool: seq<T>, count: int, rolls: seq<nat>, target: seq<T>)
    requires FitsSplice(rolls, |pool|, count) && count > 0 && pool != []
    requires drawn + SpliceDraw(pool, count, rolls) == target
    ensures rolls[0] < |pool| && FitsSplice(rolls[1..], |pool| - 1, count - 1)
    ensures (drawn + [pool[rolls[0]]]) + SpliceDraw(DeleteAt(pool, rolls[0]), count - 1, rolls[1..]) == target
  {
    var later := SpliceDraw(DeleteAt(pool, rolls[0]), count - 1, rolls[1..]);
    SpliceStep(pool, count, rolls);
    assert (drawn + [pool[rolls[0]]]) + later == drawn + ([pool[rolls[0]]] + later);
  }

  /** A pass of the commit loop with no names left draws nothing. */
  lemma SpliceEmpty<T>(pool: seq<T>, count: int, rolls: seq<nat>)
    requires pool == []
    ensures FitsSplice(rolls, 0, count) && SpliceDraw(pool, count, rolls) == []
  {
  }

  /** Each position of the pool is drawn at most once: the draw is a sub-multiset of the pool. */
  lemma {:induction false} SpliceDrawMultiset<T>(pool: seq<T>, count: int, rolls: seq<nat>)
    requires FitsSplice(rolls, |pool|, count)
    ensures multiset(SpliceDraw(pool, count, rolls)) <= multiset(pool)
    decreases |pool|
  {
    if count <= 0 || pool == [] {
      assert SpliceDraw(pool, count, rolls) == [];
    } else {
      SpliceStep(pool, count, rolls);
      SpliceDrawMultiset(DeleteAt(pool, rolls[0]), count - 1, rolls[1..]);
      DeleteAtMultiset(pool, rolls[0]);
    }
  }

  /** Every drawn name is a member of the pool. */
  lemma SpliceDrawMembers<T>(pool: seq<T>, count: int, rolls: seq<nat>)
    requires FitsSplice(rolls, |pool|, count)
    ensures forall x :: x in SpliceDraw(pool, count, rolls) ==> x in pool
  {
    var drawn := SpliceDraw(pool, count, rolls);
    SpliceDrawMultiset(pool, count, rolls);
    forall x | x in drawn ensures x in pool {
      assert multiset(drawn)[x] > 0;
    }
  }

  /** From a duplicate-free pool nobody is drawn twice. */
  lemma {:induction false} SpliceDrawDistinct<T>(pool: seq<T>, count: int, rolls: seq<nat>)
    requires FitsSplice(rolls, |pool|, count) && Distinct(pool)
    ensures Distinct(SpliceDraw(pool, count, rolls))
    decreases |pool|
  {
    if count > 0 && pool != [] {
      DeleteAtKeepsDistinct(pool, rolls[0]);
      SpliceDrawDistinct(DeleteAt(pool, rolls[0]), count - 1, rolls[1..]);
      SpliceStepDistinct(pool, count, rolls);
    }
  }

  /** One splice step: a fresh name in front of a duplicate-free draw from the rest of the pool. */
  lemma SpliceStepDistinct<T>(pool: seq<T>, count: int, rolls: seq<nat>)
    requires FitsSplice(rolls, |pool|, count) && Distinct(pool) && count > 0 && pool != []
    requires FitsSplice(rolls[1..], |pool| - 1, count - 1)
    requires Distinct(SpliceDraw(DeleteAt(pool, rolls[0]), count - 1, rolls[1..]))
    ensures Distinct(SpliceDraw(pool, count, rolls))
  {
    var j := rolls[0];
    var rest := DeleteAt(pool, j);
    var tail := SpliceDraw(rest, count - 1, rolls[1..]);
    DeletedIsGone(pool, j);
    SpliceDrawMembers(rest, count - 1, rolls[1..]);
    ConsDistinct(pool[j], tail, rest);
    assert SpliceDraw(pool, count, rolls) == [pool[j]] + tail;
  }

  /** In a duplicate-free list, the entry `splice` removes occurs nowhere in what is left. */
  lemma DeletedIsGone<T>(pool: seq<T>, j: nat)
    requires Distinct(pool) && j < |pool|
    ensures pool[j] !in DeleteAt(pool, j)
  {
    var rest := DeleteAt(pool, j);
    forall k | 0 <= k < |rest| ensures rest[k] != pool[j] {
      DeleteAtIndex(pool, j, k);
      if k < j { } else { assert rest[k] == pool[k + 1]; }
    }
  }

  lemma ConsDistinct<T>(x: T, tail: seq<T>, rest: seq<T>)
    requires Distinct(tail) && x !in rest && forall y :: y in tail ==> y in rest
    ensures Distinct([x] + tail)
  {
    var drawn := [x] + tail;
    forall a, b | 0 <= a < b < |drawn| ensures drawn[a] != drawn[b] {
      assert drawn[b] == tail[b - 1] && tail[b - 1] in rest;
      if a > 0 {
        assert drawn[a] == tail[a - 1];
      }
    }
  }

  /**
   * The commit loop of `stopLottery`: repeatedly `splice` a random name out of a local copy of the
   * eligible pool and `push` a `{name, prize}` entry. The result is exactly the spliced draw, tagged
   * with the prize; the caller's pool is a value and is not changed.
   */
  method DrawWinners(pool: seq<string>, count: int, prize: string, rolls: seq<nat>) returns (newWinners: seq<Winner>)
    requires FitsSplice(rolls, |pool|, count)
    ensures newWinners == Award(SpliceDraw(pool, count, rolls), prize)
  {
    var available := pool;
    var unused := rolls;
    newWinners := [];
    ghost var drawn: seq<string> := [];
    ghost var target := SpliceDraw(pool, count, rolls);
    var i := 0;
    ghost var left := count;
    while i < count
      invariant left == count - i
      invariant count <= 0 ==> i == 0
      invariant count > 0 ==> 0 <= i <= count
      invariant FitsSplice(unused, |available|, left)
      invariant drawn + SpliceDraw(available, left, unused) == target
      invariant newWinners == Award(drawn, prize)
      decreases count - i
    {
      if |available| > 0 {
        SpliceAdvance(drawn, available, left, unused, target);
        var winnerIndex := unused[0];
        var winner := available[winnerIndex];
        available := DeleteAt(available, winnerIndex);
        unused := unused[1..];
        newWinners := newWinners + [Winner(winner, prize)];
        AwardSnoc(drawn, winner, prize);
        drawn := drawn + [winner];
      } else {
        SpliceEmpty(available, left - 1, unused);
      }
      i := i + 1;
      left := left - 1;
    }
  }
}
