/** The records the lottery keeps and the list operations its handlers perform on them. */
module Records {

  datatype Option<T> = None | Some(value: T)

  /** A configured prize: display name, image URL and the number of units still to give away. */
  datatype Prize = Prize(name: string, image: string, count: int)

  /** One entry of the winner ledger: who won, and the name of the prize they won. */
  datatype Winner = Winner(name: string, prize: string)

  /** The three lists the home page keeps in its state. */
  datatype Session = Session(people: seq<string>, prizes: seq<Prize>, winners: seq<Winner>)

  predicate Distinct<T(==)>(s: seq<T>) {
    forall i, j :: 0 <= i < j < |s| ==> s[i] != s[j]
  }

  /** The names of a list of ledger entries, in ledger order (`winners.map(w => w.name)`). */
  function Names(ws: seq<Winner>): seq<string> {
    seq(|ws|, i requires 0 <= i < |ws| => ws[i].name)
  }

  /** The entries `{name, prize}` built for a list of drawn names, all for one prize. */
  function Award(names: seq<string>, prize: string): seq<Winner> {
    seq(|names|, i requires 0 <= i < |names| => Winner(names[i], prize))
  }

  lemma NamesAppend(a: seq<Winner>, b: seq<Winner>)
    ensures Names(a + b) == Names(a) + Names(b)
  {
  }

  lemma AwardSnoc(names: seq<string>, name: string, prize: string)
    ensures Award(names + [name], prize) == Award(names, prize) + [Winner(name, prize)]
  {
  }

  lemma NamesOfAward(names: seq<string>, prize: string)
    ensures Names(Award(names, prize)) == names
  {
  }

  /** Every entry of a batch records the batch's prize and one of its names. */
  lemma AwardEntries(names: seq<string>, prize: string)
    ensures forall w :: w in Award(names, prize) ==> w.prize == prize && w.name in names
  {
    forall w | w in Award(names, prize) ensures w.prize == prize && w.name in names {
      var k :| 0 <= k < |names| && Award(names, prize)[k] == w;
    }
  }

  /**
   * `s.filter((_, i) => i !== index)`: the entry at `index` is dropped when there is one,
   * every other entry is kept in its original order.
   */
  function DeleteAt<T>(s: seq<T>, index: int): (r: seq<T>)
    ensures 0 <= index < |s| ==> |r| == |s| - 1
    ensures !(0 <= index < |s|) ==> r == s
  {
    if !(0 <= index < |s|) then s
    else if index == 0 then s[1..]
    else [s[0]] + DeleteAt(s[1..], index - 1)
  }

  /** What is kept is the part before `index` followed by the part after it. */
  lemma {:induction false} DeleteAtSlices<T>(s: seq<T>, index: int)
    requires 0 <= index < |s|
    ensures DeleteAt(s, index) == s[..index] + s[index + 1..]
  {
    if index > 0 {
      DeleteAtSlices(s[1..], index - 1);
      assert s[1..][..index - 1] == s[1..index];
      assert s[1..][index..] == s[index + 1..];
      assert [s[0]] + s[1..index] == s[..index];
    }
  }

  /** The k-th entry kept is the k-th entry of `s` before `index` and the (k+1)-th from `index` on. */
  lemma DeleteAtIndex<T>(s: seq<T>, index: int, k: int)
    requires 0 <= index < |s| && 0 <= k < |s| - 1
    ensures DeleteAt(s, index)[k] == if k < index then s[k] else s[k + 1]
  {
    DeleteAtSlices(s, index);
  }

  /** Dropping an entry removes exactly one occurrence of it: the rest is a sub-multiset. */
  lemma {:induction false} DeleteAtMultiset<T>(s: seq<T>, index: int)
    requires 0 <= index < |s|
    ensures multiset(DeleteAt(s, index)) + multiset{s[index]} == multiset(s)
  {
    assert s == [s[0]] + s[1..];
    if index > 0 {
      DeleteAtMultiset(s[1..], index - 1);
    }
  }

  /** Dropping an entry keeps a duplicate-free list duplicate-free. */
  lemma {:induction false} DeleteAtKeepsDistinct<T>(s: seq<T>, index: int)
    requires Distinct(s)
    ensures Distinct(DeleteAt(s, index))
  {
    var r := DeleteAt(s, index);
    if 0 <= index < |s| {
      forall i, j | 0 <= i < j < |r| ensures r[i] != r[j] {
        DeleteAtIndex(s, index, i);
        DeleteAtIndex(s, index, j);
        if i < index && j >= index {
          assert r[i] == s[i] && r[j] == s[j + 1];
        }
      }
    }
  }

  /**
   * `copy[index] = x` on a copy of `s`: inside the list the entry at `index` is replaced and the
   * length kept; at or past the end JavaScript grows the array, which the model records as an append.
   */
  function Assign<T>(s: seq<T>, index: nat, x: T): (r: seq<T>)
    ensures index < |s| ==> |r| == |s| && r[index] == x
    ensures index < |s| ==> forall k :: 0 <= k < |s| && k != index ==> r[k] == s[k]
    ensures index >= |s| ==> r == s + [x]
  {
    if index < |s| then s[index := x] else s + [x]
  }
}
