/**
 * The item buffer that ReactiveCollention and ReactiveSelected inherit from
 * `System.ComponentModel.BindingList<T>`: the list updates its public
 * operations make, as functions on the sequence of items. Which
 * notification follows each update is decided by the two classes.
 */
module BindingListOps {

  /** How a BindingList operation ends: normally, or with ArgumentOutOfRangeException. */
  datatype Status = Ok | ArgumentOutOfRange

  /** `IndexOf`: the position of the first item equal to `x`, or -1 when there is none. */
  function IndexOf<T(==)>(s: seq<T>, x: T): (r: int)
    ensures -1 <= r < |s|
    ensures r == -1 <==> x !in s
    ensures 0 <= r ==> s[r] == x && forall j :: 0 <= j < r ==> s[j] != x
  {
    if s == [] then -1
    else if s[0] == x then 0
    else
      var k := IndexOf(s[1..], x);
      if k < 0 then -1 else k + 1
  }

  /** `InsertItem(index, x)`: `x` lands at `index`, the items from `index` on move up by one. */
  function InsertAt<T>(s: seq<T>, index: nat, x: T): (r: seq<T>)
    requires index <= |s|
    ensures |r| == |s| + 1
    ensures r[index] == x
    ensures r[..index] == s[..index]
    ensures r[index + 1..] == s[index..]
    ensures multiset(r) == multiset(s) + multiset{x}
  {
    assert s == s[..index] + s[index..];
    s[..index] + [x] + s[index..]
  }

  /** `RemoveItem(index)`: the item at `index` goes, the later items move down by one. */
  function RemoveAt<T>(s: seq<T>, index: nat): (r: seq<T>)
    requires index < |s|
    ensures |r| == |s| - 1
    ensures r[..index] == s[..index]
    ensures r[index..] == s[index + 1..]
    ensures multiset(r) == multiset(s) - multiset{s[index]}
  {
    assert s == s[..index] + [s[index]] + s[index + 1..];
    s[..index] + s[index + 1..]
  }

  /** `SetItem(index, x)`: the item at `index` becomes `x`, every other item stays. */
  function ReplaceAt<T>(s: seq<T>, index: nat, x: T): (r: seq<T>)
    requires index < |s|
    ensures |r| == |s|
    ensures r[index] == x
    ensures forall j :: 0 <= j < |s| && j != index ==> r[j] == s[j]
  {
    s[index := x]
  }

  /**
   * `Add` is `InsertItem(Count, x)`: there is no duplicate check, so adding an
   * item already present makes one more copy of it.
   */
  lemma AddKeepsDuplicates<T>(s: seq<T>, x: T)
    ensures InsertAt(s, |s|, x) == s + [x]
    ensures multiset(InsertAt(s, |s|, x))[x] == multiset(s)[x] + 1
  {
  }

  /**
   * `Remove(x)` deletes the item `IndexOf` finds, so it takes away exactly one
   * copy of `x`, however many there are, and no copy of any other item.
   */
  lemma RemoveFirstOccurrence<T>(s: seq<T>, x: T)
    requires x in s
    ensures var r := RemoveAt(s, IndexOf(s, x));
      multiset(r)[x] == multiset(s)[x] - 1 &&
      forall y :: y != x ==> multiset(r)[y] == multiset(s)[y]
  {
  }

  /** Removing at the index just inserted at gives back the original items. */
  lemma RemoveUndoesInsert<T>(s: seq<T>, index: nat, x: T)
    requires index <= |s|
    ensures RemoveAt(InsertAt(s, index, x), index) == s
  {
  }

  /** Inserting the removed item back at its index gives back the original items. */
  lemma InsertUndoesRemove<T>(s: seq<T>, index: nat)
    requires index < |s|
    ensures InsertAt(RemoveAt(s, index), index, s[index]) == s
  {
  }
}
