/**
 * The notifications the observable primitives raise. Subscribers are not
 * modelled as callbacks: every raised event is appended to a log, so "exactly
 * one", "none" and "in this order" become statements about that log.
 */
module Notify {

  /** The property names carried by `PropertyChangedEventArgs`. */
  const ValueName: string := "Value"
  const CountName: string := "Count"
  const ItemsName: string := "Item[]"

  /** `System.ComponentModel.ListChangedType`, restricted to the kinds BindingList raises for the modelled operations. */
  datatype ListChangedType = ItemAdded | ItemDeleted | ItemChanged | Reset

  /** `ListChangedEventArgs`: the kind of change and the affected index (-1 for a reset). */
  datatype ListChange = ListChange(kind: ListChangedType, index: int)

  /** One entry of a list's notification log. */
  datatype Notification =
    | ListChanged(change: ListChange)   // the ListChanged event reaching its external subscribers
    | PropertyChanged(name: string)    // PropertyChanged with the given property name

  /**
   * The notifications one structural change produces. When `listenersFirst`,
   * ListChanged reaches its subscribers before the two PropertyChanged
   * notifications (an `OnListChanged` override that calls the base first);
   * otherwise a handler registered at construction raises the two
   * PropertyChanged notifications before any later ListChanged subscriber runs.
   */
  function Block(listenersFirst: bool, c: ListChange): (r: seq<Notification>)
    ensures |r| == 3
    ensures r[0] == ListChanged(c) <==> listenersFirst
    ensures r[2] == ListChanged(c) <==> !listenersFirst
    ensures var k := if listenersFirst then 1 else 0;
      r[k] == PropertyChanged(CountName) && r[k + 1] == PropertyChanged(ItemsName)
    ensures CountOf(r, PropertyChanged(CountName)) == 1
    ensures CountOf(r, PropertyChanged(ItemsName)) == 1
    ensures ListChanges(r) == 1
  {
    if listenersFirst then
      [ListChanged(c), PropertyChanged(CountName), PropertyChanged(ItemsName)]
    else
      [PropertyChanged(CountName), PropertyChanged(ItemsName), ListChanged(c)]
  }

  /** The single notification a manual `NotifyUpdated` produces. */
  const Updated: seq<Notification> := [PropertyChanged(ItemsName)]

  /**
   * A log made only of whole blocks: structural-change blocks in the given
   * order and lone "Item[]" notifications, nothing else and nothing partial.
   */
  predicate IsLog(listenersFirst: bool, log: seq<Notification>)
    decreases |log|
  {
    if log == [] then true
    else if log[0] == PropertyChanged(ItemsName) then IsLog(listenersFirst, log[1..])
    else
      |log| >= 3 &&
      var e := if listenersFirst then log[0] else log[2];
      e.ListChanged? && log[..3] == Block(listenersFirst, e.change) && IsLog(listenersFirst, log[3..])
  }

  /** The number of entries of `log` equal to `n`. */
  function CountOf(log: seq<Notification>, n: Notification): (k: nat)
    ensures k <= |log|
    ensures k == 0 <==> n !in log
  {
    if log == [] then 0 else (if log[0] == n then 1 else 0) + CountOf(log[1..], n)
  }

  /** The number of ListChanged entries of `log`. */
  function ListChanges(log: seq<Notification>): (k: nat)
    ensures k <= |log|
    ensures k == 0 <==> forall i :: 0 <= i < |log| ==> !log[i].ListChanged?
  {
    if log == [] then 0 else (if log[0].ListChanged? then 1 else 0) + ListChanges(log[1..])
  }

  lemma {:induction false} CountOfAppend(a: seq<Notification>, b: seq<Notification>, n: Notification)
    ensures CountOf(a + b, n) == CountOf(a, n) + CountOf(b, n)
  {
    if a == [] {
      assert a + b == b;
    } else {
      assert (a + b)[1..] == a[1..] + b;
      CountOfAppend(a[1..], b, n);
    }
  }

  lemma {:induction false} ListChangesAppend(a: seq<Notification>, b: seq<Notification>)
    ensures ListChanges(a + b) == ListChanges(a) + ListChanges(b)
  {
    if a == [] {
      assert a + b == b;
    } else {
      assert (a + b)[1..] == a[1..] + b;
      ListChangesAppend(a[1..], b);
    }
  }

  /** A structural-change block is a log of its own. */
  lemma BlockIsLog(listenersFirst: bool, c: ListChange)
    ensures IsLog(listenersFirst, Block(listenersFirst, c))
  {
  }

  /** A lone "Item[]" is a log of its own. */
  lemma UpdatedIsLog(listenersFirst: bool)
    ensures IsLog(listenersFirst, Updated)
  {
  }

  /** Appending whole blocks to a log keeps it a log. */
  lemma {:induction false} LogAppend(listenersFirst: bool, a: seq<Notification>, b: seq<Notification>)
    requires IsLog(listenersFirst, a) && IsLog(listenersFirst, b)
    ensures IsLog(listenersFirst, a + b)
    decreases |a|
  {
    if a == [] {
      assert a + b == b;
    } else if a[0] == PropertyChanged(ItemsName) {
      assert (a + b)[1..] == a[1..] + b;
      LogAppend(listenersFirst, a[1..], b);
    } else {
      assert (a + b)[..3] == a[..3];
      assert (a + b)[3..] == a[3..] + b;
      LogAppend(listenersFirst, a[3..], b);
    }
  }

  /**
   * In every log, "Count" was raised exactly once per structural change, and
   * "Item[]" once per structural change plus once per manual update; nothing
   * else was raised.
   */
  lemma {:induction false} LogCounts(listenersFirst: bool, log: seq<Notification>)
    requires IsLog(listenersFirst, log)
    ensures CountOf(log, PropertyChanged(CountName)) == ListChanges(log)
    ensures CountOf(log, PropertyChanged(ItemsName)) >= ListChanges(log)
    ensures |log| == 2 * ListChanges(log) + CountOf(log, PropertyChanged(ItemsName))
    decreases |log|
  {
    if log == [] {
    } else if log[0] == PropertyChanged(ItemsName) {
      LogCounts(listenersFirst, log[1..]);
    } else {
      var e := if listenersFirst then log[0] else log[2];
      assert log == log[..3] + log[3..];
      CountOfAppend(log[..3], log[3..], PropertyChanged(CountName));
      CountOfAppend(log[..3], log[3..], PropertyChanged(ItemsName));
      ListChangesAppend(log[..3], log[3..]);
      LogCounts(listenersFirst, log[3..]);
    }
  }
}
