/**
 * `ReactiveSelected<T>`: a BindingList of selected items whose constructor
 * subscribes its own handler to ListChanged. That handler runs first on every
 * structural change and raises PropertyChanged "Count" then "Item[]"; only
 * afterwards does ListChanged reach subscribers added later.
 */
module Selecteds {
  import opened Notify
  import opened BindingListOps

  class ReactiveSelected<T(==)> {
    /** The items of the underlying BindingList, in order. */
    var items: seq<T>
    /** The notifications raised so far, in the order subscribers see them. */
    var log: seq<Notification>

    /** Every notification belongs to a whole block, the internal handler's two first. */
    predicate Valid()
      reads this
    {
      IsLog(false, log)
    }

    /** `new ReactiveSelected<T>()`: empty, with `OnListChangedInternal` registered as the first ListChanged handler. */
    constructor ()
      ensures Valid() && items == [] && log == []
    {
      items := [];
      log := [];
    }

    /** BindingList raising ListChanged: `OnListChangedInternal`, then the subscribers registered after construction. */
    method RaiseListChanged(c: ListChange)
      requires Valid()
      modifies this`log
      ensures Valid()
      ensures log == old(log) + Block(false, c)
    {
      OnListChangedInternal();
      log := log + [ListChanged(c)];
      assert log == old(log) + Block(false, c);
      BlockIsLog(false, c);
      LogAppend(false, old(log), Block(false, c));
    }

    /** `OnListChangedInternal`. */
    method OnListChangedInternal()
      modifies this`log
      ensures log == old(log) + [PropertyChanged(CountName), PropertyChanged(ItemsName)]
    {
      NotifyPropertyChanged(CountName);
      NotifyPropertyChanged(ItemsName);
    }

    /** `NotifyUpdated`: only "Item[]", the items untouched. */
    method NotifyUpdated()
      requires Valid()
      modifies this`log
      ensures Valid()
      ensures log == old(log) + Updated
    {
      NotifyPropertyChanged(ItemsName);
      UpdatedIsLog(false);
      LogAppend(false, old(log), Updated);
    }

    method NotifyPropertyChanged(name: string)
      modifies this`log
      ensures log == old(log) + [PropertyChanged(name)]
    {
      log := log + [PropertyChanged(name)];
    }

    /** `Add(item)`: appended even when already present. */
    method Add(item: T)
      requires Valid()
      modifies this`items, this`log
      ensures Valid()
      ensures items == InsertAt(old(items), |old(items)|, item)
      ensures log == old(log) + Block(false, ListChange(ItemAdded, |old(items)|))
    {
      var index := |items|;
      items := InsertAt(items, index, item);
      RaiseListChanged(ListChange(ItemAdded, index));
    }

    /** `Insert(index, item)`: throws unless `0 <= index <= Count`. */
    method Insert(index: int, item: T) returns (status: Status)
      requires Valid()
      modifies this`items, this`log
      ensures Valid()
      ensures status == Ok <==> 0 <= index <= |old(items)|
      ensures status == Ok ==> items == InsertAt(old(items), index, item) &&
                               log == old(log) + Block(false, ListChange(ItemAdded, index))
      ensures status != Ok ==> items == old(items) && log == old(log)
    {
      if 0 <= index <= |items| {
        items := InsertAt(items, index, item);
        RaiseListChanged(ListChange(ItemAdded, index));
        status := Ok;
      } else {
        status := ArgumentOutOfRange;
      }
    }

    /** `RemoveAt(index)`: throws unless `0 <= index < Count`. */
    method RemoveAt(index: int) returns (status: Status)
      requires Valid()
      modifies this`items, this`log
      ensures Valid()
      ensures status == Ok <==> 0 <= index < |old(items)|
      ensures status == Ok ==> items == BindingListOps.RemoveAt(old(items), index) &&
                               log == old(log) + Block(false, ListChange(ItemDeleted, index))
      ensures status != Ok ==> items == old(items) && log == old(log)
    {
      if 0 <= index < |items| {
        items := BindingListOps.RemoveAt(items, index);
        RaiseListChanged(ListChange(ItemDeleted, index));
        status := Ok;
      } else {
        status := ArgumentOutOfRange;
      }
    }

    /** `Remove(item)`: deletes the first equal item; an absent item is no change and no notification. */
    method Remove(item: T) returns (removed: bool)
      requires Valid()
      modifies this`items, this`log
      ensures Valid()
      ensures removed <==> item in old(items)
      ensures removed ==> items == BindingListOps.RemoveAt(old(items), IndexOf(old(items), item)) &&
                          log == old(log) + Block(false, ListChange(ItemDeleted, IndexOf(old(items), item)))
      ensures !removed ==> items == old(items) && log == old(log)
    {
      var index := IndexOf(items, item);
      if index < 0 {
        removed := false;
      } else {
        var status := RemoveAt(index);
        assert status == Ok;
        removed := true;
      }
    }

    /** `Clear()`: empties the list and raises a reset, even when it was already empty. */
    method Clear()
      requires Valid()
      modifies this`items, this`log
      ensures Valid()
      ensures items == []
      ensures log == old(log) + Block(false, ListChange(Reset, -1))
    {
      items := [];
      RaiseListChanged(ListChange(Reset, -1));
    }

    /** The indexer setter `this[index] = item`: throws unless `0 <= index < Count`; raises even when the item is equal. */
    method SetItem(index: int, item: T) returns (status: Status)
      requires Valid()
      modifies this`items, this`log
      ensures Valid()
      ensures status == Ok <==> 0 <= index < |old(items)|
      ensures status == Ok ==> items == ReplaceAt(old(items), index, item) &&
                               log == old(log) + Block(false, ListChange(ItemChanged, index))
      ensures status != Ok ==> items == old(items) && log == old(log)
    {
      if 0 <= index < |items| {
        items := ReplaceAt(items, index, item);
        RaiseListChanged(ListChange(ItemChanged, index));
        status := Ok;
      } else {
        status := ArgumentOutOfRange;
      }
    }
  }
}
