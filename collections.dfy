/**
 * `ReactiveCollention<T>`: a BindingList whose `OnListChanged` override lets
 * ListChanged reach its subscribers first and then raises PropertyChanged
 * "Count" and "Item[]". It owns a `Selected` list and a `SelectedItem` box
 * that no list operation touches.
 */
module Collections {
  import opened Notify
  import opened BindingListOps
  import opened Selecteds
  import opened Properties

  class ReactiveCollention<T(==)> {
    /** The items of the underlying BindingList, in order. */
    var items: seq<T>
    /** The notifications raised so far, in the order subscribers see them. */
    var log: seq<Notification>
    /** The public field `Selected`. */
    var selected: ReactiveSelected<T>
    /** The public field `SelectedItem`. */
    var selectedItem: ReactiveProperty<T>

    /** Every notification belongs to a whole block, ListChanged first. */
    predicate Valid()
      reads this
    {
      IsLog(true, log)
    }

    /** `new ReactiveCollention<T>()`; `defaultValue` is `default(T)`, the initial `SelectedItem`. */
    constructor (defaultValue: T)
      ensures Valid() && items == [] && log == []
      ensures fresh(selected) && selected.Valid() && selected.items == [] && selected.log == []
      ensures fresh(selectedItem) && selectedItem.State() == PropertyState(defaultValue, [])
      ensures selectedItem.rebindTargets == []
    {
      items := [];
      log := [];
      selected := new ReactiveSelected<T>();
      selectedItem := new ReactiveProperty<T>(defaultValue);
    }

    /** `new ReactiveCollention<T>(list)`: starts with the items of `list`. */
    constructor FromList(list: seq<T>, defaultValue: T)
      ensures Valid() && items == list && log == []
      ensures fresh(selected) && selected.Valid() && selected.items == [] && selected.log == []
      ensures fresh(selectedItem) && selectedItem.State() == PropertyState(defaultValue, [])
      ensures selectedItem.rebindTargets == []
    {
      items := list;
      log := [];
      selected := new ReactiveSelected<T>();
      selectedItem := new ReactiveProperty<T>(defaultValue);
    }

    /** `NotifyUpdated`: only "Item[]"; items, `Selected` and `SelectedItem` untouched. */
    method NotifyUpdated()
      requires Valid()
      modifies this`log
      ensures Valid()
      ensures log == old(log) + Updated
    {
      NotifyPropertyChanged(ItemsName);
      UpdatedIsLog(true);
      LogAppend(true, old(log), Updated);
    }

    /** The `OnListChanged` override: the base raises ListChanged, then "Count", then "Item[]". */
    method OnListChanged(c: ListChange)
      requires Valid()
      modifies this`log
      ensures Valid()
      ensures log == old(log) + Block(true, c)
    {
      log := log + [ListChanged(c)];
      NotifyPropertyChanged(CountName);
      NotifyPropertyChanged(ItemsName);
      assert log == old(log) + Block(true, c);
      BlockIsLog(true, c);
      LogAppend(true, old(log), Block(true, c));
    }

    method NotifyPropertyChanged(name: string)
      modifies this`log
      ensures log == old(log) + [PropertyChanged(name)]
    {
      log := log + [PropertyChanged(name)];
    }

    /** `Add(item)`: appended even when already present. */
    method Add(item: T)
      requires Valid()
      modifies this`items, this`log
      ensures Valid()
      ensures items == InsertAt(old(items), |old(items)|, item)
      ensures log == old(log) + Block(true, ListChange(ItemAdded, |old(items)|))
    {
      var index := |items|;
      items := InsertAt(items, index, item);
      OnListChanged(ListChange(ItemAdded, index));
    }

    /** `Insert(index, item)`: throws unless `0 <= index <= Count`. */
    method Insert(index: int, item: T) returns (status: Status)
      requires Valid()
      modifies this`items, this`log
      ensures Valid()
      ensures status == Ok <==> 0 <= index <= |old(items)|
      ensures status == Ok ==> items == InsertAt(old(items), index, item) &&
                               log == old(log) + Block(true, ListChange(ItemAdded, index))
      ensures status != Ok ==> items == old(items) && log == old(log)
    {
      if 0 <= index <= |items| {
        items := InsertAt(items, index, item);
        OnListChanged(ListChange(ItemAdded, index));
        status := Ok;
      } else {
        status := ArgumentOutOfRange;
      }
    }

    /** `RemoveAt(index)`: throws unless `0 <= index < Count`; `Selected` keeps the removed item. */
    method RemoveAt(index: int) returns (status: Status)
      requires Valid()
      modifies this`items, this`log
      ensures Valid()
      ensures status == Ok <==> 0 <= index < |old(items)|
      ensures status == Ok ==> items == BindingListOps.RemoveAt(old(items), index) &&
                               log == old(log) + Block(true, ListChange(ItemDeleted, index))
      ensures status != Ok ==> items == old(items) && log == old(log)
    {
      if 0 <= index < |items| {
        items := BindingListOps.RemoveAt(items, index);
        OnListChanged(ListChange(ItemDeleted, index));
        status := Ok;
      } else {
        status := ArgumentOutOfRange;
      }
    }

    /**
     * `Remove(item)`: finds the first equal item and removes it as `RemoveAt`
     * does; an absent item is no change and no notification.
     */
    method Remove(item: T) returns (removed: bool)
      requires Valid()
      modifies this`items, this`log
      ensures Valid()
      ensures removed <==> item in old(items)
      ensures removed ==> items == BindingListOps.RemoveAt(old(items), IndexOf(old(items), item)) &&
                          log == old(log) + Block(true, ListChange(ItemDeleted, IndexOf(old(items), item)))
      ensures !removed ==> items == old(items) && log == old(log)
    {
      var index := IndexOf(items, item);
      if index < 0 {
        removed := false;
      } else {
        var status := RemoveAt(index);
        assert status == Ok;
        removed := true;
      }
    }

    /** `Clear()`: empties the list and raises a reset, even when it was already empty. */
    method Clear()
      requires Valid()
      modifies this`items, this`log
      ensures Valid()
      ensures items == []
      ensures log == old(log) + Block(true, ListChange(Reset, -1))
    {
      items := [];
      OnListChanged(ListChange(Reset, -1));
    }

    /** The indexer setter `this[index] = item`: throws unless `0 <= index < Count`; raises even when the item is equal. */
    method SetItem(index: int, item: T) returns (status: Status)
      requires Valid()
      modifies this`items, this`log
      ensures Valid()
      ensures status == Ok <==> 0 <= index < |old(items)|
      ensures status == Ok ==> items == ReplaceAt(old(items), index, item) &&
                               log == old(log) + Block(true, ListChange(ItemChanged, index))
      ensures status != Ok ==> items == old(items) && log == old(log)
    {
      if 0 <= index < |items| {
        items := ReplaceAt(items, index, item);
        OnListChanged(ListChange(ItemChanged, index));
        status := Ok;
      } else {
        status := ArgumentOutOfRange;
      }
    }
  }
}
