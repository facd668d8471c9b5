# Reactive WinForms binding primitives, modelled in Dafny

This project models the core of `JoeDevSharp.WinForms.Extensions.Reactive`:

- `ReactiveProperty<T>`: a one-value box. Its `Value` setter and `SetValue` store the new
  value and raise PropertyChanged("Value") only when it differs from the stored one.
- `ReactiveCollention<T>` and `ReactiveSelected<T>`: BindingLists. Every structural change
  (add, insert, remove, clear, replace) raises ListChanged and the PropertyChanged notifications
  "Count" and "Item[]". `NotifyUpdated` raises "Item[]" alone.
- `ControlBindingExtensions`: the private `Bind` dispatch on `ControlBindableProperty`, the
  public overloads that call it with a fixed kind, and the ComboBox/ListBox/DataGridView
  overloads that reset `DataSource` whenever their source changes.

Subscribers are not callbacks here: each object keeps an append-only log of the notifications
it raised, in the order subscribers receive them, so "exactly one", "none" and "in this order"
are postconditions on that log. The one subscriber whose effect is modelled is the rebind
handler of the data-source overloads. A property keeps those handlers' controls in
`rebindTargets`, and raising PropertyChanged runs them in registration order.

Files, one module each:

| file | module | models |
|---|---|---|
| optional.dfy | Optional | `Option` (`None` is `null`) |
| notify.dfy | Notify | notification names, the log entries, the shape of a well-formed log |
| binding_list_ops.dfy | BindingListOps | the item updates of the inherited `BindingList<T>` operations |
| controls.dfy | Controls | `ControlBindableProperty`, the control types, `Binding`, `Control` |
| properties.dfy | Properties | `Core/ReactiveProperty.cs` |
| selecteds.dfy | Selecteds | `Core/ReactiveSelecteds.cs` |
| collections.dfy | Collections | `Core/ReactiveCollention.cs` |
| bindings.dfy | Bindings | `Extensions/ControlBindingExtensions.cs` |

Modelling choices:

- `default(T)` has no Dafny counterpart. C# fills in an optional argument at the call site, so
  the constructors take it as an explicit argument.
- `Equals(a, b)` is Dafny's `==` on an equality type.
- The `Value` getter is the function `ReactiveProperty.Value()`. It returns the stored field, and as a
  function it cannot change any state.
- `property.Value is IEnumerable` is a runtime type test. It is a total predicate
  `isEnumerable: T -> bool` passed to `Bind`.
- A BindingList operation that throws `ArgumentOutOfRangeException` returns
  `Status.ArgumentOutOfRange` and leaves the items and the log unchanged. It does not
  require a valid index.
- A collection notifies in the order its `OnListChanged` override gives:
  `[ListChanged, "Count", "Item[]"]`. `ReactiveSelected` does not override `OnListChanged`.
  Instead its constructor subscribes `OnListChangedInternal` first. So any ListChanged
  subscriber added later runs after that handler: `["Count", "Item[]", ListChanged]`.
  `Notify.Block` gives both orders. `Notify.IsLog` is the invariant (`Valid()`) that
  each class keeps: its log is made of whole blocks and lone "Item[]" entries.
- The controls and the properties are separate objects. A list operation's frame is only
  the list's `items` and `log`, so `Selected` and `SelectedItem` stay unchanged. An item
  removed from the list therefore stays in `Selected`.

Facts about the code that shape the model:

- The code has no two-way synchronisation and no reentrancy guard. The overloads for
  CheckedListBox, ComboBox SelectedItem, ListBox selected items, DateTimePicker,
  MonthCalendar, DomainUpDown and TabControl have empty bodies.
- `ReactiveSelected`'s later ListChanged subscribers see the event after "Count" and "Item[]".
- `ReactiveSelected` is an ordered BindingList with no deduplication.
- `Bind` with kind DataSource or Collection sets `DataSource` only at bind time (null, then
  the value) and registers no handler. Only the three data-source overloads rebind on change.
- The ComboBox and ListBox data-source overloads (ControlBindingExtensions.cs:140 and :154)
  declare a type parameter `T` that no parameter uses, so C# cannot infer it. Without an
  explicit type argument, `comboBox.Bind(ds)` with `ds: ReactiveProperty<IEnumerable>`
  resolves to the empty SelectedItem overload (ControlBindingExtensions.cs:180, `T =
  IEnumerable`), and `listBox.Bind(ds)` does not compile. `BindDataSource` models their
  bodies as they run when the caller writes the type argument.

## Model

| member | source | states |
|---|---|---|
| Properties.ReactiveProperty.constructor | JoeDevSharp.WinForms.Extensions.Reactive/Core/ReactiveProperty.cs:22-25 | the value is the initial value (`default(T)` passed explicitly), no notification has been raised, no handler registered |
| Properties.AfterSet | JoeDevSharp.WinForms.Extensions.Reactive/Core/ReactiveProperty.cs:33-39 | after an assignment of `v` the value is `v` in either branch; the log grows by exactly one "Value" iff `v` differs from the old value, otherwise it is unchanged |
| Properties.ReactiveProperty.Set | JoeDevSharp.WinForms.Extensions.Reactive/Core/ReactiveProperty.cs:33-40 | the `Value` setter takes the state to `AfterSet` of the old state; after an effective change every rebound control shows the new value (the field is stored before handlers run); an equal value touches no control |
| Properties.ReactiveProperty.SetValue | JoeDevSharp.WinForms.Extensions.Reactive/Core/ReactiveProperty.cs:47-54 | the same postcondition as `Set`, so `SetValue` and the setter have the same effect on value, log and controls |
| Properties.ReactiveProperty.Value | JoeDevSharp.WinForms.Extensions.Reactive/Core/ReactiveProperty.cs:32 | the getter returns the stored field and, being a function, changes no state; assigning the value just read changes nothing and raises nothing |
| Properties.ReactiveProperty.RaiseValueChanged | JoeDevSharp.WinForms.Extensions.Reactive/Core/ReactiveProperty.cs:37-38 | raising PropertyChanged appends one "Value" and runs every rebind handler, each of which reads the already stored value |
| Properties.ReactiveProperty.AddRebindTarget | JoeDevSharp.WinForms.Extensions.Reactive/Extensions/ControlBindingExtensions.cs:144-148 | subscribing a rebind handler appends its control to the handlers, in registration order |
| Properties.SecondSetIsSilent | JoeDevSharp.WinForms.Extensions.Reactive/Core/ReactiveProperty.cs:35-38 | assigning the same value twice in a row: the second assignment changes neither value nor log |
| Properties.AfterSetsNotifiesPerChange | JoeDevSharp.WinForms.Extensions.Reactive/Core/ReactiveProperty.cs:33-39 | after any run of assignments the value is the last one assigned and the log gained exactly one "Value" per assignment that changed the value |
| Notify.Block | JoeDevSharp.WinForms.Extensions.Reactive/Core/ReactiveCollention.cs:51-56 | a structural change produces three notifications: one ListChanged, one "Count", one "Item[]"; "Count" always right before "Item[]"; ListChanged first for the collection, last for the selection list |
| Notify.BlockIsLog | JoeDevSharp.WinForms.Extensions.Reactive/Core/ReactiveCollention.cs:51-56 | one structural-change block is a well-formed log |
| Notify.UpdatedIsLog | JoeDevSharp.WinForms.Extensions.Reactive/Core/ReactiveCollention.cs:42-45 | one lone "Item[]" is a well-formed log |
| Notify.LogAppend | JoeDevSharp.WinForms.Extensions.Reactive/Core/ReactiveCollention.cs:42-56 | appending whole blocks to a well-formed log keeps it well formed |
| Notify.LogCounts | JoeDevSharp.WinForms.Extensions.Reactive/Core/ReactiveCollention.cs:54-55 | in a well-formed log "Count" occurs exactly once per ListChanged, and every other entry is "Item[]": two PropertyChanged per structural change plus one per manual update |
| BindingListOps.IndexOf | JoeDevSharp.WinForms.Extensions.Reactive/Core/ReactiveCollention.cs:10 | the inherited `IndexOf`: -1 iff the item is absent, otherwise an index holding the item with no equal item before it |
| BindingListOps.InsertAt | JoeDevSharp.WinForms.Extensions.Reactive/Core/ReactiveCollention.cs:10 | the inherited insert: one longer, the item at the index, the prefix kept, the rest shifted up; one more copy of the item |
| BindingListOps.RemoveAt | JoeDevSharp.WinForms.Extensions.Reactive/Core/ReactiveCollention.cs:10 | the inherited remove: one shorter, the prefix kept, the rest shifted down; one copy of the removed item fewer |
| BindingListOps.ReplaceAt | JoeDevSharp.WinForms.Extensions.Reactive/Core/ReactiveCollention.cs:10 | the inherited indexer set: same length, the new item at the index, every other item kept |
| BindingListOps.RemoveUndoesInsert | JoeDevSharp.WinForms.Extensions.Reactive/Core/ReactiveCollention.cs:10 | removing at the index just inserted at restores the original items |
| BindingListOps.InsertUndoesRemove | JoeDevSharp.WinForms.Extensions.Reactive/Core/ReactiveCollention.cs:10 | inserting the removed item back at its index restores the original items |
| BindingListOps.AddKeepsDuplicates | JoeDevSharp.WinForms.Extensions.Reactive/Core/ReactiveSelecteds.cs:10-46 | `Add` appends with no duplicate check, so adding an item already present adds one more copy |
| BindingListOps.RemoveFirstOccurrence | JoeDevSharp.WinForms.Extensions.Reactive/Core/ReactiveCollention.cs:10 | `Remove(x)` takes away exactly one copy of `x` and no other item |
| Selecteds.ReactiveSelected.constructor | JoeDevSharp.WinForms.Extensions.Reactive/Core/ReactiveSelecteds.cs:20-24 | a new selection list is empty and its log is empty |
| Selecteds.ReactiveSelected.RaiseListChanged | JoeDevSharp.WinForms.Extensions.Reactive/Core/ReactiveSelecteds.cs:23 | the ListChanged handler registered in the constructor runs first, so "Count" and "Item[]" come before ListChanged reaches later subscribers |
| Selecteds.ReactiveSelected.OnListChangedInternal | JoeDevSharp.WinForms.Extensions.Reactive/Core/ReactiveSelecteds.cs:26-31 | the handler appends "Count" then "Item[]", exactly two entries |
| Selecteds.ReactiveSelected.NotifyUpdated | JoeDevSharp.WinForms.Extensions.Reactive/Core/ReactiveSelecteds.cs:37-40 | appends only "Item[]"; the items are not in its frame |
| Selecteds.ReactiveSelected.NotifyPropertyChanged | JoeDevSharp.WinForms.Extensions.Reactive/Core/ReactiveSelecteds.cs:42-45 | appends one PropertyChanged with the given name |
| Selecteds.ReactiveSelected.Add | JoeDevSharp.WinForms.Extensions.Reactive/Core/ReactiveSelecteds.cs:10 | the item is appended even when present, followed by one block for ItemAdded at the old count |
| Selecteds.ReactiveSelected.Insert | JoeDevSharp.WinForms.Extensions.Reactive/Core/ReactiveSelecteds.cs:10 | succeeds iff `0 <= index <= Count`; then the item is inserted and one ItemAdded block is logged; otherwise nothing changes |
| Selecteds.ReactiveSelected.RemoveAt | JoeDevSharp.WinForms.Extensions.Reactive/Core/ReactiveSelecteds.cs:10 | succeeds iff `0 <= index < Count`; then the item is removed and one ItemDeleted block is logged; otherwise nothing changes |
| Selecteds.ReactiveSelected.Remove | JoeDevSharp.WinForms.Extensions.Reactive/Core/ReactiveSelecteds.cs:10 | returns true iff the item was present; then its first occurrence is removed with one ItemDeleted block; otherwise items and log are unchanged |
| Selecteds.ReactiveSelected.Clear | JoeDevSharp.WinForms.Extensions.Reactive/Core/ReactiveSelecteds.cs:10 | the list becomes empty and one Reset block is logged, even if it was empty |
| Selecteds.ReactiveSelected.SetItem | JoeDevSharp.WinForms.Extensions.Reactive/Core/ReactiveSelecteds.cs:10 | succeeds iff `0 <= index < Count`; then the item is replaced and one ItemChanged block is logged, even for an equal item; otherwise nothing changes |
| Collections.ReactiveCollention.constructor | JoeDevSharp.WinForms.Extensions.Reactive/Core/ReactiveCollention.cs:20-30 | a new collection is empty with an empty log, a fresh empty `Selected` and a fresh `SelectedItem` holding `default(T)` |
| Collections.ReactiveCollention.FromList | JoeDevSharp.WinForms.Extensions.Reactive/Core/ReactiveCollention.cs:36 | a collection built from a list starts with that list's items, an empty log, empty `Selected`, `SelectedItem` at `default(T)` |
| Collections.ReactiveCollention.NotifyUpdated | JoeDevSharp.WinForms.Extensions.Reactive/Core/ReactiveCollention.cs:42-45 | appends exactly one "Item[]" and no "Count"; items, `Selected` and `SelectedItem` are outside its frame |
| Collections.ReactiveCollention.OnListChanged | JoeDevSharp.WinForms.Extensions.Reactive/Core/ReactiveCollention.cs:51-56 | appends ListChanged, then "Count", then "Item[]" and keeps the log well formed |
| Collections.ReactiveCollention.NotifyPropertyChanged | JoeDevSharp.WinForms.Extensions.Reactive/Core/ReactiveCollention.cs:62-65 | appends one PropertyChanged with the given name |
| Collections.ReactiveCollention.Add | JoeDevSharp.WinForms.Extensions.Reactive/Core/ReactiveCollention.cs:10 | the item is appended and one ItemAdded block is logged; only `items` and `log` may change, so `Selected` and `SelectedItem` do not |
| Collections.ReactiveCollention.Insert | JoeDevSharp.WinForms.Extensions.Reactive/Core/ReactiveCollention.cs:10 | succeeds iff `0 <= index <= Count`; then the item is inserted and one ItemAdded block is logged; otherwise nothing changes |
| Collections.ReactiveCollention.RemoveAt | JoeDevSharp.WinForms.Extensions.Reactive/Core/ReactiveCollention.cs:10 | succeeds iff `0 <= index < Count`; then the item is removed and one ItemDeleted block is logged, while `Selected` keeps it; otherwise nothing changes |
| Collections.ReactiveCollention.Remove | JoeDevSharp.WinForms.Extensions.Reactive/Core/ReactiveCollention.cs:10 | returns true iff the item was present; then its first occurrence is removed with one ItemDeleted block; otherwise items and log are unchanged |
| Collections.ReactiveCollention.Clear | JoeDevSharp.WinForms.Extensions.Reactive/Core/ReactiveCollention.cs:10 | the list becomes empty and one Reset block is logged, even if it was empty |
| Collections.ReactiveCollention.SetItem | JoeDevSharp.WinForms.Extensions.Reactive/Core/ReactiveCollention.cs:10 | succeeds iff `0 <= index < Count`; then the item is replaced and one ItemChanged block is logged; otherwise nothing changes |
| Controls.Name | JoeDevSharp.WinForms.Extensions.Reactive/Extensions/ControlBindingExtensions.cs:23 | the binding name is the enum member's name, never empty |
| Controls.NameInjective | JoeDevSharp.WinForms.Extensions.Reactive/Enums/ControlBindableProperty.cs:7-48 | the eight kinds have eight distinct names |
| Controls.IsListControl | JoeDevSharp.WinForms.Extensions.Reactive/Extensions/ControlBindingExtensions.cs:27 | `control is ListControl`: ComboBox, ListBox and CheckedListBox; never DataGridView or another control |
| Bindings.IsSourceKind | JoeDevSharp.WinForms.Extensions.Reactive/Extensions/ControlBindingExtensions.cs:25 | the kinds handled by assigning `DataSource` are exactly those named "DataSource" and "Collection" |
| Bindings.Decide | JoeDevSharp.WinForms.Extensions.Reactive/Extensions/ControlBindingExtensions.cs:25-44 | `Bind` throws iff the kind is DataSource or Collection and the control is not a list control or the value is not enumerable; it assigns `DataSource` iff it is such a kind and both hold; it replaces a binding iff the kind is any other |
| Bindings.WithBinding | JoeDevSharp.WinForms.Extensions.Reactive/Extensions/ControlBindingExtensions.cs:39-43 | after the remove-then-add, exactly the new binding is under its name and every binding under another name is unchanged |
| Bindings.WithBindingIdempotent | JoeDevSharp.WinForms.Extensions.Reactive/Extensions/ControlBindingExtensions.cs:39-43 | binding the same property under the same name twice leaves `DataBindings` exactly as binding it once |
| Bindings.BindingsKeyedByKind | JoeDevSharp.WinForms.Extensions.Reactive/Extensions/ControlBindingExtensions.cs:23 | the bindings `Bind` adds for two kinds share a name exactly when the kinds are equal, so one kind never replaces another kind's binding |
| Bindings.FixedKind | JoeDevSharp.WinForms.Extensions.Reactive/Extensions/ControlBindingExtensions.cs:52-131 | each fixed-kind overload passes Text, Checked, Value or Image, never DataSource or Collection; list controls, DataGridView and other controls have none |
| Bindings.FixedOverloadsNeverThrow | JoeDevSharp.WinForms.Extensions.Reactive/Extensions/ControlBindingExtensions.cs:52-131 | a fixed-kind overload always takes the binding branch of `Bind`, whatever the control and value |
| Bindings.Bind | JoeDevSharp.WinForms.Extensions.Reactive/Extensions/ControlBindingExtensions.cs:21-45 | throwing leaves the control unchanged; the DataSource branch sets `DataSource` to the value and leaves the bindings; the other branch replaces the binding under the kind's name and leaves `DataSource`; the property is outside its frame, so no handler is registered |
| Bindings.BindFixed | JoeDevSharp.WinForms.Extensions.Reactive/Extensions/ControlBindingExtensions.cs:52-131 | the public fixed-kind overloads never throw and replace only the binding under their kind's name |
| Bindings.BindDataSource | JoeDevSharp.WinForms.Extensions.Reactive/Extensions/ControlBindingExtensions.cs:140-245 | the ComboBox (140-149), ListBox (154-163) and DataGridView (236-245) overloads (CheckedListBox included, as a ListBox) set `DataSource` to the current value and register a rebind handler; together with `Set`, `DataSource` equals the value after every effective change |

## Left out

- The overloads with empty bodies (CheckedListBox, ComboBox SelectedItem, ListBox selected items, DateTimePicker, MonthCalendar, DomainUpDown, TabControl): they do nothing, so there is nothing to model.
- The WinForms data-binding engine: what a `DataBindings` entry does after it is added, `DataSourceUpdateMode`, formatting and pushes from the control back to the property. This is UI library behaviour.
- `ReactiveProperty.ToString()`: it depends on the string conversion of an arbitrary `T`.
- BindingList extras: `AddNew`/`AllowNew`, sorting, `RaiseListChangedEvents = false`, and forwarding of item-level PropertyChanged when `T` is itself observable.
- The BindingList getters (`Count`, the indexer getter, `Contains`): the model reads `items` directly.
- Aliasing in `ReactiveCollention(BindingList<T>)`: the base class wraps the given list rather than copying it. `FromList` models only the initial contents, not later changes made through the original list.
- Delegates and events: only a log stands for subscribers, and there is no unsubscription and no threading. In the source, the rebind handlers and other subscribers share one invocation list. In the model they are two channels, so their interleaving is not captured.
- The two `DataSource` assignments (null, then the value) are both performed. The `DataSourceChanged` events they raise in WinForms are not modelled.
- `DataSource` holds `Some(value)` even when the value is itself a null enumerable. A null `IEnumerable` value is not distinguished from other values.
- Bindings.WithBinding: compares property names exactly, while `ControlBindingsCollection` looks them up case-insensitively. A binding that other code added under, say, "text" is found and removed by `DataBindings["Text"]`, but `WithBinding` keeps it beside the new "Text" entry.
- Bindings.BindDataSource: models a list control's `DataSource` setter as total. In WinForms, `ListControl.DataSource` throws ArgumentException for a non-null value that is neither an `IList` nor an `IListSource`. For such a value, the rebind handler would have set `DataSource` to null, then thrown out of the `Value` setter after the new value was stored, and the handlers registered after it would not run. `Synced()` after `Set` therefore holds only for values the control accepts (`IList`, `IListSource` or null). The same applies to `Bind`'s DataSource branch, whose throw would leave the control at null.
- The DataGridView overload takes `ReactiveProperty<IEnumerable<T>>`. The model types a control's `DataSource` by the property's own type parameter.
