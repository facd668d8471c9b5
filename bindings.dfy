/**
 * `ControlBindingExtensions`: the private `Bind` dispatch, the public
 * overloads that call it with a fixed property kind, and the data-source
 * overloads that reset `DataSource` on every change of their source.
 */
module Bindings {
  import opened Optional
  import opened Notify
  import opened Controls
  import opened Properties

  /** How `Bind` ends: normally, or with InvalidOperationException. */
  datatype BindStatus = Bound | InvalidOperation

  /** What `Bind` does for a property kind, a control and a value. */
  datatype Decision = SetDataSource | Throw | ReplaceBinding

  /** DataSource and Collection are the kinds handled by assigning `DataSource`. */
  predicate IsSourceKind(p: ControlBindableProperty)
    ensures IsSourceKind(p) <==> Name(p) == "DataSource" || Name(p) == "Collection"
  {
    p == DataSource || p == Collection
  }

  /**
   * The branch `Bind` takes: a source kind needs a list control and an
   * enumerable value and throws otherwise; every other kind becomes a
   * `DataBindings` entry, whatever the control and the value.
   */
  function Decide(p: ControlBindableProperty, isListControl: bool, isEnumerable: bool): (d: Decision)
    ensures d == Throw <==> IsSourceKind(p) && !(isListControl && isEnumerable)
    ensures d == SetDataSource <==> IsSourceKind(p) && isListControl && isEnumerable
    ensures d == ReplaceBinding <==> !IsSourceKind(p)
  {
    if p == DataSource || p == Collection then
      if isListControl && isEnumerable then SetDataSource else Throw
    else
      ReplaceBinding
  }

  /**
   * `DataBindings` after removing any binding under `b`'s property name and
   * adding `b`: exactly `b` under that name, every other entry as it was.
   */
  function WithBinding(bindings: map<string, Binding>, b: Binding): (r: map<string, Binding>)
    ensures r.Keys == bindings.Keys + {b.propertyName}
    ensures r[b.propertyName] == b
    ensures forall n :: n in bindings && n != b.propertyName ==> r[n] == bindings[n]
  {
    var removed := if b.propertyName in bindings then bindings - {b.propertyName} else bindings;
    removed[b.propertyName := b]
  }

  /** Binding the same property under the same name again leaves `DataBindings` as the first binding left it. */
  lemma WithBindingIdempotent(bindings: map<string, Binding>, b: Binding)
    ensures WithBinding(WithBinding(bindings, b), b) == WithBinding(bindings, b)
  {
  }

  /** The binding `Bind` adds for kind `p`: the kind's name, bound to `property.Value`, no formatting, pushed on change. */
  function BindingFor(p: ControlBindableProperty, property: object): Binding
  {
    Binding(Name(p), property, ValueName, false, OnPropertyChanged)
  }

  /**
   * The bindings `Bind` adds for two kinds land under the same name exactly
   * when the kinds are equal, whatever properties they bind to.
   */
  lemma BindingsKeyedByKind(p: ControlBindableProperty, q: ControlBindableProperty, x: object, y: object)
    ensures BindingFor(p, x).propertyName == BindingFor(q, y).propertyName <==> p == q
  {
    NameInjective(p, q);
  }

  /**
   * The kind each public fixed-kind overload passes to `Bind`; `None` for a
   * control type that has no such overload.
   */
  function FixedKind(t: ControlType): (r: Option<ControlBindableProperty>)
    ensures r.Some? ==> r.value in {Text, Checked, Value, Image}
    ensures r.Some? ==> !IsSourceKind(r.value)
    ensures r.None? <==> IsListControl(t) || t == DataGridView || t == OtherControl
  {
    match t
    case Button | Label | TextBox | MaskedTextBox | RichTextBox | LinkLabel => Some(Text)
    case CheckBox | RadioButton => Some(Checked)
    case NumericUpDown | TrackBar | ProgressBar => Some(Value)
    case PictureBox => Some(Image)
    case _ => None
  }

  /** No fixed-kind overload can reach the throwing branch of `Bind`. */
  lemma FixedOverloadsNeverThrow(t: ControlType, isListControl: bool, isEnumerable: bool)
    requires FixedKind(t).Some?
    ensures Decide(FixedKind(t).value, isListControl, isEnumerable) == ReplaceBinding
  {
  }

  /**
   * The private `Bind<T>(control, property, bindProperty)`. `isEnumerable`
   * is the runtime test `property.Value is IEnumerable`. On the throwing path
   * nothing is changed; no path registers a change handler on `property`.
   */
  method Bind<T(==)>(control: Control<T>, property: ReactiveProperty<T>, bindProperty: ControlBindableProperty,
                     isEnumerable: T -> bool) returns (status: BindStatus)
    modifies control
    ensures var d := Decide(bindProperty, IsListControl(control.kind), isEnumerable(property.value));
      && (d == Throw ==> status == InvalidOperation && unchanged(control))
      && (d == SetDataSource ==> status == Bound && control.dataSource == Some(property.value) &&
                                 control.bindings == old(control.bindings))
      && (d == ReplaceBinding ==> status == Bound && control.dataSource == old(control.dataSource) &&
                                  control.bindings == WithBinding(old(control.bindings), BindingFor(bindProperty, property)))
  {
    var controlPropName := Name(bindProperty);
    if bindProperty == DataSource || bindProperty == Collection {
      if IsListControl(control.kind) && isEnumerable(property.value) {
        control.dataSource := None;
        control.dataSource := Some(property.value);
        status := Bound;
      } else {
        status := InvalidOperation;
      }
    } else {
      if controlPropName in control.bindings {
        control.bindings := control.bindings - {controlPropName};
      }
      control.bindings := control.bindings[controlPropName := BindingFor(bindProperty, property)];
      status := Bound;
    }
  }

  /**
   * The public overloads for Button, Label, TextBox, MaskedTextBox,
   * RichTextBox, LinkLabel (Text), CheckBox, RadioButton (Checked),
   * NumericUpDown, TrackBar, ProgressBar (Value) and PictureBox (Image).
   * They never throw and replace only the binding under their kind's name.
   */
  method BindFixed<T(==)>(control: Control<T>, property: ReactiveProperty<T>, isEnumerable: T -> bool)
    returns (status: BindStatus)
    requires FixedKind(control.kind).Some?
    modifies control
    ensures status == Bound
    ensures control.dataSource == old(control.dataSource)
    ensures control.bindings == WithBinding(old(control.bindings), BindingFor(FixedKind(control.kind).value, property))
  {
    FixedOverloadsNeverThrow(control.kind, IsListControl(control.kind), isEnumerable(property.value));
    status := Bind(control, property, FixedKind(control.kind).value, isEnumerable);
  }

  /**
   * The ComboBox, ListBox and DataGridView data-source overloads (a
   * CheckedListBox is a ListBox, so the ListBox overload takes it too): `DataSource`
   * is reset to `dataSource.Value` now, and a handler is registered that does
   * the same after every PropertyChanged of `dataSource`.
   */
  method BindDataSource<T(==)>(control: Control<T>, dataSource: ReactiveProperty<T>)
    requires control.kind == ComboBox || control.kind == ListBox || control.kind == CheckedListBox || control.kind == DataGridView
    modifies control, dataSource`rebindTargets
    ensures control.dataSource == Some(dataSource.value)
    ensures control.bindings == old(control.bindings)
    ensures dataSource.rebindTargets == old(dataSource.rebindTargets) + [control]
    ensures old(dataSource.Synced()) ==> dataSource.Synced()
  {
    control.dataSource := None;
    control.dataSource := Some(dataSource.value);
    dataSource.AddRebindTarget(control);
  }
}
