/**
 * Controls as the binding layer sees them: a concrete widget type, a
 * `DataSource` and the `DataBindings` collection keyed by property name.
 * Everything else a WinForms control does is outside this model.
 */
module Controls {
  import opened Optional

  /** `ControlBindableProperty`: which property of a control a binding targets. */
  datatype ControlBindableProperty =
    | Text | Value | Image | SelectedItem | Checked | DataSource | Collection | SelectedIndex

  /** `bindProperty.ToString()`: the enum member's own name. */
  function Name(p: ControlBindableProperty): (r: string)
    ensures |r| > 0
  {
    match p
    case Text => "Text"
    case Value => "Value"
    case Image => "Image"
    case SelectedItem => "SelectedItem"
    case Checked => "Checked"
    case DataSource => "DataSource"
    case Collection => "Collection"
    case SelectedIndex => "SelectedIndex"
  }

  /** Distinct kinds bind under distinct names, so one kind's binding never replaces another's. */
  lemma NameInjective(p: ControlBindableProperty, q: ControlBindableProperty)
    ensures Name(p) == Name(q) <==> p == q
  {
  }

  /** The concrete widget types the extension methods are written for; `OtherControl` is any other `Control`. */
  datatype ControlType =
    | Button | Label | TextBox | MaskedTextBox | RichTextBox | LinkLabel
    | CheckBox | RadioButton
    | NumericUpDown | TrackBar | ProgressBar
    | PictureBox
    | ComboBox | ListBox | CheckedListBox
    | DataGridView
    | OtherControl

  /** `control is ListControl`: ComboBox and ListBox derive from ListControl, and CheckedListBox from ListBox. */
  predicate IsListControl(t: ControlType)
    ensures IsListControl(t) ==> t != DataGridView && t != OtherControl
  {
    t == ComboBox || t == ListBox || t == CheckedListBox
  }

  /** `DataSourceUpdateMode`. */
  datatype DataSourceUpdateMode = OnValidation | OnPropertyChanged | Never

  /**
   * One entry of `control.DataBindings`: the control property it drives, the
   * object it reads from, the member of that object, and its options.
   */
  datatype Binding = Binding(
    propertyName: string,
    source: object,
    dataMember: string,
    formattingEnabled: bool,
    updateMode: DataSourceUpdateMode)

  /**
   * A control. `V` is the type of what its `DataSource` holds; `None` is
   * `null`. `bindings` maps each bound property name to its binding.
   */
  class Control<V> {
    const kind: ControlType
    var dataSource: Option<V>
    var bindings: map<string, Binding>

    constructor (kind: ControlType)
      ensures this.kind == kind && dataSource == None && bindings == map[]
    {
      this.kind := kind;
      dataSource := None;
      bindings := map[];
    }
  }
}
