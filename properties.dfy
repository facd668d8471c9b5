/**
 * `ReactiveProperty<T>`: a one-value box whose setter raises PropertyChanged
 * ("Value") only when the new value differs from the stored one.
 */
module Properties {
  import opened Optional
  import opened Notify
  import opened Controls

  /** What a subscriber can observe of a property: its value and the PropertyChanged names raised so far. */
  datatype PropertyState<T> = PropertyState(value: T, log: seq<string>)

  /**
   * The effect of the `Value` setter (and of `SetValue`): the stored value
   * becomes `v` in either case, and exactly one "Value" notification is
   * appended exactly when `v` differs from the old value.
   */
  function AfterSet<T(==)>(s: PropertyState<T>, v: T): (r: PropertyState<T>)
    ensures r.value == v
    ensures r.log == s.log <==> s.value == v
    ensures r.log == s.log + [ValueName] <==> s.value != v
  {
    if s.value == v then s else PropertyState(v, s.log + [ValueName])
  }

  /** Setting the same value twice in a row: the second assignment changes nothing and raises nothing. */
  lemma SecondSetIsSilent<T>(s: PropertyState<T>, v: T)
    ensures AfterSet(AfterSet(s, v), v) == AfterSet(s, v)
  {
  }

  /** A run of successive assignments, first to last. */
  function AfterSets<T(==)>(s: PropertyState<T>, vs: seq<T>): (r: PropertyState<T>)
    decreases |vs|
  {
    if vs == [] then s else AfterSets(AfterSet(s, vs[0]), vs[1..])
  }

  /** How many of the assignments `vs`, made in order starting from `current`, actually change the value. */
  function Changes<T(==)>(current: T, vs: seq<T>): (n: nat)
    decreases |vs|
  {
    if vs == [] then 0
    else (if vs[0] != current then 1 else 0) + Changes(vs[0], vs[1..])
  }

  /**
   * After any run of assignments the property holds the last value assigned,
   * and its subscribers have seen one "Value" notification per effective
   * change and no other.
   */
  lemma {:induction false} AfterSetsNotifiesPerChange<T>(s: PropertyState<T>, vs: seq<T>)
    ensures vs == [] ==> AfterSets(s, vs) == s
    ensures vs != [] ==> AfterSets(s, vs).value == vs[|vs| - 1]
    ensures AfterSets(s, vs).log == s.log + seq(Changes(s.value, vs), _ => ValueName)
    decreases |vs|
  {
    if vs != [] {
      var s' := AfterSet(s, vs[0]);
      AfterSetsNotifiesPerChange(s', vs[1..]);
      var k := Changes(vs[0], vs[1..]);
      if vs[0] != s.value {
        assert [ValueName] + seq(k, _ => ValueName) == seq(k + 1, _ => ValueName);
        assert s'.log + seq(k, _ => ValueName) == s.log + ([ValueName] + seq(k, _ => ValueName));
      }
      if |vs| > 1 {
        assert vs[1..][|vs[1..]| - 1] == vs[|vs| - 1];
      }
    }
  }

  class ReactiveProperty<T(==)> {
    /** The private field `_value`. */
    var value: T
    /** The names of the PropertyChanged notifications raised so far, in order. */
    var log: seq<string>
    /**
     * The controls whose handler, registered by a data-source binding, resets
     * their `DataSource` on every PropertyChanged, in registration order.
     */
    var rebindTargets: seq<Control<T>>

    /** `new ReactiveProperty<T>(initialValue)`; the C# default argument `default(T)` is passed explicitly. */
    constructor (initialValue: T)
      ensures value == initialValue && log == [] && rebindTargets == []
    {
      value := initialValue;
      log := [];
      rebindTargets := [];
    }

    /** The `Value` getter: the stored field; assigning what was read back changes nothing. */
    function Value(): (r: T)
      reads this
      ensures r == State().value
      ensures AfterSet(State(), r) == State()
    {
      value
    }

    function State(): (s: PropertyState<T>)
      reads this
    {
      PropertyState(value, log)
    }

    function Targets(): (cs: set<Control<T>>)
      reads this
    {
      set c | c in rebindTargets
    }

    /** Every data-source-bound control shows the current value. */
    ghost predicate Synced()
      reads this, Targets()
    {
      forall c :: c in rebindTargets ==> c.dataSource == Some(value)
    }

    /** The `Value` setter. */
    method Set(v: T)
      modifies this, Targets()
      ensures State() == AfterSet(old(State()), v)
      ensures rebindTargets == old(rebindTargets)
      ensures old(value) != v ==> Synced()
      ensures old(value) == v ==> forall c :: c in rebindTargets ==> c.dataSource == old(c.dataSource)
      ensures old(Synced()) ==> Synced()
      ensures forall c :: c in rebindTargets ==> c.bindings == old(c.bindings)
    {
      if value != v {
        value := v;
        RaiseValueChanged();
      }
    }

    /** `SetValue(value)`: the same effect as the setter. */
    method SetValue(v: T)
      modifies this, Targets()
      ensures State() == AfterSet(old(State()), v)
      ensures rebindTargets == old(rebindTargets)
      ensures old(value) != v ==> Synced()
      ensures old(value) == v ==> forall c :: c in rebindTargets ==> c.dataSource == old(c.dataSource)
      ensures old(Synced()) ==> Synced()
      ensures forall c :: c in rebindTargets ==> c.bindings == old(c.bindings)
    {
      if value != v {
        value := v;
        RaiseValueChanged();
      }
    }

    /**
     * `PropertyChanged?.Invoke(this, "Value")`: the notification is logged and
     * every rebind handler runs in turn, reading the already stored value.
     */
    method RaiseValueChanged()
      modifies this`log, Targets()
      ensures log == old(log) + [ValueName]
      ensures Synced()
      ensures forall c :: c in rebindTargets ==> c.bindings == old(c.bindings)
    {
      log := log + [ValueName];
      var i := 0;
      while i < |rebindTargets|
        invariant 0 <= i <= |rebindTargets|
        invariant log == old(log) + [ValueName]
        invariant forall j :: 0 <= j < i ==> rebindTargets[j].dataSource == Some(value)
        invariant forall c :: c in rebindTargets ==> c.bindings == old(c.bindings)
      {
        var c := rebindTargets[i];
        c.dataSource := None;
        c.dataSource := Some(value);
        i := i + 1;
      }
    }

    /** `PropertyChanged += handler` for a handler that resets `c.DataSource` to `Value`. */
    method AddRebindTarget(c: Control<T>)
      modifies this`rebindTargets
      ensures rebindTargets == old(rebindTargets) + [c]
    {
      rebindTargets := rebindTargets + [c];
    }
  }
}
