/** JSExportClassDefinition<T> (include/HAL/detail/JSExportClassDefinition.hpp):
    a class definition whose static value and function tables are built from
    the per-type maps of named value and named function properties, and
    rebuilt whenever a definition is copied, moved or assigned. */
module ExportDefinitions {
  import opened Common
  import opened Classes
  import opened StaticTables
  import JSUtil

  /** The entry written for a named value property: both named-value
      trampolines, whatever the property's attributes, and the engine flags
      of those attributes. */
  function NamedValueEntry(values: map<string, set<JSUtil.PropertyAttribute>>): string -> StaticValue
  {
    name => StaticValue(Some(name), GetNamedValuePropertyCallback, SetNamedValuePropertyCallback,
                        if name in values then JSUtil.Mask(values[name]) else JSUtil.AttributeNone)
  }

  /** The entry written for a named function property. */
  function NamedFunctionEntry(functions: map<string, set<JSUtil.PropertyAttribute>>): string -> StaticFunction
  {
    name => StaticFunction(Some(name), CallNamedFunctionCallback,
                           if name in functions then JSUtil.Mask(functions[name]) else JSUtil.AttributeNone)
  }

  /** The per-type statics (include/HAL/detail/JSExportClassDefinition.hpp:73-74):
      named_value_property_callback_map__ and
      named_function_property_callback_map__, each callback reduced to the
      attribute set it reports through get_attributes(). */
  class ExportStatics {
    var namedValues: map<string, set<JSUtil.PropertyAttribute>>
    var namedFunctions: map<string, set<JSUtil.PropertyAttribute>>

    constructor (namedValues: map<string, set<JSUtil.PropertyAttribute>>, namedFunctions: map<string, set<JSUtil.PropertyAttribute>>)
      ensures this.namedValues == namedValues && this.namedFunctions == namedFunctions
    {
      this.namedValues := namedValues;
      this.namedFunctions := namedFunctions;
    }
  }

  class JSExportClassDefinition {
    /** The statics of the type T the definition belongs to. */
    const statics: ExportStatics
    /** js_class_definition__, static_values__ and static_functions__, the
        members of the JSClassDefinition base. */
    var definition: ClassDefinition
    var staticValues: seq<StaticValue>
    var staticFunctions: seq<StaticFunction>

    /** The tables and the definition's pointers are those
        InitializeNamedPropertyCallbacks builds from the statics: an empty
        map gives an empty vector and a null pointer; any other gives a table
        of its names and a pointer into this definition's own vector. */
    ghost predicate Initialized()
      reads this, statics
    {
      && definition.staticValues == (if statics.namedValues == map[] then None else Some(this))
      && (statics.namedValues == map[] ==> staticValues == [])
      && (statics.namedValues != map[] ==>
            IsTable(staticValues, statics.namedValues.Keys, NamedValueEntry(statics.namedValues), ValueSentinel))
      && definition.staticFunctions == (if statics.namedFunctions == map[] then None else Some(this))
      && (statics.namedFunctions == map[] ==> staticFunctions == [])
      && (statics.namedFunctions != map[] ==>
            IsTable(staticFunctions, statics.namedFunctions.Keys, NamedFunctionEntry(statics.namedFunctions), FunctionSentinel))
    }

    /** The copy and move constructors
        (include/HAL/detail/JSExportClassDefinition.hpp:84-94): both copy the
        JSClassDefinition base and rebuild the tables, so the new definition
        points into its own vectors and not into those of `rhs`. */
    constructor Copy(rhs: JSExportClassDefinition)
      ensures statics == rhs.statics && Initialized()
      ensures definition == rhs.definition.(staticValues := definition.staticValues, staticFunctions := definition.staticFunctions)
    {
      statics := rhs.statics;
      definition := rhs.definition;
      staticValues := rhs.staticValues;
      staticFunctions := rhs.staticFunctions;
      new;
      InitializeNamedPropertyCallbacks();
    }

    /** Copy assignment (include/HAL/detail/JSExportClassDefinition.hpp:96-103):
        take the base of `rhs`, then rebuild the tables. */
    method Assign(rhs: JSExportClassDefinition)
      requires rhs.statics == statics
      modifies this
      ensures Initialized()
      ensures definition == old(rhs.definition).(staticValues := definition.staticValues, staticFunctions := definition.staticFunctions)
    {
      definition, staticValues, staticFunctions := rhs.definition, rhs.staticValues, rhs.staticFunctions;
      InitializeNamedPropertyCallbacks();
    }

    /** Move assignment (include/HAL/detail/JSExportClassDefinition.hpp:105-112):
        swap with `rhs`, then rebuild this definition's tables; `rhs` is left
        with this definition's former base, pointers included. */
    method MoveAssign(rhs: JSExportClassDefinition)
      requires rhs.statics == statics
      modifies this, rhs
      ensures Initialized()
      ensures definition == old(rhs.definition).(staticValues := definition.staticValues, staticFunctions := definition.staticFunctions)
      ensures rhs != this ==> rhs.definition == old(definition)
      ensures rhs != this ==> rhs.staticValues == old(staticValues) && rhs.staticFunctions == old(staticFunctions)
    {
      Swap(rhs);
      InitializeNamedPropertyCallbacks();
    }

    /** swap (include/HAL/detail/JSExportClassDefinition.hpp:114-123, the
        member and the free function): exchange the JSClassDefinition bases,
        tables included. */
    method Swap(other: JSExportClassDefinition)
      modifies this, other
      ensures definition == old(other.definition) && other.definition == old(definition)
      ensures staticValues == old(other.staticValues) && other.staticValues == old(staticValues)
      ensures staticFunctions == old(other.staticFunctions) && other.staticFunctions == old(staticFunctions)
    {
      definition, other.definition := other.definition, definition;
      staticValues, other.staticValues := other.staticValues, staticValues;
      staticFunctions, other.staticFunctions := other.staticFunctions, staticFunctions;
    }

    /** InitializeNamedPropertyCallbacks
        (include/HAL/detail/JSExportClassDefinition.hpp:125-164): clear both
        vectors and null both pointers, then, for each non-empty map, push
        one entry per name and the terminator and point the definition at
        the vector. No other field of the definition changes, and since the
        vectors are cleared first, running it again rebuilds the same tables
        up to the order of iteration. */
    method InitializeNamedPropertyCallbacks()
      modifies this`definition, this`staticValues, this`staticFunctions
      ensures Initialized()
      ensures definition == old(definition).(staticValues := definition.staticValues, staticFunctions := definition.staticFunctions)
      ensures old(Initialized()) ==> |staticValues| == |old(staticValues)| && forall e :: e in staticValues <==> e in old(staticValues)
      ensures old(Initialized()) ==> |staticFunctions| == |old(staticFunctions)| && forall e :: e in staticFunctions <==> e in old(staticFunctions)
    {
      ghost var oldValues, oldFunctions := staticValues, staticFunctions;
      ghost var wasInitialized := Initialized();
      var d := definition;
      staticValues := [];
      d := d.(staticValues := None);
      if statics.namedValues != map[] {
        staticValues := BuildNamedValueTable(statics.namedValues);
        d := d.(staticValues := Some(this));
        if wasInitialized {
          TablesAgree(staticValues, oldValues, statics.namedValues.Keys, NamedValueEntry(statics.namedValues), ValueSentinel);
        }
      }
      staticFunctions := [];
      d := d.(staticFunctions := None);
      if statics.namedFunctions != map[] {
        staticFunctions := BuildNamedFunctionTable(statics.namedFunctions);
        d := d.(staticFunctions := Some(this));
        if wasInitialized {
          TablesAgree(staticFunctions, oldFunctions, statics.namedFunctions.Keys, NamedFunctionEntry(statics.namedFunctions), FunctionSentinel);
        }
      }
      definition := d;
    }
  }

  /** The value loop of InitializeNamedPropertyCallbacks: one entry per
      name, in the order the map yields them, with the flags
      ToJSPropertyAttributes computes, then the terminator. */
  method BuildNamedValueTable(values: map<string, set<JSUtil.PropertyAttribute>>) returns (table: seq<StaticValue>)
    ensures IsTable(table, values.Keys, NamedValueEntry(values), ValueSentinel)
  {
    table := [];
    var remaining := values.Keys;
    ghost var order: seq<string> := [];
    while remaining != {}
      invariant remaining <= values.Keys
      invariant Enumerates(order, values.Keys - remaining)
      invariant table == Entries(order, NamedValueEntry(values))
      decreases |remaining|
    {
      var name :| name in remaining;
      var attributes := JSUtil.ToJSPropertyAttributes(values[name]);
      var entry := StaticValue(Some(name), GetNamedValuePropertyCallback, SetNamedValuePropertyCallback, attributes);
      EnumeratesSnoc(order, values.Keys - remaining, name);
      EntriesSnoc(order, NamedValueEntry(values), name);
      table := table + [entry];
      order := order + [name];
      assert values.Keys - remaining + {name} == values.Keys - (remaining - {name});
      remaining := remaining - {name};
    }
    assert values.Keys - remaining == values.Keys;
    table := table + [ValueSentinel];
  }

  /** The function loop of InitializeNamedPropertyCallbacks. */
  method BuildNamedFunctionTable(functions: map<string, set<JSUtil.PropertyAttribute>>) returns (table: seq<StaticFunction>)
    ensures IsTable(table, functions.Keys, NamedFunctionEntry(functions), FunctionSentinel)
  {
    table := [];
    var remaining := functions.Keys;
    ghost var order: seq<string> := [];
    while remaining != {}
      invariant remaining <= functions.Keys
      invariant Enumerates(order, functions.Keys - remaining)
      invariant table == Entries(order, NamedFunctionEntry(functions))
      decreases |remaining|
    {
      var name :| name in remaining;
      var attributes := JSUtil.ToJSPropertyAttributes(functions[name]);
      var entry := StaticFunction(Some(name), CallNamedFunctionCallback, attributes);
      EnumeratesSnoc(order, functions.Keys - remaining, name);
      EntriesSnoc(order, NamedFunctionEntry(functions), name);
      table := table + [entry];
      order := order + [name];
      assert functions.Keys - remaining + {name} == functions.Keys - (remaining - {name});
      remaining := remaining - {name};
    }
    assert functions.Keys - remaining == functions.Keys;
    table := table + [FunctionSentinel];
  }

  /** A named value table has one entry per property, once each, then the
      terminator; every entry has both trampolines and the flags of its
      property's attributes. */
  lemma NamedValueTableShape(table: seq<StaticValue>, values: map<string, set<JSUtil.PropertyAttribute>>)
    requires IsTable(table, values.Keys, NamedValueEntry(values), ValueSentinel)
    ensures |table| == |values| + 1 && table[|table| - 1] == ValueSentinel
    ensures forall i :: 0 <= i < |table| - 1 ==> table[i].name.Some? && table[i].name.value in values
    ensures forall i, j :: 0 <= i < j < |table| - 1 ==> table[i].name != table[j].name
    ensures forall n :: n in values ==> exists i :: 0 <= i < |table| - 1 && table[i].name == Some(n)
    ensures forall i :: 0 <= i < |table| - 1 ==>
              && table[i].getProperty == GetNamedValuePropertyCallback
              && table[i].setProperty == SetNamedValuePropertyCallback
              && table[i].attributes == JSUtil.Mask(values[table[i].name.value])
  {
    var entry := NamedValueEntry(values);
    TableShape(table, values.Keys, entry, ValueSentinel);
    forall i | 0 <= i < |table| - 1
      ensures table[i].name.Some? && table[i].name.value in values
      ensures table[i] == entry(table[i].name.value)
    {
      var n :| n in values.Keys && table[i] == entry(n);
    }
    forall n | n in values
      ensures exists i :: 0 <= i < |table| - 1 && table[i].name == Some(n)
    {
      assert entry(n) in table[..|table| - 1];
      var i :| 0 <= i < |table| - 1 && table[i] == entry(n);
    }
  }

  /** Read-only-ness comes from the attributes alone: every entry has a
      setter trampoline, and its ReadOnly flag is set exactly when the
      property's attributes include ReadOnly (likewise DontEnum and
      DontDelete). */
  lemma ReadOnlyFromAttributes(table: seq<StaticValue>, values: map<string, set<JSUtil.PropertyAttribute>>, i: nat, a: JSUtil.PropertyAttribute)
    requires IsTable(table, values.Keys, NamedValueEntry(values), ValueSentinel)
    requires i < |table| - 1 && a != JSUtil.None
    ensures table[i].setProperty != NoCallback
    ensures table[i].name.Some? && table[i].name.value in values
    ensures a in values[table[i].name.value] <==> table[i].attributes & JSUtil.Flag(a) != 0
  {
    NamedValueTableShape(table, values);
    JSUtil.MaskMembership(values[table[i].name.value], a);
  }

  /** A named function table has one entry per function, once each, with
      the function trampoline and the flags of its attributes, then the
      terminator. */
  lemma NamedFunctionTableShape(table: seq<StaticFunction>, functions: map<string, set<JSUtil.PropertyAttribute>>)
    requires IsTable(table, functions.Keys, NamedFunctionEntry(functions), FunctionSentinel)
    ensures |table| == |functions| + 1 && table[|table| - 1] == FunctionSentinel
    ensures forall i :: 0 <= i < |table| - 1 ==> table[i].name.Some? && table[i].name.value in functions
    ensures forall i, j :: 0 <= i < j < |table| - 1 ==> table[i].name != table[j].name
    ensures forall n :: n in functions ==> exists i :: 0 <= i < |table| - 1 && table[i].name == Some(n)
    ensures forall i :: 0 <= i < |table| - 1 ==>
              table[i].callAsFunction == CallNamedFunctionCallback && table[i].attributes == JSUtil.Mask(functions[table[i].name.value])
  {
    var entry := NamedFunctionEntry(functions);
    TableShape(table, functions.Keys, entry, FunctionSentinel);
    forall i | 0 <= i < |table| - 1
      ensures table[i].name.Some? && table[i].name.value in functions
      ensures table[i] == entry(table[i].name.value)
    {
      var n :| n in functions.Keys && table[i] == entry(n);
    }
    forall n | n in functions
      ensures exists i :: 0 <= i < |table| - 1 && table[i].name == Some(n)
    {
      assert entry(n) in table[..|table| - 1];
      var i :| 0 <= i < |table| - 1 && table[i] == entry(n);
    }
  }

  /** Two initialized definitions of the same type (a definition and its
      copy, or the same definition rebuilt) have tables of the same length
      and the same entries, each pointing into its own vectors. */
  lemma InitializedDefinitionsAgree(a: JSExportClassDefinition, b: JSExportClassDefinition)
    requires a.statics == b.statics && a.Initialized() && b.Initialized()
    ensures |a.staticValues| == |b.staticValues| && forall e :: e in a.staticValues <==> e in b.staticValues
    ensures |a.staticFunctions| == |b.staticFunctions| && forall e :: e in a.staticFunctions <==> e in b.staticFunctions
    ensures a.definition.staticValues.Some? ==> a.definition.staticValues == Some(a)
    ensures a.definition.staticValues.None? <==> b.definition.staticValues.None?
    ensures a.definition.staticFunctions.None? <==> b.definition.staticFunctions.None?
  {
    var s := a.statics;
    if s.namedValues != map[] {
      TablesAgree(a.staticValues, b.staticValues, s.namedValues.Keys, NamedValueEntry(s.namedValues), ValueSentinel);
    }
    if s.namedFunctions != map[] {
      TablesAgree(a.staticFunctions, b.staticFunctions, s.namedFunctions.Keys, NamedFunctionEntry(s.namedFunctions), FunctionSentinel);
    }
  }
}
