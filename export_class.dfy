/** JSExportClass<T> (include/HAL/JSClass.hpp:68-296): the JSClass of an
    exported C++ type T together with the per-type registry of its named
    properties, functions and property traps, and the builder that turns the
    registry into the static value and function tables of the class
    definition. The registry is static in T; since JSExport<T> holds the one
    JSExportClass<T> of each type, the model keeps both in one object. */
module ExportClasses {
  import opened Common
  import opened Classes
  import opened StaticTables

  /** A std::function callback: empty, or some function. */
  datatype Callback = EmptyCallback | Function(id: nat)

  /** The entry InitializePropertyCallbacks writes for a getter name: the
      getter trampoline, the setter trampoline only for a name in the setter
      map, and no attributes. */
  function ValueEntry(setters: set<string>): string -> StaticValue
  {
    name => StaticValue(Some(name), CallGetterFunction,
                        if name in setters then CallSetterFunction else NoCallback, 0)
  }

  /** The entry written for a function name. */
  function FunctionEntry(): string -> StaticFunction
  {
    name => StaticFunction(Some(name), CallNamedFunction, 0)
  }

  class JSExportClass {
    /** The JSClass this class derives from. */
    const base: JSClass
    /** name_to_function_map__, name_to_getter_map__, name_to_setter_map__
        and name_to_constant_map__ (include/HAL/JSClass.hpp:117-120). */
    var functions: map<string, Callback>
    var getters: map<string, Callback>
    var setters: map<string, Callback>
    var constants: map<string, Handle>
    /** has_property_callback__, get_property_callback__ and
        set_property_callback__ (include/HAL/JSClass.hpp:122-124). */
    var hasPropertyCallback: Callback
    var getPropertyCallback: Callback
    var setPropertyCallback: Callback

    /** Every setter and every constant belongs to a getter name. */
    ghost predicate Valid()
      reads this
    {
      setters.Keys <= getters.Keys && constants.Keys <= getters.Keys
    }

    /** No name is both a constant and a value property with a setter. */
    ghost predicate ConstantsReadOnly()
      reads this
    {
      constants.Keys !! setters.Keys
    }

    /** JSExportClass() (include/HAL/JSClass.hpp:128-131): the JSClass
        default constructor; the registry starts empty, as static maps and
        callbacks do. */
    constructor (classes: Pool<ClassDefinition>)
      requires classes.Valid()
      modifies classes
      ensures classes.Valid() && fresh(base)
      ensures base.ref !in old(classes.contents) && classes.contents == old(classes.contents)[base.ref := EmptyDefinition]
      ensures base.definition == EmptyDefinition && base.staticValues == [] && base.staticFunctions == []
      ensures functions == map[] && getters == map[] && setters == map[] && constants == map[]
      ensures hasPropertyCallback == EmptyCallback && getPropertyCallback == EmptyCallback && setPropertyCallback == EmptyCallback
      ensures Valid() && ConstantsReadOnly()
    {
      base := new JSClass(classes);
      functions, getters, setters, constants := map[], map[], map[], map[];
      hasPropertyCallback, getPropertyCallback, setPropertyCallback := EmptyCallback, EmptyCallback, EmptyCallback;
    }

    /** AddFunctionProperty (include/HAL/JSClass.hpp:159-165): asserts the
        name is new (`asserted` is the asserted condition); emplace never
        replaces, so a second registration keeps the first callback. */
    method AddFunctionProperty(name: string, callback: Callback) returns (asserted: bool)
      modifies this`functions
      ensures asserted <==> name !in old(functions)
      ensures functions == if name in old(functions) then old(functions) else old(functions)[name := callback]
    {
      asserted := name !in functions;
      if name !in functions {
        functions := functions[name := callback];
      }
    }

    /** AddValueProperty (include/HAL/JSClass.hpp:167-181): the name goes
        into both the getter and the setter map, even with an empty setter,
        each insertion asserted new and never replacing. */
    method AddValueProperty(name: string, getter: Callback, setter: Callback) returns (asserted: bool)
      requires Valid()
      modifies this`getters, this`setters
      ensures Valid()
      ensures asserted <==> name !in old(getters) && name !in old(setters)
      ensures getters == if name in old(getters) then old(getters) else old(getters)[name := getter]
      ensures setters == if name in old(setters) then old(setters) else old(setters)[name := setter]
      ensures name in getters && name in setters
      ensures asserted && old(ConstantsReadOnly()) ==> ConstantsReadOnly()
    {
      asserted := name !in getters;
      if name !in getters {
        getters := getters[name := getter];
      }
      asserted := asserted && name !in setters;
      if name !in setters {
        setters := setters[name := setter];
      }
    }

    /** AddConstantProperty (include/HAL/JSClass.hpp:183-190): a getter and
        an empty constant slot, no setter. It asserts against the same getter
        map as AddValueProperty, so a name cannot be both. */
    method AddConstantProperty(name: string, getter: Callback) returns (asserted: bool)
      requires Valid()
      modifies this`getters, this`constants
      ensures Valid()
      ensures asserted <==> name !in old(getters)
      ensures getters == if name in old(getters) then old(getters) else old(getters)[name := getter]
      ensures constants == if name in old(constants) then old(constants) else old(constants)[name := Null]
      ensures name in getters && name in constants && setters == old(setters)
      ensures asserted && old(ConstantsReadOnly()) ==> ConstantsReadOnly()
    {
      asserted := name !in getters;
      if name !in getters {
        getters := getters[name := getter];
      }
      if name !in constants {
        constants := constants[name := Null];
      }
    }

    /** AddHasPropertyCallback (include/HAL/JSClass.hpp:192-196): asserts no
        trap is set yet, then sets this one. */
    method AddHasPropertyCallback(callback: Callback) returns (asserted: bool)
      modifies this`hasPropertyCallback
      ensures asserted <==> old(hasPropertyCallback) == EmptyCallback
      ensures hasPropertyCallback == callback
    {
      asserted := hasPropertyCallback == EmptyCallback;
      hasPropertyCallback := callback;
    }

    /** AddGetPropertyCallback (include/HAL/JSClass.hpp:198-202). */
    method AddGetPropertyCallback(callback: Callback) returns (asserted: bool)
      modifies this`getPropertyCallback
      ensures asserted <==> old(getPropertyCallback) == EmptyCallback
      ensures getPropertyCallback == callback
    {
      asserted := getPropertyCallback == EmptyCallback;
      getPropertyCallback := callback;
    }

    /** AddSetPropertyCallback (include/HAL/JSClass.hpp:204-208). */
    method AddSetPropertyCallback(callback: Callback) returns (asserted: bool)
      modifies this`setPropertyCallback
      ensures asserted <==> old(setPropertyCallback) == EmptyCallback
      ensures setPropertyCallback == callback
    {
      asserted := setPropertyCallback == EmptyCallback;
      setPropertyCallback := callback;
    }

    /** InitializePropertyCallbacks (include/HAL/JSClass.hpp:247-296). With
        getters registered, the static value vector is cleared and refilled
        with one entry per getter name and the terminator, and the
        definition points into it; with none, the pointer is null and the
        vector is left as it was. Functions likewise. Each registered trap
        puts its trampoline into the definition; no other field changes. */
    method InitializePropertyCallbacks()
      modifies base`definition, base`staticValues, base`staticFunctions
      ensures getters == map[] ==> base.staticValues == old(base.staticValues)
      ensures getters != map[] ==> IsTable(base.staticValues, getters.Keys, ValueEntry(setters.Keys), ValueSentinel)
      ensures functions == map[] ==> base.staticFunctions == old(base.staticFunctions)
      ensures functions != map[] ==> IsTable(base.staticFunctions, functions.Keys, FunctionEntry(), FunctionSentinel)
      ensures base.definition == old(base.definition).(
                staticValues := if getters == map[] then None else Some(base),
                staticFunctions := if functions == map[] then None else Some(base),
                hasProperty := if hasPropertyCallback != EmptyCallback then CallHasPropertyCallback else old(base.definition.hasProperty),
                getProperty := if getPropertyCallback != EmptyCallback then CallGetPropertyCallback else old(base.definition.getProperty),
                setProperty := if setPropertyCallback != EmptyCallback then CallSetPropertyCallback else old(base.definition.setProperty))
    {
      var definition := base.definition.(staticValues := None);
      if getters != map[] {
        var table := BuildValueTable(getters.Keys, setters.Keys);
        base.staticValues := table;
        definition := definition.(staticValues := Some(base));
      }
      definition := definition.(staticFunctions := None);
      if functions != map[] {
        var table := BuildFunctionTable(functions.Keys);
        base.staticFunctions := table;
        definition := definition.(staticFunctions := Some(base));
      }
      if hasPropertyCallback != EmptyCallback {
        definition := definition.(hasProperty := CallHasPropertyCallback);
      }
      if getPropertyCallback != EmptyCallback {
        definition := definition.(getProperty := CallGetPropertyCallback);
      }
      if setPropertyCallback != EmptyCallback {
        definition := definition.(setProperty := CallSetPropertyCallback);
      }
      base.definition := definition;
    }
  }

  /** The getter loop of InitializePropertyCallbacks: clear the vector, push
      one entry per getter name in the order the map yields them, then the
      terminator. */
  method BuildValueTable(getterNames: set<string>, setterNames: set<string>) returns (table: seq<StaticValue>)
    ensures IsTable(table, getterNames, ValueEntry(setterNames), ValueSentinel)
  {
    table := [];
    var remaining := getterNames;
    ghost var order: seq<string> := [];
    while remaining != {}
      invariant remaining <= getterNames
      invariant Enumerates(order, getterNames - remaining)
      invariant table == Entries(order, ValueEntry(setterNames))
      decreases |remaining|
    {
      var name :| name in remaining;
      EnumeratesSnoc(order, getterNames - remaining, name);
      EntriesSnoc(order, ValueEntry(setterNames), name);
      table := table + [ValueEntry(setterNames)(name)];
      order := order + [name];
      assert getterNames - remaining + {name} == getterNames - (remaining - {name});
      remaining := remaining - {name};
    }
    assert getterNames - remaining == getterNames;
    table := table + [ValueSentinel];
  }

  /** The function loop of InitializePropertyCallbacks. */
  method BuildFunctionTable(functionNames: set<string>) returns (table: seq<StaticFunction>)
    ensures IsTable(table, functionNames, FunctionEntry(), FunctionSentinel)
  {
    table := [];
    var remaining := functionNames;
    ghost var order: seq<string> := [];
    while remaining != {}
      invariant remaining <= functionNames
      invariant Enumerates(order, functionNames - remaining)
      invariant table == Entries(order, FunctionEntry())
      decreases |remaining|
    {
      var name :| name in remaining;
      EnumeratesSnoc(order, functionNames - remaining, name);
      EntriesSnoc(order, FunctionEntry(), name);
      table := table + [FunctionEntry()(name)];
      order := order + [name];
      assert functionNames - remaining + {name} == functionNames - (remaining - {name});
      remaining := remaining - {name};
    }
    assert functionNames - remaining == functionNames;
    table := table + [FunctionSentinel];
  }

  /** A built value table has one entry per getter name, once each, then the
      terminator; an entry has the setter trampoline exactly when its name
      is in the setter map. */
  lemma ValueTableShape(table: seq<StaticValue>, getterNames: set<string>, setterNames: set<string>)
    requires IsTable(table, getterNames, ValueEntry(setterNames), ValueSentinel)
    ensures |table| == |getterNames| + 1 && table[|table| - 1] == ValueSentinel
    ensures forall i :: 0 <= i < |table| - 1 ==> table[i].name.Some? && table[i].name.value in getterNames
    ensures forall i, j :: 0 <= i < j < |table| - 1 ==> table[i].name != table[j].name
    ensures forall n :: n in getterNames ==> exists i :: 0 <= i < |table| - 1 && table[i].name == Some(n)
    ensures forall i :: 0 <= i < |table| - 1 ==>
              table[i].getProperty == CallGetterFunction
              && (table[i].setProperty == CallSetterFunction <==> table[i].name.value in setterNames)
  {
    var entry := ValueEntry(setterNames);
    TableShape(table, getterNames, entry, ValueSentinel);
    forall i | 0 <= i < |table| - 1
      ensures table[i].name.Some? && table[i].name.value in getterNames
      ensures table[i] == entry(table[i].name.value)
    {
      var n :| n in getterNames && table[i] == entry(n);
    }
    forall n | n in getterNames
      ensures exists i :: 0 <= i < |table| - 1 && table[i].name == Some(n)
    {
      assert entry(n) in table[..|table| - 1];
      var i :| 0 <= i < |table| - 1 && table[i] == entry(n);
    }
  }

  /** With constants and setters disjoint, every constant's entry has no
      setter: constants are read-only. */
  lemma ConstantEntriesReadOnly(c: JSExportClass, table: seq<StaticValue>, i: nat)
    requires c.Valid() && c.ConstantsReadOnly()
    requires IsTable(table, c.getters.Keys, ValueEntry(c.setters.Keys), ValueSentinel)
    requires i < |table| - 1 && table[i].name.Some? && table[i].name.value in c.constants
    ensures table[i].setProperty == NoCallback
  {
    ValueTableShape(table, c.getters.Keys, c.setters.Keys);
  }

  /** A built function table has one entry per function name, once each,
      each with the function trampoline, then the terminator. */
  lemma FunctionTableShape(table: seq<StaticFunction>, functionNames: set<string>)
    requires IsTable(table, functionNames, FunctionEntry(), FunctionSentinel)
    ensures |table| == |functionNames| + 1 && table[|table| - 1] == FunctionSentinel
    ensures forall i :: 0 <= i < |table| - 1 ==>
              table[i].name.Some? && table[i].name.value in functionNames && table[i].callAsFunction == CallNamedFunction
    ensures forall i, j :: 0 <= i < j < |table| - 1 ==> table[i].name != table[j].name
    ensures forall n :: n in functionNames ==> exists i :: 0 <= i < |table| - 1 && table[i].name == Some(n)
  {
    var entry := FunctionEntry();
    TableShape(table, functionNames, entry, FunctionSentinel);
    forall i | 0 <= i < |table| - 1
      ensures table[i].name.Some? && table[i].name.value in functionNames
      ensures table[i] == entry(table[i].name.value)
    {
      var n :| n in functionNames && table[i] == entry(n);
    }
    forall n | n in functionNames
      ensures exists i :: 0 <= i < |table| - 1 && table[i].name == Some(n)
    {
      assert entry(n) in table[..|table| - 1];
      var i :| 0 <= i < |table| - 1 && table[i] == entry(n);
    }
  }
}
