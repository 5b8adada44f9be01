/** JSExport<T> (include/HAL/JSExport.hpp): the per-type static
    JSExportClass<T> js_class__, the static forwarders that register
    properties on it, and Class(), which runs the type's registration and
    builds the tables exactly once. */
module Exports {
  import opened Common
  import opened Lifetime
  import opened Classes
  import opened StaticTables
  import opened ExportClasses

  /** One call T::JSExportInitialize makes. */
  datatype Registration =
    | AddFunction(name: string, callback: Callback)
    | AddValue(name: string, getter: Callback, setter: Callback, enumerable: bool)
    | AddConstant(name: string, getter: Callback)
    | AddHasProperty(callback: Callback)
    | AddGetProperty(callback: Callback)
    | AddSetProperty(callback: Callback)
    | SetParentClass(parent: JSClass)
    | SetVersion(version: bv32)

  /** After `r`, the registry holds the name it registered. */
  ghost predicate Registered(c: JSExportClass, r: Registration)
    reads c
  {
    match r
    case AddFunction(name, _) => name in c.functions
    case AddValue(name, _, _, _) => name in c.getters && name in c.setters
    case AddConstant(name, _) => name in c.getters && name in c.constants
    case _ => true
  }

  /** The registry has only grown from the key sets given. */
  ghost predicate Grown(c: JSExportClass, functions: set<string>, getters: set<string>, setters: set<string>, constants: set<string>)
    reads c
  {
    functions <= c.functions.Keys && getters <= c.getters.Keys && setters <= c.setters.Keys && constants <= c.constants.Keys
  }

  /** The definition and tables of the class are those
      InitializePropertyCallbacks builds from the registry. */
  ghost predicate Built(c: JSExportClass)
    reads c, c.base
  {
    && c.base.definition.staticValues == (if c.getters == map[] then None else Some(c.base))
    && (c.getters != map[] ==> IsTable(c.base.staticValues, c.getters.Keys, ValueEntry(c.setters.Keys), ValueSentinel))
    && c.base.definition.staticFunctions == (if c.functions == map[] then None else Some(c.base))
    && (c.functions != map[] ==> IsTable(c.base.staticFunctions, c.functions.Keys, FunctionEntry(), FunctionSentinel))
    && (c.hasPropertyCallback != EmptyCallback ==> c.base.definition.hasProperty == CallHasPropertyCallback)
    && (c.getPropertyCallback != EmptyCallback ==> c.base.definition.getProperty == CallGetPropertyCallback)
    && (c.setPropertyCallback != EmptyCallback ==> c.base.definition.setProperty == CallSetPropertyCallback)
  }

  class JSExport {
    /** js_class__ (include/HAL/JSExport.hpp:28, 39-40). */
    const jsClass: JSExportClass
    /** Whether the once_flag of Class() has fired. */
    var initialized: bool

    /** The static initialization of js_class__ and of the once_flag. */
    constructor (classes: Pool<ClassDefinition>)
      requires classes.Valid()
      modifies classes
      ensures classes.Valid() && fresh(jsClass) && fresh(jsClass.base) && !initialized
      ensures jsClass.Valid() && jsClass.ConstantsReadOnly()
      ensures jsClass.base.ref in classes.contents
    {
      jsClass := new JSExportClass(classes);
      initialized := false;
    }

    /** AddFunctionProperty (include/HAL/JSExport.hpp:42-45): forwards to
        js_class__. */
    method AddFunctionProperty(name: string, callback: Callback) returns (asserted: bool)
      modifies jsClass`functions
      ensures asserted <==> name !in old(jsClass.functions)
      ensures jsClass.functions == if name in old(jsClass.functions) then old(jsClass.functions) else old(jsClass.functions)[name := callback]
    {
      asserted := jsClass.AddFunctionProperty(name, callback);
    }

    /** AddValueProperty (include/HAL/JSExport.hpp:30, 47-50): the setter
        defaults to empty and `enumerable` to true; `enumerable` is not
        passed on, since JSExportClass<T>::AddValueProperty takes no such
        parameter. */
    method AddValueProperty(name: string, getter: Callback, setter: Callback := EmptyCallback, enumerable: bool := true)
        returns (asserted: bool)
      requires jsClass.Valid()
      modifies jsClass`getters, jsClass`setters
      ensures jsClass.Valid()
      ensures asserted <==> name !in old(jsClass.getters) && name !in old(jsClass.setters)
      ensures jsClass.getters == if name in old(jsClass.getters) then old(jsClass.getters) else old(jsClass.getters)[name := getter]
      ensures jsClass.setters == if name in old(jsClass.setters) then old(jsClass.setters) else old(jsClass.setters)[name := setter]
    {
      asserted := jsClass.AddValueProperty(name, getter, setter);
    }

    /** AddConstantProperty (include/HAL/JSExport.hpp:52-55). */
    method AddConstantProperty(name: string, getter: Callback) returns (asserted: bool)
      requires jsClass.Valid()
      modifies jsClass`getters, jsClass`constants
      ensures jsClass.Valid()
      ensures asserted <==> name !in old(jsClass.getters)
      ensures jsClass.getters == if name in old(jsClass.getters) then old(jsClass.getters) else old(jsClass.getters)[name := getter]
      ensures jsClass.constants == if name in old(jsClass.constants) then old(jsClass.constants) else old(jsClass.constants)[name := Null]
    {
      asserted := jsClass.AddConstantProperty(name, getter);
    }

    /** AddHasPropertyCallback (include/HAL/JSExport.hpp:57-60). */
    method AddHasPropertyCallback(callback: Callback) returns (asserted: bool)
      modifies jsClass`hasPropertyCallback
      ensures asserted <==> old(jsClass.hasPropertyCallback) == EmptyCallback
      ensures jsClass.hasPropertyCallback == callback
    {
      asserted := jsClass.AddHasPropertyCallback(callback);
    }

    /** AddGetPropertyCallback (include/HAL/JSExport.hpp:62-65). */
    method AddGetPropertyCallback(callback: Callback) returns (asserted: bool)
      modifies jsClass`getPropertyCallback
      ensures asserted <==> old(jsClass.getPropertyCallback) == EmptyCallback
      ensures jsClass.getPropertyCallback == callback
    {
      asserted := jsClass.AddGetPropertyCallback(callback);
    }

    /** AddSetPropertyCallback (include/HAL/JSExport.hpp:67-70). */
    method AddSetPropertyCallback(callback: Callback) returns (asserted: bool)
      modifies jsClass`setPropertyCallback
      ensures asserted <==> old(jsClass.setPropertyCallback) == EmptyCallback
      ensures jsClass.setPropertyCallback == callback
    {
      asserted := jsClass.AddSetPropertyCallback(callback);
    }

    /** SetParent (include/HAL/JSExport.hpp:82-85). */
    method SetParent(parent: JSClass)
      modifies jsClass.base`definition
      ensures jsClass.base.definition == old(jsClass.base.definition).(parentClass := parent.ref)
    {
      jsClass.base.SetParent(parent);
    }

    /** SetClassVersion (include/HAL/JSExport.hpp:87-90). */
    method SetClassVersion(version: bv32)
      modifies jsClass.base`definition
      ensures jsClass.base.definition == old(jsClass.base.definition).(version := version)
    {
      jsClass.base.SetClassVersion(version);
    }

    /** T::JSExportInitialize: the registrations the exported type makes,
        in order, each through its forwarder. Every name registered ends up
        in the registry, which only grows. */
    method RunRegistrations(registrations: seq<Registration>)
      requires jsClass.Valid()
      modifies jsClass, jsClass.base`definition
      ensures jsClass.Valid()
      ensures Grown(jsClass, old(jsClass.functions.Keys), old(jsClass.getters.Keys), old(jsClass.setters.Keys), old(jsClass.constants.Keys))
      ensures forall i :: 0 <= i < |registrations| ==> Registered(jsClass, registrations[i])
    {
      ghost var f0, g0, s0, c0 := jsClass.functions.Keys, jsClass.getters.Keys, jsClass.setters.Keys, jsClass.constants.Keys;
      var k := 0;
      while k < |registrations|
        invariant 0 <= k <= |registrations|
        invariant jsClass.Valid()
        invariant Grown(jsClass, f0, g0, s0, c0)
        invariant forall i :: 0 <= i < k ==> Registered(jsClass, registrations[i])
      {
        ghost var f1, g1, s1, c1 := jsClass.functions.Keys, jsClass.getters.Keys, jsClass.setters.Keys, jsClass.constants.Keys;
        var _ := Register(registrations[k]);
        assert Grown(jsClass, f1, g1, s1, c1);
        forall i | 0 <= i < k + 1
          ensures Registered(jsClass, registrations[i])
        {
          if i < k {
            RegisteredGrows(jsClass, registrations[i], f1, g1, s1, c1);
          }
        }
        k := k + 1;
      }
    }

    /** One registration, through its forwarder. */
    method Register(r: Registration) returns (asserted: bool)
      requires jsClass.Valid()
      modifies jsClass, jsClass.base`definition
      ensures jsClass.Valid() && Registered(jsClass, r)
      ensures Grown(jsClass, old(jsClass.functions.Keys), old(jsClass.getters.Keys), old(jsClass.setters.Keys), old(jsClass.constants.Keys))
    {
      match r
      case AddFunction(name, callback) => asserted := AddFunctionProperty(name, callback);
      case AddValue(name, getter, setter, enumerable) => asserted := AddValueProperty(name, getter, setter, enumerable);
      case AddConstant(name, getter) => asserted := AddConstantProperty(name, getter);
      case AddHasProperty(callback) => asserted := AddHasPropertyCallback(callback);
      case AddGetProperty(callback) => asserted := AddGetPropertyCallback(callback);
      case AddSetProperty(callback) => asserted := AddSetPropertyCallback(callback);
      case SetParentClass(parent) => SetParent(parent); asserted := true;
      case SetVersion(version) => SetClassVersion(version); asserted := true;
    }

    /** Class() (include/HAL/JSExport.hpp:72-80). The first call runs the
        type's registrations and then InitializePropertyCallbacks; later calls
        run neither, so the class and its tables stay exactly as they were,
        whatever was registered in between. Every call returns a copy of
        js_class__, which retains the class handle once and whose definition
        still points into js_class__'s own tables. */
    method Class(classes: Pool<ClassDefinition>, initialize: seq<Registration>) returns (copy: JSClass)
      requires classes.Valid() && jsClass.base.ref in classes.contents && jsClass.Valid()
      modifies this`initialized, jsClass, jsClass.base`definition, jsClass.base`staticValues, jsClass.base`staticFunctions, classes
      ensures initialized && jsClass.Valid()
      ensures old(initialized) ==> unchanged(jsClass) && unchanged(jsClass.base)
      ensures !old(initialized) ==> Built(jsClass)
      ensures !old(initialized) ==> forall i :: 0 <= i < |initialize| ==> Registered(jsClass, initialize[i])
      ensures fresh(copy) && copy.ref == jsClass.base.ref && copy.definition == jsClass.base.definition
      ensures copy.staticValues == jsClass.base.staticValues && copy.staticFunctions == jsClass.base.staticFunctions
      ensures classes.Valid() && classes.contents == old(classes.contents)
      ensures Moves(old(classes.counts), classes.counts, EventSteps(RetainWithoutSwap, CopyOf(jsClass.base.ref)))
    {
      if !initialized {
        RunRegistrations(initialize);
        jsClass.InitializePropertyCallbacks();
        initialized := true;
      }
      copy := new JSClass.Copy(classes, jsClass.base);
    }
  }

  /** A registration stays registered while the registry grows. */
  lemma RegisteredGrows(c: JSExportClass, r: Registration, functions: set<string>, getters: set<string>, setters: set<string>, constants: set<string>)
    requires Grown(c, functions, getters, setters, constants)
    requires match r
             case AddFunction(name, _) => name in functions
             case AddValue(name, _, _, _) => name in getters && name in setters
             case AddConstant(name, _) => name in getters && name in constants
             case _ => true
    ensures Registered(c, r)
  {
  }
}
