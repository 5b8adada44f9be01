/** JSClass (src/JSClass.cpp, include/HAL/JSClass.hpp:27-66): a facade
    around an engine class handle, together with the class definition it was
    described by and the static value and function tables that definition
    points into. */
module Classes {
  import opened Common
  import opened Lifetime

  /** The C callbacks a class definition slot or a static table entry can
      hold. The named ones are the binding layer's own trampolines;
      `Native(id)` is any other function pointer. */
  datatype CallbackRef =
    | NoCallback
    | CallGetterFunction
    | CallSetterFunction
    | CallNamedFunction
    | CallHasPropertyCallback
    | CallGetPropertyCallback
    | CallSetPropertyCallback
    | GetNamedValuePropertyCallback
    | SetNamedValuePropertyCallback
    | CallNamedFunctionCallback
    | Native(id: nat)

  /** One JSStaticValue: a name (null in the terminating entry), getter and
      setter slots and the attribute flags. */
  datatype StaticValue = StaticValue(name: Option<string>, getProperty: CallbackRef, setProperty: CallbackRef, attributes: bv32)

  /** One JSStaticFunction. */
  datatype StaticFunction = StaticFunction(name: Option<string>, callAsFunction: CallbackRef, attributes: bv32)

  const ValueSentinel: StaticValue := StaticValue(None, NoCallback, NoCallback, 0)
  const FunctionSentinel: StaticFunction := StaticFunction(None, NoCallback, 0)

  /** The engine's JSClassDefinition: seventeen fields (the int `version`
      kept as its 32-bit word). `staticValues` and
      `staticFunctions` are pointers to the first entry of some object's
      table (None for the null pointer); the object they name is the one
      whose vector they point into. */
  datatype ClassDefinition = ClassDefinition(
    version: bv32,
    attributes: bv32,
    className: Option<string>,
    parentClass: Handle,
    initialize: CallbackRef,
    finalize: CallbackRef,
    hasProperty: CallbackRef,
    getProperty: CallbackRef,
    setProperty: CallbackRef,
    deleteProperty: CallbackRef,
    getPropertyNames: CallbackRef,
    callAsFunction: CallbackRef,
    callAsConstructor: CallbackRef,
    hasInstance: CallbackRef,
    convertToType: CallbackRef,
    staticValues: Option<object>,
    staticFunctions: Option<object>)

  /** kJSClassDefinitionEmpty: every field zero or null. */
  const EmptyDefinition: ClassDefinition :=
    ClassDefinition(0, 0, None, Null, NoCallback, NoCallback, NoCallback, NoCallback, NoCallback,
                    NoCallback, NoCallback, NoCallback, NoCallback, NoCallback, NoCallback, None, None)

  class JSClass {
    /** js_class_ref__. */
    var ref: Handle
    /** js_class_definition__. */
    var definition: ClassDefinition
    /** static_values__ and static_functions__. */
    var staticValues: seq<StaticValue>
    var staticFunctions: seq<StaticFunction>

    /** JSClass() (src/JSClass.cpp:13-16): a new engine class made from the
        empty definition, holding the one reference creation gives it. */
    constructor (classes: Pool<ClassDefinition>)
      requires classes.Valid()
      modifies classes
      ensures classes.Valid()
      ensures ref !in old(classes.contents)
      ensures classes.contents == old(classes.contents)[ref := EmptyDefinition]
      ensures definition == EmptyDefinition && staticValues == [] && staticFunctions == []
      ensures Moves(old(classes.counts), classes.counts, EventSteps(RetainWithoutSwap, Construct(ref)))
    {
      var h := classes.Create(EmptyDefinition);
      ref := h;
      definition := EmptyDefinition;
      staticValues := [];
      staticFunctions := [];
      new;
      Retained(old(classes.counts), classes.counts, ref);
    }

    /** The copy and move constructors (src/JSClass.cpp:21-34): the same
        class handle, retained once, copies of the tables, and the definition
        copied field by field, so its table pointers still point into the
        source's tables. */
    constructor Copy(classes: Pool<ClassDefinition>, rhs: JSClass)
      requires classes.Valid() && rhs.ref in classes.contents
      modifies classes
      ensures classes.Valid() && classes.contents == old(classes.contents)
      ensures ref == rhs.ref && definition == rhs.definition
      ensures staticValues == rhs.staticValues && staticFunctions == rhs.staticFunctions
      ensures Moves(old(classes.counts), classes.counts, EventSteps(RetainWithoutSwap, CopyOf(rhs.ref)))
    {
      ref := rhs.ref;
      staticValues := rhs.staticValues;
      staticFunctions := rhs.staticFunctions;
      definition := EmptyDefinition;
      new;
      CopyDefinition(rhs.definition);
      classes.Retain(ref);
      Retained(old(classes.counts), classes.counts, ref);
    }

    /** The destructor (src/JSClass.cpp:17-20). */
    method Destroy(classes: Pool<ClassDefinition>)
      requires classes.Valid() && ref in classes.contents
      modifies classes
      ensures classes.Valid() && classes.contents == old(classes.contents)
      ensures Moves(old(classes.counts), classes.counts, EventSteps(RetainWithoutSwap, Lifetime.Destroy(ref)))
    {
      classes.Release(ref);
      Released(old(classes.counts), classes.counts, ref);
    }

    /** Copy (src/JSClass.cpp:45-65): assign the seventeen fields one by
        one. */
    method CopyDefinition(other: ClassDefinition)
      modifies this`definition
      ensures definition == other
    {
      definition := definition.(version := other.version);
      definition := definition.(attributes := other.attributes);
      definition := definition.(className := other.className);
      definition := definition.(parentClass := other.parentClass);
      definition := definition.(initialize := other.initialize);
      definition := definition.(finalize := other.finalize);
      definition := definition.(hasProperty := other.hasProperty);
      definition := definition.(getProperty := other.getProperty);
      definition := definition.(setProperty := other.setProperty);
      definition := definition.(deleteProperty := other.deleteProperty);
      definition := definition.(getPropertyNames := other.getPropertyNames);
      definition := definition.(callAsFunction := other.callAsFunction);
      definition := definition.(callAsConstructor := other.callAsConstructor);
      definition := definition.(hasInstance := other.hasInstance);
      definition := definition.(convertToType := other.convertToType);
      definition := definition.(staticValues := other.staticValues);
      definition := definition.(staticFunctions := other.staticFunctions);
    }

    /** operator= (src/JSClass.cpp:36-43) as written: the by-value parameter
        retains the incoming handle, its definition and tables are copied,
        the incoming handle is retained again and the parameter's destructor
        releases it once; the outgoing handle is never released. */
    method Assign(classes: Pool<ClassDefinition>, rhs: JSClass)
      requires classes.Valid() && ref in classes.contents && rhs.ref in classes.contents
      modifies this, classes
      ensures classes.Valid() && classes.contents == old(classes.contents)
      ensures ref == old(rhs.ref) && definition == old(rhs.definition)
      ensures staticValues == old(rhs.staticValues) && staticFunctions == old(rhs.staticFunctions)
      ensures Moves(old(classes.counts), classes.counts, AssignSteps(RetainWithoutSwap, old(ref), old(rhs.ref)))
    {
      var c0 := classes.counts;
      var parameter := new JSClass.Copy(classes, rhs);
      var c1 := classes.counts;
      CopyDefinition(parameter.definition);
      staticValues := parameter.staticValues;
      staticFunctions := parameter.staticFunctions;
      ref := parameter.ref;
      classes.Retain(ref);
      var c2 := classes.counts;
      Retained(c1, c2, ref);
      parameter.Destroy(classes);
      MovesThen(c0, c1, c2, [Acquire(old(rhs.ref))], [Acquire(old(rhs.ref))]);
      MovesThen(c0, c2, classes.counts, [Acquire(old(rhs.ref)), Acquire(old(rhs.ref))], [Drop(old(rhs.ref))]);
    }

    /** Copy-and-swap assignment, the balanced form of operator=: the
        parameter's retain moves to this facade and the outgoing handle is
        released by the parameter's destructor. */
    method AssignBalanced(classes: Pool<ClassDefinition>, rhs: JSClass)
      requires classes.Valid() && ref in classes.contents && rhs.ref in classes.contents
      modifies this, classes
      ensures classes.Valid() && classes.contents == old(classes.contents)
      ensures ref == old(rhs.ref) && definition == old(rhs.definition)
      ensures staticValues == old(rhs.staticValues) && staticFunctions == old(rhs.staticFunctions)
      ensures Moves(old(classes.counts), classes.counts, AssignSteps(CopyAndSwap, old(ref), old(rhs.ref)))
    {
      var c0 := classes.counts;
      var parameter := new JSClass.Copy(classes, rhs);
      var c1 := classes.counts;
      ref, parameter.ref := parameter.ref, ref;
      definition, parameter.definition := parameter.definition, definition;
      staticValues, parameter.staticValues := parameter.staticValues, staticValues;
      staticFunctions, parameter.staticFunctions := parameter.staticFunctions, staticFunctions;
      parameter.Destroy(classes);
      MovesThen(c0, c1, classes.counts, [Acquire(old(rhs.ref))], [Drop(old(ref))]);
    }

    /** SetParent (include/HAL/JSClass.hpp:42-44): only parentClass
        changes. */
    method SetParent(parent: JSClass)
      modifies this`definition
      ensures definition == old(definition).(parentClass := parent.ref)
    {
      definition := definition.(parentClass := parent.ref);
    }

    /** SetClassVersion (include/HAL/JSClass.hpp:46-48): only version
        changes. */
    method SetClassVersion(version: bv32)
      modifies this`definition
      ensures definition == old(definition).(version := version)
    {
      definition := definition.(version := version);
    }
  }
}
