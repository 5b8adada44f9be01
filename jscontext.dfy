/** JSContext (src/JSContext.cpp): a context handle with value semantics, the
    process-wide global context handle it sets once, the script text it
    hands to the engine, and the loops that fill new objects and arrays. */
module Contexts {
  import opened Common
  import opened Retain
  import opened Engine
  import Values
  import Objects
  import Arrays
  import Classes

  const ScriptPrefix: string := "(function() {\n {\n"
  const ScriptSuffix: string := "\n}\n return this; })"

  /** The script JSEvaluateScript(content, this_object, source_url)
      (src/JSContext.cpp:189-195) parses: empty content stays empty,
      anything else becomes the body of a function that returns `this`. */
  function WrapScript(content: string): (script: string)
    ensures content == "" <==> script == ""
    ensures content != "" ==> |script| == |ScriptPrefix| + |content| + |ScriptSuffix|
    ensures content != "" ==> script[..|ScriptPrefix|] == ScriptPrefix
    ensures content != "" ==> script[|ScriptPrefix|..|script| - |ScriptSuffix|] == content
    ensures content != "" ==> script[|script| - |ScriptSuffix|..] == ScriptSuffix
  {
    if content == "" then "" else ScriptPrefix + content + ScriptSuffix
  }

  /** The content a wrapped script carries, if it has the wrapper's shape. */
  function UnwrapScript(script: string): Option<string>
  {
    if script == "" then Some("")
    else if |script| >= |ScriptPrefix| + |ScriptSuffix|
            && script[..|ScriptPrefix|] == ScriptPrefix
            && script[|script| - |ScriptSuffix|..] == ScriptSuffix
    then Some(script[|ScriptPrefix|..|script| - |ScriptSuffix|])
    else None
  }

  /** Wrapping loses nothing: the content can be read back, so different
      contents give different scripts. */
  lemma UnwrapWrap(content: string)
    ensures UnwrapScript(WrapScript(content)) == Some(content)
  {
  }

  lemma WrapInjective(a: string, b: string)
    requires WrapScript(a) == WrapScript(b)
    ensures a == b
  {
    UnwrapWrap(a);
    UnwrapWrap(b);
  }

  /** The wide strings handed to JsParseScript (src/JSContext.cpp:171-178,
      190-198): an empty string stays empty, anything else is converted
      (the conversion keeps the characters in this model). */
  function WideOrEmpty(s: string): (w: string)
    ensures w == "" <==> s == ""
    ensures w == s
  {
    if s == "" then "" else s
  }

  /** js_global_context_ref__ (src/JSContext.cpp:22). */
  class GlobalContext {
    var ref: Handle

    constructor ()
      ensures ref == Null
    {
      ref := Null;
    }
  }

  class JSContext {
    /** js_context_ref__. */
    var ref: Handle

    /** JSContext(JSContextRef) (src/JSContext.cpp:245-250): the first context
        made while the global context handle is null records the engine's
        global context of `contextRef` (`engineGlobal`, the result of
        JSContextGetGlobalContext); later ones leave it alone. */
    constructor (global: GlobalContext, contextRef: Handle, engineGlobal: Handle)
      modifies global
      ensures ref == contextRef
      ensures old(global.ref) == Null ==> global.ref == engineGlobal
      ensures old(global.ref) != Null ==> global.ref == old(global.ref)
    {
      ref := contextRef;
      new;
      if global.ref == Null {
        global.ref := engineGlobal;
      }
    }

    /** The context JSContextGroup::CreateContext returns: the engine makes
        it inside the group (JSContext(const JSContextGroup&, const JSClass&)
        is not part of this model), so only its handle is known. */
    constructor InGroup(contextRef: Handle)
      ensures ref == contextRef
    {
      ref := contextRef;
    }

    /** The copy and move constructors (src/JSContext.cpp:231-237): the same
        handle, with no retain. */
    constructor Copy(rhs: JSContext)
      ensures ref == rhs.ref
    {
      ref := rhs.ref;
    }

    /** operator= (src/JSContext.cpp:239-242): swap with the by-value copy,
        so this context takes the right-hand side's handle and no count
        anywhere changes. */
    method Assign(rhs: JSContext)
      modifies this
      ensures ref == old(rhs.ref)
    {
      var parameter := new JSContext.Copy(rhs);
      ref, parameter.ref := parameter.ref, ref;
    }

    /** get_global_object (src/JSContext.cpp:24-27): asserts that the global
        context is set and wraps its global object (`globalObject`, the
        result of JSContextGetGlobalObject) in a JSObject, which protects
        it. */
    method GetGlobalObject(table: RetainTable, global: GlobalContext, globalObject: Handle) returns (o: Objects.JSObject)
      requires global.ref != Null
      requires table.Valid()
      modifies table
      ensures table.Valid() && fresh(o)
      ensures o.ref == globalObject && o.context == global.ref
      ensures table.counts == Protected(old(table.counts), globalObject)
    {
      o := new Objects.JSObject(table, global.ref, globalObject);
    }

    /** CreateObject(properties) (src/JSContext.cpp:123-129): a new plain
        object, protected by its facade, with every entry of `properties` set
        on it. */
    method CreateObject(table: RetainTable, store: Store, properties: map<string, Handle>) returns (o: Objects.JSObject)
      requires table.Valid() && store.Valid()
      modifies table, store
      ensures table.Valid() && store.Valid() && fresh(o)
      ensures o.context == ref && o.ref !in old(store.heap)
      ensures store.heap == old(store.heap)[o.ref := ObjectValue(PlainObject().(props := properties))]
      ensures table.counts == Protected(old(table.counts), o.ref)
    {
      var h := store.Make(ObjectValue(PlainObject()));
      o := new Objects.JSObject(table, ref, h);
      SetProperties(store, h, properties);
      assert map[] + properties == properties;
    }

    /** CreateObject(js_class, properties) (src/JSContext.cpp:131-137): an
        object of the class (CreateObject(js_class), src/JSContext.cpp:119-121)
        with every entry of `properties` set on it. */
    method CreateObjectOfClass(table: RetainTable, store: Store, classes: Pool<Classes.ClassDefinition>,
                               js_class: Classes.JSClass, properties: map<string, Handle>) returns (o: Objects.JSObject)
      requires table.Valid() && store.Valid() && js_class.ref in classes.contents
      modifies table, store
      ensures table.Valid() && store.Valid() && fresh(o)
      ensures o.context == ref && o.ref !in old(store.heap)
      ensures store.heap == old(store.heap)[o.ref := ObjectValue(ObjectRecord(properties, None, js_class.ref,
                classes.contents[js_class.ref].callAsFunction != Classes.NoCallback,
                classes.contents[js_class.ref].callAsConstructor != Classes.NoCallback))]
      ensures table.counts == Protected(old(table.counts), o.ref)
    {
      o := new Objects.JSObject.FromClass(table, store, classes, ref, js_class.ref);
      SetProperties(store, o.ref, properties);
      assert map[] + properties == properties;
    }

    /** CreateArray(arguments) (src/JSContext.cpp:145-156): an array of
        length |arguments| (truncated to the engine's unsigned int) holding
        argument i at index i, wrapped in a facade that protects it. */
    method CreateArray(table: RetainTable, store: Store, c: Coercions, arguments: seq<Values.JSValue>) returns (a: Objects.JSObject)
      requires table.Valid() && store.Valid()
      modifies table, store
      ensures table.Valid() && store.Valid() && fresh(a)
      ensures a.context == ref && a.ref !in old(store.heap)
      ensures |arguments| < 0x1_0000_0000 ==> Arrays.HoldsArguments(store, c, a.ref, Values.ToVector(arguments))
      ensures forall h :: h in old(store.heap) ==> h in store.heap && store.heap[h] == old(store.heap)[h]
      ensures table.counts == Protected(old(table.counts), a.ref)
    {
      var arrayRef := store.MakeArray(c, |arguments|);
      ghost var lengthRef := store.GetProperty(arrayRef, "length");
      ghost var lengthValue := store.ValueOf(lengthRef);
      assert lengthRef != arrayRef && lengthRef in store.heap;
      SetElements(store, arrayRef, Values.ToVector(arguments));
      assert store.ValueOf(lengthRef) == lengthValue;
      a := new Objects.JSObject(table, ref, arrayRef);
    }
  }

  /** The loop of CreateArray: JsSetIndexedProperty of refs[i] at index i,
      for each i in order. "length" and every other value stay as they
      were. */
  method SetElements(store: Store, arrayRef: Handle, refs: seq<Handle>)
    requires store.Valid() && store.IsObject(arrayRef) && "length" in store.Props(arrayRef)
    modifies store
    ensures store.Valid() && store.IsObject(arrayRef) && "length" in store.Props(arrayRef)
    ensures store.GetProperty(arrayRef, "length") == old(store.GetProperty(arrayRef, "length"))
    ensures forall i :: 0 <= i < |refs| ==> store.GetPropertyAtIndex(arrayRef, i) == refs[i]
    ensures forall h :: h in old(store.heap) && h != arrayRef ==> h in store.heap && store.heap[h] == old(store.heap)[h]
  {
    var i := 0;
    while i < |refs|
      invariant 0 <= i <= |refs|
      invariant store.Valid() && store.IsObject(arrayRef)
      invariant "length" in store.Props(arrayRef)
      invariant store.GetProperty(arrayRef, "length") == old(store.GetProperty(arrayRef, "length"))
      invariant forall j :: 0 <= j < i ==> store.GetPropertyAtIndex(arrayRef, j) == refs[j]
      invariant forall h :: h in old(store.heap) && h != arrayRef ==> h in store.heap && store.heap[h] == old(store.heap)[h]
    {
      IndexIsNotLength(i);
      IndicesDiffer(i);
      store.SetProperty(arrayRef, Decimal(i), refs[i]);
      i := i + 1;
    }
  }

  /** Index i names a property no smaller index names. */
  lemma IndicesDiffer(i: nat)
    ensures forall j :: 0 <= j < i ==> Decimal(j) != Decimal(i)
  {
    forall j | 0 <= j < i
      ensures Decimal(j) != Decimal(i)
    {
      if Decimal(j) == Decimal(i) {
        DecimalInjective(j, i);
      }
    }
  }

  /** The entries of `properties` already set when `remaining` are left. */
  function Done(properties: map<string, Handle>, remaining: set<string>): map<string, Handle>
  {
    map k | k in properties && k !in remaining :: properties[k]
  }

  /** The loop both CreateObject overloads run: set every entry of the map
      on the object, in whatever order the map yields them. */
  method SetProperties(store: Store, objectRef: Handle, properties: map<string, Handle>)
    requires store.Valid() && store.IsObject(objectRef)
    modifies store
    ensures store.Valid()
    ensures store.heap == old(store.heap)[objectRef := ObjectValue(
              old(store.ValueOf(objectRef)).record.(props := old(store.Props(objectRef)) + properties))]
  {
    ghost var record := store.ValueOf(objectRef).record;
    var remaining := properties.Keys;
    assert Done(properties, remaining) == map[];
    assert record.props + map[] == record.props;
    assert old(store.heap)[objectRef := ObjectValue(record.(props := record.props))] == old(store.heap);
    while remaining != {}
      invariant remaining <= properties.Keys
      invariant store.Valid()
      invariant store.heap == old(store.heap)[objectRef := ObjectValue(record.(props := record.props + Done(properties, remaining)))]
      decreases |remaining|
    {
      var name :| name in remaining;
      assert Done(properties, remaining - {name}) == Done(properties, remaining)[name := properties[name]];
      assert record.props + Done(properties, remaining - {name})
          == (record.props + Done(properties, remaining))[name := properties[name]];
      store.SetProperty(objectRef, name, properties[name]);
      remaining := remaining - {name};
    }
    assert Done(properties, remaining) == properties;
  }
}
