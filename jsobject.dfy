/** JSObject (src/JSObject.cpp, include/HAL/JSObject.hpp): a facade around
    an object handle that holds one count in the retain table, the
    process-wide registry of native private data, and the guards in front of
    calling an object. */
module Objects {
  import opened Common
  import opened Retain
  import opened Lifetime
  import opened Engine
  import JSUtil
  import Classes
  import Strings
  import Values

  /** js_object_ref_to_private_data_map__ (src/JSObject.cpp:20): object
      handle -> native instance. */
  class PrivateDataRegistry {
    var entries: map<Handle, Instance>

    constructor ()
      ensures entries == map[]
    {
      entries := map[];
    }

    /** RegisterPrivateData (src/JSObject.cpp:189-209): a null pointer is not
        stored, and an object that already has an entry keeps it. */
    method RegisterPrivateData(objectRef: Handle, privateData: Option<Instance>)
      modifies this
      ensures entries == if privateData.None? || objectRef in old(entries) then old(entries)
                         else old(entries)[objectRef := privateData.value]
    {
      if privateData.None? {
        return;
      }
      if objectRef !in entries {
        entries := entries[objectRef := privateData.value];
      }
    }

    /** UnRegisterPrivateData (src/JSObject.cpp:211-218): remove the entry if
        there is one. */
    method UnRegisterPrivateData(objectRef: Handle)
      modifies this
      ensures entries == old(entries) - {objectRef}
    {
      if objectRef in entries {
        entries := entries - {objectRef};
      }
    }
  }

  /** JSObject::GetPrivate (src/JSObject.cpp:220-232): the engine's private
      slot when it is set, else the registry entry, else null. */
  function GetPrivate(store: Store, registry: PrivateDataRegistry, objectRef: Handle): (p: Option<Instance>)
    reads store, registry
    ensures p.Some? <==> PrivateSlot(store, objectRef).Some? || objectRef in registry.entries
    ensures PrivateSlot(store, objectRef).Some? ==> p == PrivateSlot(store, objectRef)
    ensures PrivateSlot(store, objectRef).None? && objectRef in registry.entries ==> p == Some(registry.entries[objectRef])
  {
    var data := PrivateSlot(store, objectRef);
    if data.Some? then data
    else if objectRef in registry.entries then Some(registry.entries[objectRef])
    else None
  }

  /** JSObjectGetPrivate: the private slot of an object (null for anything
      else). */
  function PrivateSlot(store: Store, objectRef: Handle): Option<Instance>
    reads store
  {
    if store.IsObject(objectRef) then store.ValueOf(objectRef).record.privateData else None
  }

  /** The pointer part of GetPrivate<T> (include/HAL/JSObject.hpp:396-402)
      for the type named `typeName`: the private data when a dynamic_cast to
      that type succeeds, null when there is no data or the cast fails. */
  function CastPrivate(store: Store, registry: PrivateDataRegistry, objectRef: Handle, typeName: string): (p: Option<Instance>)
    reads store, registry
    ensures p.Some? <==> GetPrivate(store, registry, objectRef).Some? && typeName in GetPrivate(store, registry, objectRef).value.types
    ensures p.Some? ==> p == GetPrivate(store, registry, objectRef)
  {
    var data := GetPrivate(store, registry, objectRef);
    if data.Some? && typeName in data.value.types then data else None
  }

  /** Registering data for an object without a private slot makes GetPrivate
      find it, unless the object was registered before or the data is null;
      unregistering leaves only the private slot. */
  lemma RegisterThenGetPrivate(store: Store, before: map<Handle, Instance>, registry: PrivateDataRegistry, objectRef: Handle, data: Instance)
    requires PrivateSlot(store, objectRef).None?
    requires registry.entries == if objectRef in before then before else before[objectRef := data]
    ensures objectRef !in before ==> GetPrivate(store, registry, objectRef) == Some(data)
    ensures objectRef in before ==> GetPrivate(store, registry, objectRef) == Some(before[objectRef])
  {
  }

  lemma UnRegisterThenGetPrivate(store: Store, before: map<Handle, Instance>, registry: PrivateDataRegistry, objectRef: Handle)
    requires registry.entries == before - {objectRef}
    ensures GetPrivate(store, registry, objectRef) == PrivateSlot(store, objectRef)
  {
  }

  class JSObject {
    /** The JSContextRef of js_context__. */
    var context: Handle
    /** js_object_ref__. */
    var ref: Handle

    /** JSObject(const JSContext&, JSObjectRef) (src/JSObject.cpp:276-280):
        protect the wrapped handle once. */
    constructor (table: RetainTable, context: Handle, ref: Handle)
      requires table.Valid()
      modifies table
      ensures table.Valid()
      ensures this.context == context && this.ref == ref
      ensures table.counts == Protected(old(table.counts), ref)
      ensures table.counts == RunTable(old(table.counts), EventSteps(ProtectBeforeSwap, Construct(ref)))
    {
      this.context := context;
      this.ref := ref;
      new;
      RunOne(table.counts, Acquire(ref));
      table.Protect(context, ref);
    }

    /** JSObject(const JSContext&, const JSClass&) (src/JSObject.cpp:269-273):
        JSObjectMake makes a new object of the class with a null private
        slot (callable as a function or a constructor when the class has that
        callback), which is then protected once. */
    constructor FromClass(table: RetainTable, store: Store, classes: Pool<Classes.ClassDefinition>, context: Handle, classRef: Handle)
      requires table.Valid() && store.Valid() && classRef in classes.contents
      modifies table, store
      ensures table.Valid() && store.Valid()
      ensures this.context == context && ref !in old(store.heap)
      ensures store.heap == old(store.heap)[ref := ObjectValue(ObjectRecord(map[], None, classRef,
                classes.contents[classRef].callAsFunction != Classes.NoCallback,
                classes.contents[classRef].callAsConstructor != Classes.NoCallback))]
      ensures IsFunction(store) <==> classes.contents[classRef].callAsFunction != Classes.NoCallback
      ensures IsConstructor(store) <==> classes.contents[classRef].callAsConstructor != Classes.NoCallback
      ensures table.counts == Protected(old(table.counts), ref)
      ensures table.counts == RunTable(old(table.counts), EventSteps(ProtectBeforeSwap, Construct(ref)))
    {
      var definition := classes.contents[classRef];
      var h := store.Make(ObjectValue(ObjectRecord(map[], None, classRef,
                 definition.callAsFunction != Classes.NoCallback,
                 definition.callAsConstructor != Classes.NoCallback)));
      this.context := context;
      this.ref := h;
      new;
      RunOne(table.counts, Acquire(ref));
      table.Protect(context, ref);
    }

    /** The copy and move constructors (src/JSObject.cpp:242-252): the same
        handle, protected once more; a move leaves the source's count. */
    constructor Copy(table: RetainTable, rhs: JSObject)
      requires table.Valid()
      modifies table
      ensures table.Valid()
      ensures context == rhs.context && ref == rhs.ref
      ensures table.counts == RunTable(old(table.counts), EventSteps(ProtectBeforeSwap, CopyOf(rhs.ref)))
    {
      context := rhs.context;
      ref := rhs.ref;
      new;
      RunOne(table.counts, Acquire(ref));
      table.Protect(context, ref);
    }

    /** The destructor (src/JSObject.cpp:238-240). */
    method Destroy(table: RetainTable)
      requires table.Valid()
      modifies table
      ensures table.Valid()
      ensures table.counts == RunTable(old(table.counts), EventSteps(ProtectBeforeSwap, Lifetime.Destroy(ref)))
    {
      RunOne(table.counts, Drop(ref));
      table.Unprotect(context, ref);
    }

    /** swap (src/JSObject.cpp:260-267): exchange context and handle. */
    method Swap(other: JSObject)
      modifies this, other
      ensures ref == old(other.ref) && context == old(other.context)
      ensures other.ref == old(ref) && other.context == old(context)
    {
      context, other.context := other.context, context;
      ref, other.ref := other.ref, ref;
    }

    /** operator= (src/JSObject.cpp:254-258) as written: the by-value
        parameter protects the incoming handle, the handle still held is
        protected, then swap; the parameter's destructor unprotects the
        outgoing handle once, which only undoes the extra protect. */
    method Assign(table: RetainTable, rhs: JSObject)
      requires table.Valid()
      modifies this, table
      ensures table.Valid()
      ensures ref == old(rhs.ref) && context == old(rhs.context)
      ensures table.counts == RunTable(old(table.counts), AssignSteps(ProtectBeforeSwap, old(ref), old(rhs.ref)))
    {
      var t0 := table.counts;
      var parameter := new JSObject.Copy(table, rhs);
      table.Protect(context, ref);
      Swap(parameter);
      parameter.Destroy(table);
      RunOne(t0, Acquire(old(rhs.ref)));
      RunOne(Protected(t0, old(rhs.ref)), Acquire(old(ref)));
      RunOne(Protected(Protected(t0, old(rhs.ref)), old(ref)), Drop(old(ref)));
      RunThree(t0, Acquire(old(rhs.ref)), Acquire(old(ref)), Drop(old(ref)));
    }

    /** Copy-and-swap assignment, the balanced form of operator=. */
    method AssignBalanced(table: RetainTable, rhs: JSObject)
      requires table.Valid()
      modifies this, table
      ensures table.Valid()
      ensures ref == old(rhs.ref) && context == old(rhs.context)
      ensures table.counts == RunTable(old(table.counts), AssignSteps(CopyAndSwap, old(ref), old(rhs.ref)))
    {
      var t0 := table.counts;
      var parameter := new JSObject.Copy(table, rhs);
      RunOne(t0, Acquire(rhs.ref));
      Swap(parameter);
      parameter.Destroy(table);
      RunOne(Protected(t0, old(rhs.ref)), Drop(old(ref)));
      RunTwo(t0, Acquire(old(rhs.ref)), Drop(old(ref)));
    }

    /** IsFunction (src/JSObject.cpp:110-112): JSObjectIsFunction; only an
        object can be called. */
    function IsFunction(store: Store): (b: bool)
      reads this, store
      ensures b ==> store.IsObject(ref)
    {
      store.IsObject(ref) && store.ValueOf(ref).record.isFunction
    }

    /** IsConstructor (src/JSObject.cpp:151-153): JSObjectIsConstructor. */
    function IsConstructor(store: Store): (b: bool)
      reads this, store
      ensures b ==> store.IsObject(ref)
    {
      store.IsObject(ref) && store.ValueOf(ref).record.isConstructor
    }

    /** The guard of CallAsConstructor (src/JSObject.cpp:163-165): a
        non-constructor throws before any engine call; otherwise the call
        proceeds (the engine's JSObjectCallAsConstructor is not part of this
        model). */
    function ConstructorGuard(store: Store): (error: Option<JSUtil.RuntimeError>)
      reads this, store
      ensures error.Some? <==> !IsConstructor(store)
      ensures error.Some? ==> error.value.message == "This JavaScript object is not a constructor."
    {
      if !IsConstructor(store) then Some(JSUtil.ThrowRuntimeError("JSObject", "This JavaScript object is not a constructor."))
      else None
    }

    /** The guard of CallAsFunction (src/JSObject.cpp:295-297). */
    function FunctionGuard(store: Store): (error: Option<JSUtil.RuntimeError>)
      reads this, store
      ensures error.Some? <==> !IsFunction(store)
      ensures error.Some? ==> error.value.message == "This JavaScript object is not a function."
    {
      if !IsFunction(store) then Some(JSUtil.ThrowRuntimeError("JSObject::CallAsFunction", "This JavaScript object is not a function."))
      else None
    }

    /** GetPrivate<T> (include/HAL/JSObject.hpp:396-402) for a type named
        `typeName`: null when there is no private data; otherwise a
        shared_ptr that owns a copy of this JSObject and points at the data
        if a dynamic_cast to T succeeds, at null if not. The copy keeps the
        handle protected once more for as long as the pointer lives, whether
        or not the cast succeeded. */
    method GetPrivateAs(table: RetainTable, store: Store, registry: PrivateDataRegistry, typeName: string)
      returns (instance: Option<Instance>, owner: Option<JSObject>)
      requires table.Valid()
      modifies table
      ensures table.Valid()
      ensures var p := GetPrivate(store, registry, ref);
              && (p.None? ==> instance.None? && owner.None? && table.counts == old(table.counts))
              && instance == CastPrivate(store, registry, ref, typeName)
              && (p.Some? ==> owner.Some? && fresh(owner.value) && owner.value.ref == ref
                              && table.counts == Protected(old(table.counts), ref))
    {
      var p := GetPrivate(store, registry, ref);
      if p.None? {
        return None, None;
      }
      var copy := new JSObject.Copy(table, this);
      RunOne(old(table.counts), Acquire(ref));
      owner := Some(copy);
      instance := if typeName in p.value.types then p else None;
    }

    /** GetProperties (src/JSObject.cpp:100-108): for each name of the
        object's property-name array, in order, GetProperty wraps the value
        in a JSValue (one protect) and emplace moves it into the map (one
        more, the move constructor protecting too), or, when the key is
        already there, builds the element and discards it again; the
        temporary then goes away (one unprotect). So each new key keeps its
        value protected once, and a repeated key leaves the counts as they
        were. `names` are the string handles JSObjectCopyPropertyNames
        lists. */
    method GetProperties(table: RetainTable, store: Store, strings: Pool<string>, names: seq<Handle>)
      returns (properties: map<string, Values.JSValue>)
      requires table.Valid()
      requires forall i :: 0 <= i < |names| ==> names[i] in strings.contents
      modifies table
      ensures table.Valid()
      ensures Mirrors(properties, Emplaced(store, ref, strings.contents, names), context)
      ensures forall k :: k in properties ==> fresh(properties[k])
      ensures table.counts == RunTable(old(table.counts), AcquireAll(Kept(store, ref, strings.contents, names)))
    {
      properties := map[];
      var i := 0;
      while i < |names|
        invariant 0 <= i <= |names|
        invariant table.Valid()
        invariant Mirrors(properties, Emplaced(store, ref, strings.contents, names[..i]), context)
        invariant forall k :: k in properties ==> fresh(properties[k])
        invariant table.counts == RunTable(old(table.counts), AcquireAll(Kept(store, ref, strings.contents, names[..i])))
      {
        var name := strings.contents[names[i]];
        var key := UntilNul(name);
        var h := store.GetProperty(ref, name);
        ghost var m := Emplaced(store, ref, strings.contents, names[..i]);
        EmplacedSnoc(store, ref, strings.contents, names, i);
        KeptStep(old(table.counts), store, ref, strings.contents, names, i);
        properties := Emplace(table, context, properties, key, h, m);
        i := i + 1;
      }
      assert names[..i] == names;
    }
  }

  /** `properties` holds, under each key of `expected`, a JSValue of that
      context wrapping the handle `expected` gives. */
  ghost predicate Mirrors(properties: map<string, Values.JSValue>, expected: map<string, Handle>, context: Handle)
    reads set k | k in properties :: properties[k]
  {
    && properties.Keys == expected.Keys
    && forall k :: k in properties ==> properties[k].ref == expected[k] && properties[k].context == context
  }

  /** One iteration of GetProperties: the JSValue GetProperty returns
      protects `h` once; emplace builds the element from it (one more
      protect) and keeps it only under a new key, discarding it (one
      unprotect) otherwise; then the temporary goes away (one unprotect). */
  method Emplace(table: RetainTable, context: Handle, properties: map<string, Values.JSValue>, key: string, h: Handle,
                 ghost expected: map<string, Handle>)
    returns (more: map<string, Values.JSValue>)
    requires table.Valid() && Mirrors(properties, expected, context)
    modifies table
    ensures table.Valid()
    ensures Mirrors(more, if key in expected then expected else expected[key := h], context)
    ensures forall k :: k in more ==> (k in properties && more[k] == properties[k]) || fresh(more[k])
    ensures key in properties ==> table.counts == old(table.counts)
    ensures key !in properties ==> table.counts == Protected(old(table.counts), h)
  {
    var t := table.counts;
    var value := new Values.JSValue(table, context, h);
    var element := new Values.JSValue.Copy(table, value);
    RunOne(Protected(t, h), Acquire(h));
    if key !in properties {
      more := properties[key := element];
    } else {
      more := properties;
      element.Destroy(table);
      RunOne(Protected(Protected(t, h), h), Drop(h));
      ProtectThenUnprotect(Protected(t, h), h);
    }
    value.Destroy(table);
    if key in properties {
      RunOne(Protected(t, h), Drop(h));
      ProtectThenUnprotect(t, h);
    } else {
      RunOne(Protected(Protected(t, h), h), Drop(h));
      ProtectThenUnprotect(Protected(t, h), h);
    }
  }

  /** The map GetProperties builds from the names `names` lists, as handles
      of the values: each name is looked up as the engine holds it, but the
      key is its std::string conversion, which stops at a NUL, and emplace
      keeps the first value stored under a key. */
  function Emplaced(store: Store, objectRef: Handle, contents: map<Handle, string>, names: seq<Handle>): map<string, Handle>
    requires forall i :: 0 <= i < |names| ==> names[i] in contents
    reads store
    decreases |names|
  {
    if names == [] then map[]
    else
      var m := Emplaced(store, objectRef, contents, names[..|names| - 1]);
      var name := contents[names[|names| - 1]];
      if UntilNul(name) in m then m else m[UntilNul(name) := store.GetProperty(objectRef, name)]
  }

  /** The value handles GetProperties leaves protected: one per new key, in
      order. */
  function Kept(store: Store, objectRef: Handle, contents: map<Handle, string>, names: seq<Handle>): seq<Handle>
    requires forall i :: 0 <= i < |names| ==> names[i] in contents
    reads store
    decreases |names|
  {
    if names == [] then []
    else
      var init := names[..|names| - 1];
      var name := contents[names[|names| - 1]];
      Kept(store, objectRef, contents, init)
        + (if UntilNul(name) in Emplaced(store, objectRef, contents, init) then []
           else [store.GetProperty(objectRef, name)])
  }

  /** Name `i` is the first whose key is its key. */
  ghost predicate FirstOfKey(contents: map<Handle, string>, names: seq<Handle>, i: nat)
    requires forall j :: 0 <= j < |names| ==> names[j] in contents
    requires i < |names|
  {
    forall j :: 0 <= j < i ==> UntilNul(contents[names[j]]) != UntilNul(contents[names[i]])
  }

  /** Emplaced and Kept on one more name. */
  lemma EmplacedSnoc(store: Store, objectRef: Handle, contents: map<Handle, string>, names: seq<Handle>, i: nat)
    requires forall j :: 0 <= j < |names| ==> names[j] in contents
    requires i < |names|
    ensures var m := Emplaced(store, objectRef, contents, names[..i]);
            var key := UntilNul(contents[names[i]]);
            var h := store.GetProperty(objectRef, contents[names[i]]);
            && Emplaced(store, objectRef, contents, names[..i + 1]) == (if key in m then m else m[key := h])
            && Kept(store, objectRef, contents, names[..i + 1]) == Kept(store, objectRef, contents, names[..i]) + (if key in m then [] else [h])
  {
    assert names[..i + 1][..i] == names[..i];
  }

  /** The counts after one more name: one more protect exactly when its key
      is new. */
  lemma KeptStep(t0: Table, store: Store, objectRef: Handle, contents: map<Handle, string>, names: seq<Handle>, i: nat)
    requires NoZeroCounts(t0)
    requires forall j :: 0 <= j < |names| ==> names[j] in contents
    requires i < |names|
    ensures var before := RunTable(t0, AcquireAll(Kept(store, objectRef, contents, names[..i])));
            var after := RunTable(t0, AcquireAll(Kept(store, objectRef, contents, names[..i + 1])));
            after == if UntilNul(contents[names[i]]) in Emplaced(store, objectRef, contents, names[..i]) then before
                     else Protected(before, store.GetProperty(objectRef, contents[names[i]]))
  {
    EmplacedSnoc(store, objectRef, contents, names, i);
    var kept := Kept(store, objectRef, contents, names[..i]);
    if UntilNul(contents[names[i]]) in Emplaced(store, objectRef, contents, names[..i]) {
      assert kept + [] == kept;
    } else {
      AcquireOneMore(t0, kept, store.GetProperty(objectRef, contents[names[i]]));
    }
  }

  /** The keys of the map GetProperties returns are the listed names, each
      up to its first NUL. */
  lemma {:induction false} EmplacedKeys(store: Store, objectRef: Handle, contents: map<Handle, string>, names: seq<Handle>)
    requires forall i :: 0 <= i < |names| ==> names[i] in contents
    ensures forall i :: 0 <= i < |names| ==> UntilNul(contents[names[i]]) in Emplaced(store, objectRef, contents, names)
    ensures forall k :: k in Emplaced(store, objectRef, contents, names) ==>
              exists i :: 0 <= i < |names| && UntilNul(contents[names[i]]) == k
    decreases |names|
  {
    if names != [] {
      var n := |names| - 1;
      EmplacedKeys(store, objectRef, contents, names[..n]);
      EmplacedSnoc(store, objectRef, contents, names, n);
      assert names[..n + 1] == names;
      forall k | k in Emplaced(store, objectRef, contents, names)
        ensures exists i :: 0 <= i < |names| && UntilNul(contents[names[i]]) == k
      {
        if k in Emplaced(store, objectRef, contents, names[..n]) {
          var i :| 0 <= i < n && UntilNul(contents[names[..n][i]]) == k;
          assert names[..n][i] == names[i];
        }
      }
      forall i | 0 <= i < n
        ensures UntilNul(contents[names[i]]) in Emplaced(store, objectRef, contents, names)
      {
        assert names[..n][i] == names[i];
      }
    }
  }

  /** Under each key GetProperties keeps the value of the first listed name
      with that key. */
  lemma {:induction false} EmplacedFirst(store: Store, objectRef: Handle, contents: map<Handle, string>, names: seq<Handle>, i: nat)
    requires forall j :: 0 <= j < |names| ==> names[j] in contents
    requires i < |names| && FirstOfKey(contents, names, i)
    ensures UntilNul(contents[names[i]]) in Emplaced(store, objectRef, contents, names)
    ensures Emplaced(store, objectRef, contents, names)[UntilNul(contents[names[i]])] == store.GetProperty(objectRef, contents[names[i]])
    decreases |names|
  {
    var n := |names| - 1;
    EmplacedSnoc(store, objectRef, contents, names, n);
    assert names[..n + 1] == names;
    var key := UntilNul(contents[names[i]]);
    if i < n {
      assert forall j :: 0 <= j < i ==> names[..n][j] == names[j];
      assert names[..n][i] == names[i];
      EmplacedFirst(store, objectRef, contents, names[..n], i);
    } else {
      EmplacedKeys(store, objectRef, contents, names[..n]);
    }
  }

  /** GetProperties leaves exactly one value protected per key it returns. */
  lemma {:induction false} KeptPerKey(store: Store, objectRef: Handle, contents: map<Handle, string>, names: seq<Handle>)
    requires forall i :: 0 <= i < |names| ==> names[i] in contents
    ensures |Kept(store, objectRef, contents, names)| == |Emplaced(store, objectRef, contents, names)|
    decreases |names|
  {
    if names != [] {
      var n := |names| - 1;
      KeptPerKey(store, objectRef, contents, names[..n]);
      EmplacedSnoc(store, objectRef, contents, names, n);
      assert names[..n + 1] == names;
    }
  }

  /** The free swap (include/HAL/JSObject.hpp:390-393). */
  method Swap(first: JSObject, second: JSObject)
    modifies first, second
    ensures first.ref == old(second.ref) && first.context == old(second.context)
    ensures second.ref == old(first.ref) && second.context == old(first.context)
  {
    first.Swap(second);
  }
}
