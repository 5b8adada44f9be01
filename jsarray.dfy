/** JSArray (src/JSArray.cpp, include/HAL/JSArray.hpp): an object read
    through its "length" property and its index properties. Every conversion
    reads the store and never writes it. */
module Arrays {
  import opened Common
  import opened Retain
  import opened Lifetime
  import opened Engine
  import NumberConversion
  import Values
  import Objects

  /** GetLength (src/JSArray.cpp:22-31): 0 without a "length" property or
      when it is not a number, else the number read as uint32_t. */
  function GetLength(store: Store, c: Coercions, arrayRef: Handle): (n: nat)
    reads store
    ensures n < 0x1_0000_0000
    ensures !store.HasProperty(arrayRef, "length") ==> n == 0
    ensures !store.ValueOf(store.GetProperty(arrayRef, "length")).NumberValue? ==> n == 0
  {
    if !store.HasProperty(arrayRef, "length") then 0
    else
      var length := store.ValueOf(store.GetProperty(arrayRef, "length"));
      if !length.NumberValue? then 0 else ToUint32(c, length)
  }

  /** GetCount (src/JSArray.cpp:33-35). */
  function GetCount(store: Store, c: Coercions, arrayRef: Handle): (n: nat)
    reads store
    ensures n == GetLength(store, c, arrayRef)
  {
    GetLength(store, c, arrayRef)
  }

  /** The handles at indices 0 .. n-1, in order. */
  function ElementsBelow(store: Store, arrayRef: Handle, n: nat): (refs: seq<Handle>)
    reads store
    ensures |refs| == n
    ensures forall i :: 0 <= i < n ==> refs[i] == store.GetPropertyAtIndex(arrayRef, i)
  {
    if n == 0 then [] else ElementsBelow(store, arrayRef, n - 1) + [store.GetPropertyAtIndex(arrayRef, n - 1)]
  }

  /** The elements a conversion visits: indices below GetLength. */
  function Elements(store: Store, c: Coercions, arrayRef: Handle): seq<Handle>
    reads store
  {
    ElementsBelow(store, arrayRef, GetLength(store, c, arrayRef))
  }

  /** `arrayRef` has a numeric "length" equal to the number of `refs` and
      holds refs[i] at index i: what CreateArray leaves behind. */
  ghost predicate HoldsArguments(store: Store, c: Coercions, arrayRef: Handle, refs: seq<Handle>)
    reads store
  {
    && |refs| < 0x1_0000_0000
    && store.HasProperty(arrayRef, "length")
    && store.ValueOf(store.GetProperty(arrayRef, "length")) == NumberValue(c.fromUint32(|refs|))
    && forall i :: 0 <= i < |refs| ==> store.GetPropertyAtIndex(arrayRef, i) == refs[i]
  }

  /** Reading back an array built from `refs` gives `refs`, when the engine
      converts numbers faithfully. */
  lemma StoredArguments(store: Store, c: Coercions, arrayRef: Handle, refs: seq<Handle>)
    requires Faithful(c) && HoldsArguments(store, c, arrayRef, refs)
    ensures GetLength(store, c, arrayRef) == |refs|
    ensures Elements(store, c, arrayRef) == refs
  {
    Uint32RoundTrip(c, |refs|);
  }

  /** operator std::vector<JSValue> (src/JSArray.cpp:37-45): one new JSValue
      per element, in index order, each holding one count in the retain
      table. */
  method ToValues(table: RetainTable, store: Store, c: Coercions, jsArray: Objects.JSObject)
    returns (items: seq<Values.JSValue>)
    requires table.Valid()
    modifies table
    ensures table.Valid()
    ensures Values.ToVector(items) == Elements(store, c, jsArray.ref)
    ensures forall i :: 0 <= i < |items| ==> fresh(items[i]) && items[i].context == jsArray.context
    ensures table.counts == RunTable(old(table.counts), AcquireAll(Elements(store, c, jsArray.ref)))
  {
    var length := GetLength(store, c, jsArray.ref);
    items := ValuesBelow(table, store, jsArray.context, jsArray.ref, length);
  }

  /** The loop of ToValues over indices 0 .. length-1. */
  method ValuesBelow(table: RetainTable, store: Store, context: Handle, arrayRef: Handle, length: nat)
    returns (items: seq<Values.JSValue>)
    requires table.Valid()
    modifies table
    ensures table.Valid()
    ensures Values.ToVector(items) == ElementsBelow(store, arrayRef, length)
    ensures forall i :: 0 <= i < |items| ==> fresh(items[i]) && items[i].context == context
    ensures table.counts == RunTable(old(table.counts), AcquireAll(ElementsBelow(store, arrayRef, length)))
  {
    ghost var refs := ElementsBelow(store, arrayRef, length);
    ghost var t0 := table.counts;
    items := [];
    var i := 0;
    while i < length
      invariant 0 <= i <= length && |items| == i
      invariant table.Valid()
      invariant forall j :: 0 <= j < i ==> items[j].ref == refs[j]
      invariant forall j :: 0 <= j < i ==> fresh(items[j])
      invariant forall j :: 0 <= j < i ==> items[j].context == context
      invariant table.counts == RunTable(t0, AcquireAll(refs[..i]))
    {
      var more := PushValueAt(table, store, context, arrayRef, items, t0, refs);
      assert forall j :: 0 <= j < i ==> more[j] == items[j];
      items := more;
      i := i + 1;
    }
    assert refs[..i] == refs;
    assert Values.ToVector(items) == refs;
  }

  /** One iteration of ToValues: GetProperty(i) for the next index wraps
      the element in a new JSValue, which protects it once, and appends it. */
  method PushValueAt(table: RetainTable, store: Store, context: Handle, arrayRef: Handle,
                     items: seq<Values.JSValue>, ghost t0: Table, ghost refs: seq<Handle>)
    returns (more: seq<Values.JSValue>)
    requires table.Valid() && NoZeroCounts(t0)
    requires |items| < |refs| && refs[|items|] == store.GetPropertyAtIndex(arrayRef, |items|)
    requires forall j :: 0 <= j < |items| ==> items[j].ref == refs[j]
    requires forall j :: 0 <= j < |items| ==> items[j].context == context
    requires table.counts == RunTable(t0, AcquireAll(refs[..|items|]))
    modifies table
    ensures table.Valid()
    ensures |more| == |items| + 1 && more[..|items|] == items && fresh(more[|items|])
    ensures forall j :: 0 <= j < |more| ==> more[j].ref == refs[j]
    ensures forall j :: 0 <= j < |more| ==> more[j].context == context
    ensures table.counts == RunTable(t0, AcquireAll(refs[..|more|]))
  {
    var i := |items|;
    var item := new Values.JSValue(table, context, store.GetPropertyAtIndex(arrayRef, i));
    NextProtected(t0, refs, i);
    more := items + [item];
    assert more[..i] == items;
  }

  lemma NextProtected(t0: Table, refs: seq<Handle>, i: nat)
    requires NoZeroCounts(t0) && i < |refs|
    ensures RunTable(t0, AcquireAll(refs[..i + 1])) == Protected(RunTable(t0, AcquireAll(refs[..i])), refs[i])
  {
    assert refs[..i + 1] == refs[..i] + [refs[i]];
    AcquireOneMore(t0, refs[..i], refs[i]);
  }

  /** The shape the five value conversions share: element i is the
      conversion of the value at index i. */
  method Convert<T>(store: Store, c: Coercions, arrayRef: Handle, convert: Value -> T)
    returns (items: seq<T>)
    ensures |items| == GetLength(store, c, arrayRef)
    ensures forall i :: 0 <= i < |items| ==> items[i] == convert(store.ValueOf(store.GetPropertyAtIndex(arrayRef, i)))
  {
    var length := GetLength(store, c, arrayRef);
    items := [];
    var i := 0;
    while i < length
      invariant 0 <= i <= length && |items| == i
      invariant forall j :: 0 <= j < i ==> items[j] == convert(store.ValueOf(store.GetPropertyAtIndex(arrayRef, j)))
    {
      items := items + [convert(store.ValueOf(store.GetPropertyAtIndex(arrayRef, i)))];
      i := i + 1;
    }
  }

  /** operator std::vector<bool> (src/JSArray.cpp:47-55). */
  method ToBooleans(store: Store, c: Coercions, arrayRef: Handle) returns (items: seq<bool>)
    ensures |items| == GetLength(store, c, arrayRef)
    ensures forall i :: 0 <= i < |items| ==> items[i] == c.toBoolean(store.ValueOf(store.GetPropertyAtIndex(arrayRef, i)))
  {
    items := Convert(store, c, arrayRef, c.toBoolean);
  }

  /** operator std::vector<std::string> (src/JSArray.cpp:57-65). */
  method ToStrings(store: Store, c: Coercions, arrayRef: Handle) returns (items: seq<string>)
    ensures |items| == GetLength(store, c, arrayRef)
    ensures forall i :: 0 <= i < |items| ==> items[i] == UntilNul(c.toString(store.ValueOf(store.GetPropertyAtIndex(arrayRef, i))))
  {
    items := Convert(store, c, arrayRef, v => UntilNul(c.toString(v)));
  }

  /** operator std::vector<double> (src/JSArray.cpp:67-75), each double as
      its 64-bit pattern. */
  method ToNumbers(store: Store, c: Coercions, arrayRef: Handle) returns (items: seq<bv64>)
    ensures |items| == GetLength(store, c, arrayRef)
    ensures forall i :: 0 <= i < |items| ==> items[i] == c.toNumber(store.ValueOf(store.GetPropertyAtIndex(arrayRef, i)))
  {
    items := Convert(store, c, arrayRef, c.toNumber);
  }

  /** operator std::vector<int32_t> (src/JSArray.cpp:77-85). */
  method ToInt32s(store: Store, c: Coercions, arrayRef: Handle) returns (items: seq<int>)
    ensures |items| == GetLength(store, c, arrayRef)
    ensures forall i :: 0 <= i < |items| ==>
              items[i] == NumberConversion.AsInt32(ToInt32(c, store.ValueOf(store.GetPropertyAtIndex(arrayRef, i))))
  {
    items := Convert(store, c, arrayRef, (v: Value) => NumberConversion.AsInt32(ToInt32(c, v)));
  }

  /** operator std::vector<uint32_t> (src/JSArray.cpp:87-95). */
  method ToUint32s(store: Store, c: Coercions, arrayRef: Handle) returns (items: seq<nat>)
    ensures |items| == GetLength(store, c, arrayRef)
    ensures forall i :: 0 <= i < |items| ==> items[i] == ToUint32(c, store.ValueOf(store.GetPropertyAtIndex(arrayRef, i)))
  {
    items := Convert(store, c, arrayRef, (v: Value) => ToUint32(c, v));
  }

  /** GetPrivateItems<T> (include/HAL/JSArray.hpp:117-130): a vector sized
      by "length" read as uint32_t (no presence or type check here), holding
      GetPrivate<T> of each object element and null at every other element. */
  method GetPrivateItems(store: Store, registry: Objects.PrivateDataRegistry, c: Coercions, arrayRef: Handle, typeName: string)
    returns (items: seq<Option<Instance>>)
    ensures |items| == ToUint32(c, store.ValueOf(store.GetProperty(arrayRef, "length")))
    ensures forall i :: 0 <= i < |items| ==>
              var element := store.GetPropertyAtIndex(arrayRef, i);
              items[i] == if store.IsObject(element) then Objects.CastPrivate(store, registry, element, typeName) else None
  {
    var length := ToUint32(c, store.ValueOf(store.GetProperty(arrayRef, "length")));
    items := seq(length, _ => None);
    var i := 0;
    while i < length
      invariant 0 <= i <= length && |items| == length
      invariant forall j :: 0 <= j < i ==>
                  var element := store.GetPropertyAtIndex(arrayRef, j);
                  items[j] == if store.IsObject(element) then Objects.CastPrivate(store, registry, element, typeName) else None
    {
      var element := store.GetPropertyAtIndex(arrayRef, i);
      if store.IsObject(element) {
        items := items[i := Objects.CastPrivate(store, registry, element, typeName)];
      } else {
        items := items[i := None];
      }
      i := i + 1;
    }
  }

  /** On an array built from `refs`, GetPrivateItems yields one entry per
      argument, and its length agrees with GetLength. */
  lemma PrivateItemsOfStoredArguments(store: Store, c: Coercions, arrayRef: Handle, refs: seq<Handle>)
    requires Faithful(c) && HoldsArguments(store, c, arrayRef, refs)
    ensures ToUint32(c, store.ValueOf(store.GetProperty(arrayRef, "length"))) == |refs| == GetLength(store, c, arrayRef)
  {
    Uint32RoundTrip(c, |refs|);
  }
}
