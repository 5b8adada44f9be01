/** The JavaScript engine as the binding layer sees it: an abstract store of
    values behind opaque handles. Objects carry a property map, an optional
    private slot holding a native instance, the class they were made from and
    whether they can be called as a function or a constructor. The engine's
    conversions (ToBoolean, ToNumber, ToString and making a number from an
    unsigned integer) run JavaScript in general, so they are parameters. */
module Engine {
  import opened Common
  import NumberConversion

  /** A native C++ object stored in a private slot: its address, and every C++
      type (its own class and all its bases) to which a dynamic_cast of it
      succeeds. */
  datatype Instance = Instance(address: nat, types: set<string>)

  datatype ObjectRecord = ObjectRecord(
    props: map<string, Handle>,
    privateData: Option<Instance>,
    classRef: Handle,
    isFunction: bool,
    isConstructor: bool)

  datatype Value =
    | UndefinedValue
    | NullValue
    | BooleanValue(b: bool)
    | NumberValue(bits: bv64)
    | StringValue(s: string)
    | ObjectValue(record: ObjectRecord)

  /** A plain object with no properties, no private data and no class. */
  function PlainObject(): ObjectRecord
  {
    ObjectRecord(map[], None, Null, false, false)
  }

  /** The conversions the engine performs on values. */
  datatype Coercions = Coercions(
    toBoolean: Value -> bool,
    toNumber: Value -> bv64,
    toString: Value -> string,
    fromUint32: nat -> bv64)

  /** Conversions that behave as ECMA-262 prescribes on the values they are
      applied to here: a boolean, a number and a string convert to
      themselves, and a number made from an unsigned 32-bit integer reads
      back as that integer through to_int32_t. The last conjunct is an
      assumption about the engine's number conversion together with this
      model's to_int32_t: ECMA-262 guarantees it, but NumberConversion proves
      agreement with ECMA-262 only in part, so Uint32RoundTrip rests on it
      rather than deriving it. */
  ghost predicate Faithful(c: Coercions)
  {
    && (forall b: bool :: c.toBoolean(BooleanValue(b)) == b)
    && (forall bits: bv64 :: c.toNumber(NumberValue(bits)) == bits)
    && (forall s: string :: c.toString(StringValue(s)) == s)
    && (forall n: nat :: n < 0x1_0000_0000 ==> (NumberConversion.ToInt32(c.fromUint32(n)) as bv32) as int == n)
  }

  /** JSValue::operator int32_t (src/JSValue.cpp:141-143): to_int32_t of the
      engine's ToNumber, the int32 kept as the low 32 bits of a bv64. */
  function ToInt32(c: Coercions, v: Value): (r: bv64)
    ensures r <= 0xFFFF_FFFF
    ensures Faithful(c) && v.NumberValue? ==> r == NumberConversion.ToInt32(v.bits)
  {
    NumberConversion.ToInt32(c.toNumber(v))
  }

  /** JSValue::operator uint32_t: the same bits read as unsigned (to_int32_t
      also implements ToUint32, src/detail/JSUtil.cpp:77-80). */
  function ToUint32(c: Coercions, v: Value): (n: nat)
    ensures n < 0x1_0000_0000
  {
    (ToInt32(c, v) as bv32) as int
  }

  /** A number made from an unsigned 32-bit integer converts back to it. */
  lemma Uint32RoundTrip(c: Coercions, n: nat)
    requires Faithful(c) && n < 0x1_0000_0000
    ensures ToUint32(c, NumberValue(c.fromUint32(n))) == n
  {
    assert c.toNumber(NumberValue(c.fromUint32(n))) == c.fromUint32(n);
  }

  /** The character of a decimal digit. */
  function DigitChar(d: nat): char
    requires d < 10
  {
    ('0' as int + d) as char
  }

  /** std::to_string of an unsigned integer; also the property name under
      which the engine stores array index `n`. */
  function Decimal(n: nat): (s: string)
    ensures |s| >= 1
    ensures |s| == 1 <==> n < 10
    decreases n
  {
    if n < 10 then [DigitChar(n)] else Decimal(n / 10) + [DigitChar(n % 10)]
  }

  /** Different numbers have different decimal names, so distinct array
      indices are distinct properties. */
  lemma {:induction false} DecimalInjective(a: nat, b: nat)
    requires Decimal(a) == Decimal(b)
    ensures a == b
    decreases a
  {
    if a >= 10 {
      var s := Decimal(a);
      assert s[..|s| - 1] == Decimal(a / 10);
      assert Decimal(b)[..|s| - 1] == Decimal(b / 10);
      DecimalInjective(a / 10, b / 10);
      assert s[|s| - 1] == DigitChar(a % 10) == DigitChar(b % 10);
    }
  }

  /** A decimal name starts with a digit. */
  lemma {:induction false} DecimalStartsWithDigit(n: nat)
    ensures '0' <= Decimal(n)[0] <= '9'
    decreases n
  {
    if n >= 10 {
      DecimalStartsWithDigit(n / 10);
      assert Decimal(n)[0] == Decimal(n / 10)[0];
    }
  }

  /** So no array index names the "length" property. */
  lemma IndexIsNotLength(n: nat)
    ensures Decimal(n) != "length"
  {
    DecimalStartsWithDigit(n);
  }

  /** The engine's value store. */
  class Store {
    var heap: map<Handle, Value>
    var next: Handle
    /** The handle of the undefined value, which a read of a missing property
        yields. */
    var undefinedRef: Handle

    ghost predicate Valid()
      reads this
    {
      && 0 < undefinedRef < next
      && undefinedRef in heap && heap[undefinedRef] == UndefinedValue
      && forall h :: h in heap ==> 0 < h < next
    }

    constructor ()
      ensures Valid()
      ensures heap == map[undefinedRef := UndefinedValue]
    {
      undefinedRef := 1;
      next := 2;
      heap := map[1 := UndefinedValue];
    }

    /** The value behind a handle; a handle the engine never made reads as
        undefined. */
    function ValueOf(h: Handle): Value
      reads this
    {
      if h in heap then heap[h] else UndefinedValue
    }

    predicate IsObject(h: Handle)
      reads this
    {
      ValueOf(h).ObjectValue?
    }

    /** The own properties of an object (none for any other value). */
    function Props(h: Handle): map<string, Handle>
      reads this
    {
      if IsObject(h) then ValueOf(h).record.props else map[]
    }

    /** JSObjectHasProperty. */
    predicate HasProperty(h: Handle, name: string)
      reads this
    {
      name in Props(h)
    }

    /** JSObjectGetProperty: the property's value, or undefined when absent. */
    function GetProperty(h: Handle, name: string): Handle
      reads this
    {
      if name in Props(h) then Props(h)[name] else undefinedRef
    }

    /** JSObjectGetPropertyAtIndex. */
    function GetPropertyAtIndex(h: Handle, index: nat): Handle
      reads this
    {
      GetProperty(h, Decimal(index))
    }

    /** Making a value (JSValueMake*, JSObjectMake, ...) gives a new handle. */
    method Make(v: Value) returns (h: Handle)
      requires Valid()
      modifies this
      ensures Valid()
      ensures h !in old(heap) && h != Null && h != undefinedRef
      ensures heap == old(heap)[h := v]
      ensures undefinedRef == old(undefinedRef)
    {
      h := next;
      next := next + 1;
      heap := heap[h := v];
    }

    /** JSObjectSetProperty on an object: only that property of that object
        changes. */
    method SetProperty(h: Handle, name: string, value: Handle)
      requires Valid() && IsObject(h)
      modifies this
      ensures Valid()
      ensures heap == old(heap)[h := ObjectValue(old(ValueOf(h)).record.(props := old(Props(h))[name := value]))]
      ensures undefinedRef == old(undefinedRef)
    {
      heap := heap[h := ObjectValue(heap[h].record.(props := heap[h].record.props[name := value]))];
    }

    /** Creating an array of length `n` (JsCreateArray): an object whose
        "length" is the number `n`, truncated to 32 bits as the engine's
        unsigned int parameter does. */
    method MakeArray(c: Coercions, n: nat) returns (a: Handle)
      requires Valid()
      modifies this
      ensures Valid()
      ensures a !in old(heap) && a != Null
      ensures IsObject(a) && Props(a).Keys == {"length"}
      ensures ValueOf(GetProperty(a, "length")) == NumberValue(c.fromUint32(n % 0x1_0000_0000))
      ensures forall h :: h in old(heap) ==> h in heap && heap[h] == old(heap)[h]
      ensures undefinedRef == old(undefinedRef)
    {
      var length := Make(NumberValue(c.fromUint32(n % 0x1_0000_0000)));
      a := Make(ObjectValue(PlainObject().(props := map["length" := length])));
    }
  }
}
