/** JSValue (src/JSValue.cpp): a facade around a value handle that holds one
    count in the retain table for as long as it lives. */
module Values {
  import opened Common
  import opened Retain
  import opened Lifetime
  import opened Engine

  class JSValue {
    /** The JSContextRef of js_context__. */
    var context: Handle
    /** js_value_ref__. */
    var ref: Handle

    /** JSValue(JSContext, JSValueRef) (src/JSValue.cpp:240-244): protect the
        wrapped handle once. */
    constructor (table: RetainTable, context: Handle, ref: Handle)
      requires table.Valid()
      modifies table
      ensures table.Valid()
      ensures this.context == context && this.ref == ref
      ensures table.counts == Protected(old(table.counts), ref)
      ensures table.counts == RunTable(old(table.counts), EventSteps(ProtectAfterSwap, Construct(ref)))
    {
      this.context := context;
      this.ref := ref;
      new;
      RunOne(table.counts, Acquire(ref));
      table.Protect(context, ref);
    }

    /** The copy constructor (src/JSValue.cpp:198-202). */
    constructor Copy(table: RetainTable, rhs: JSValue)
      requires table.Valid()
      modifies table
      ensures table.Valid()
      ensures context == rhs.context && ref == rhs.ref
      ensures table.counts == RunTable(old(table.counts), EventSteps(ProtectAfterSwap, CopyOf(rhs.ref)))
    {
      context := rhs.context;
      ref := rhs.ref;
      new;
      RunOne(table.counts, Acquire(ref));
      table.Protect(context, ref);
    }

    /** The move constructor (src/JSValue.cpp:204-208) copies the handle and
        protects it once more: the moved-from facade keeps its count. */
    constructor Move(table: RetainTable, rhs: JSValue)
      requires table.Valid()
      modifies table
      ensures table.Valid()
      ensures context == rhs.context && ref == rhs.ref
      ensures table.counts == RunTable(old(table.counts), EventSteps(ProtectAfterSwap, CopyOf(rhs.ref)))
    {
      context := rhs.context;
      ref := rhs.ref;
      new;
      RunOne(table.counts, Acquire(ref));
      table.Protect(context, ref);
    }

    /** The destructor (src/JSValue.cpp:194-196). */
    method Destroy(table: RetainTable)
      requires table.Valid()
      modifies table
      ensures table.Valid()
      ensures table.counts == RunTable(old(table.counts), EventSteps(ProtectAfterSwap, Lifetime.Destroy(ref)))
    {
      RunOne(table.counts, Drop(ref));
      table.Unprotect(context, ref);
    }

    /** swap (src/JSValue.cpp:216-223): exchange handle and context. */
    method Swap(other: JSValue)
      modifies this, other
      ensures ref == old(other.ref) && context == old(other.context)
      ensures other.ref == old(ref) && other.context == old(context)
    {
      ref, other.ref := other.ref, ref;
      context, other.context := other.context, context;
    }

    /** operator= (src/JSValue.cpp:210-214) as written: the by-value
        parameter protects the incoming handle, swap hands it to this facade,
        Protect adds a second count to it, and the parameter's destructor
        unprotects the outgoing handle. */
    method Assign(table: RetainTable, rhs: JSValue)
      requires table.Valid()
      modifies this, table
      ensures table.Valid()
      ensures ref == old(rhs.ref) && context == old(rhs.context)
      ensures table.counts == RunTable(old(table.counts), AssignSteps(ProtectAfterSwap, old(ref), old(rhs.ref)))
    {
      var t0 := table.counts;
      var parameter := new JSValue.Copy(table, rhs);
      RunOne(t0, Acquire(rhs.ref));
      Swap(parameter);
      table.Protect(context, ref);
      parameter.Destroy(table);
      RunOne(Protected(t0, old(rhs.ref)), Acquire(old(rhs.ref)));
      RunOne(Protected(Protected(t0, old(rhs.ref)), old(rhs.ref)), Drop(old(ref)));
      RunThree(t0, Acquire(old(rhs.ref)), Acquire(old(rhs.ref)), Drop(old(ref)));
    }

    /** Copy-and-swap assignment, the balanced form of operator=: the
        parameter's count moves to this facade and the outgoing handle loses
        the count this facade held. */
    method AssignBalanced(table: RetainTable, rhs: JSValue)
      requires table.Valid()
      modifies this, table
      ensures table.Valid()
      ensures ref == old(rhs.ref) && context == old(rhs.context)
      ensures table.counts == RunTable(old(table.counts), AssignSteps(CopyAndSwap, old(ref), old(rhs.ref)))
    {
      var t0 := table.counts;
      var parameter := new JSValue.Copy(table, rhs);
      RunOne(t0, Acquire(rhs.ref));
      Swap(parameter);
      parameter.Destroy(table);
      RunOne(Protected(t0, old(rhs.ref)), Drop(old(ref)));
      RunTwo(t0, Acquire(old(rhs.ref)), Drop(old(ref)));
    }
  }

  /** to_vector (src/detail/JSUtil.cpp:68-75): the handles of a vector of
      JSValues, same length, same order. */
  function ToVector(values: seq<JSValue>): (refs: seq<Handle>)
    reads values
    ensures |refs| == |values|
    ensures forall i :: 0 <= i < |values| ==> refs[i] == values[i].ref
  {
    if values == [] then [] else [values[0].ref] + ToVector(values[1..])
  }
}
