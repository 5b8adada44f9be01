/** JSPropertyNameArray (src/JSPropertyNameArray.cpp): a facade around an
    engine array of property names, each name an engine string. */
module PropertyNames {
  import opened Common
  import opened Lifetime
  import opened Strings

  class JSPropertyNameArray {
    /** js_property_name_array_ref__. */
    var ref: Handle

    /** JSPropertyNameArray(const JSObject&) (src/JSPropertyNameArray.cpp:61-63):
        JSObjectCopyPropertyNames hands out a new array holding one
        reference, which this facade owns; no retain. `names` are the string
        handles of the names, in the order the engine enumerates them. */
    constructor FromObject(arrays: Pool<seq<Handle>>, names: seq<Handle>)
      requires arrays.Valid()
      modifies arrays
      ensures arrays.Valid()
      ensures ref !in old(arrays.contents)
      ensures arrays.contents == old(arrays.contents)[ref := names]
      ensures GetCount(arrays) == |names|
      ensures Moves(old(arrays.counts), arrays.counts, EventSteps(CopyAndSwap, Construct(ref)))
    {
      var h := arrays.Create(names);
      ref := h;
      new;
      Retained(old(arrays.counts), arrays.counts, ref);
    }

    /** The copy and move constructors (src/JSPropertyNameArray.cpp:38-46)
        share the handle and retain it once. */
    constructor Copy(arrays: Pool<seq<Handle>>, rhs: JSPropertyNameArray)
      requires arrays.Valid() && rhs.ref in arrays.contents
      modifies arrays
      ensures arrays.Valid() && arrays.contents == old(arrays.contents)
      ensures ref == rhs.ref
      ensures Moves(old(arrays.counts), arrays.counts, EventSteps(CopyAndSwap, CopyOf(rhs.ref)))
    {
      ref := rhs.ref;
      new;
      arrays.Retain(ref);
      Retained(old(arrays.counts), arrays.counts, ref);
    }

    /** The destructor (src/JSPropertyNameArray.cpp:34-36). */
    method Destroy(arrays: Pool<seq<Handle>>)
      requires arrays.Valid() && ref in arrays.contents
      modifies arrays
      ensures arrays.Valid() && arrays.contents == old(arrays.contents)
      ensures Moves(old(arrays.counts), arrays.counts, EventSteps(CopyAndSwap, Lifetime.Destroy(ref)))
    {
      arrays.Release(ref);
      Released(old(arrays.counts), arrays.counts, ref);
    }

    /** swap (src/JSPropertyNameArray.cpp:53-59). */
    method Swap(other: JSPropertyNameArray)
      modifies this, other
      ensures ref == old(other.ref) && other.ref == old(ref)
    {
      ref, other.ref := other.ref, ref;
    }

    /** operator= (src/JSPropertyNameArray.cpp:48-51): copy-and-swap. The
        parameter's retain of the incoming handle moves to this facade and
        the parameter's destructor releases the outgoing one. */
    method Assign(arrays: Pool<seq<Handle>>, rhs: JSPropertyNameArray)
      requires arrays.Valid() && ref in arrays.contents && rhs.ref in arrays.contents
      modifies this, arrays
      ensures arrays.Valid() && arrays.contents == old(arrays.contents)
      ensures ref == old(rhs.ref)
      ensures Moves(old(arrays.counts), arrays.counts, AssignSteps(CopyAndSwap, old(ref), old(rhs.ref)))
    {
      var c0 := arrays.counts;
      var parameter := new JSPropertyNameArray.Copy(arrays, rhs);
      var c1 := arrays.counts;
      Swap(parameter);
      parameter.Destroy(arrays);
      MovesThen(c0, c1, arrays.counts, [Acquire(old(rhs.ref))], [Drop(old(ref))]);
    }

    /** GetCount (src/JSPropertyNameArray.cpp:17-19): the number of names
        in the engine's array. */
    function GetCount(arrays: Pool<seq<Handle>>): (n: nat)
      reads this, arrays
      requires ref in arrays.contents
      ensures n == |arrays.contents[ref]|
    {
      |arrays.contents[ref]|
    }

    /** GetNameAtIndex (src/JSPropertyNameArray.cpp:21-23): a JSString
        wrapping the array's name handle, which retains it. */
    method GetNameAtIndex(arrays: Pool<seq<Handle>>, strings: Pool<string>, index: nat) returns (name: JSString)
      requires ref in arrays.contents && index < GetCount(arrays)
      requires strings.Valid() && arrays.contents[ref][index] in strings.contents
      modifies strings
      ensures strings.Valid() && strings.contents == old(strings.contents)
      ensures fresh(name) && name.ref == arrays.contents[ref][index]
      ensures Moves(old(strings.counts), strings.counts, [Acquire(arrays.contents[ref][index])])
    {
      name := new JSString.Wrap(strings, arrays.contents[ref][index]);
    }

    /** operator std::vector<JSString> (src/JSPropertyNameArray.cpp:25-32):
        GetCount names, in index order, each holding one more retain of its
        string; the array itself is only read. */
    method Names(arrays: Pool<seq<Handle>>, strings: Pool<string>) returns (names: seq<JSString>)
      requires ref in arrays.contents
      requires strings.Valid() && forall i :: 0 <= i < |arrays.contents[ref]| ==> arrays.contents[ref][i] in strings.contents
      modifies strings
      ensures strings.Valid() && strings.contents == old(strings.contents)
      ensures |names| == GetCount(arrays)
      ensures forall i :: 0 <= i < |names| ==> names[i].ref == arrays.contents[ref][i]
      ensures Moves(old(strings.counts), strings.counts, AcquireAll(arrays.contents[ref]))
    {
      var all := arrays.contents[ref];
      var count := GetCount(arrays);
      names := [];
      var i := 0;
      Unmoved(strings.counts);
      assert all[..0] == [];
      while i < count
        invariant 0 <= i <= count && |names| == i
        invariant strings.Valid() && strings.contents == old(strings.contents)
        invariant forall j :: 0 <= j < i ==> names[j].ref == all[j]
        invariant Moves(old(strings.counts), strings.counts, AcquireAll(all[..i]))
      {
        var before := strings.counts;
        var name := GetNameAtIndex(arrays, strings, i);
        MovesThen(old(strings.counts), before, strings.counts, AcquireAll(all[..i]), [Acquire(all[i])]);
        assert all[..i + 1][..i] == all[..i];
        names := names + [name];
        i := i + 1;
      }
      assert all[..count] == all;
    }
  }
}
