/** Shared vocabulary of the model: engine handles, optional values and the
    engine's own reference counts for strings, classes, context groups and
    property-name arrays. */
module Common {

  /** An opaque engine handle (JSValueRef, JSObjectRef, JSStringRef, JSClassRef,
      JSContextRef, ...). Handle 0 stands for the C null pointer. */
  type Handle = nat

  const Null: Handle := 0

  datatype Option<+T> = None | Some(value: T)

  /** The characters before the first NUL. A C string made from `s` holds
      these and no more, since its first NUL ends it. */
  function UntilNul(s: string): (t: string)
    ensures |t| <= |s| && t == s[..|t|]
    ensures forall i :: 0 <= i < |t| ==> t[i] != '\0'
    ensures |t| < |s| ==> s[|t|] == '\0'
  {
    if s == [] || s[0] == '\0' then [] else [s[0]] + UntilNul(s[1..])
  }

  /** A string without NUL passes through a C string unchanged. */
  lemma {:induction false} UntilNulKeepsText(s: string)
    requires forall i :: 0 <= i < |s| ==> s[i] != '\0'
    ensures UntilNul(s) == s
  {
    if s != [] {
      UntilNulKeepsText(s[1..]);
    }
  }

  /** The handles the engine hands out for one kind of reference-counted
      resource (strings, classes, context groups, property-name arrays),
      with what each names and its reference count. Creating a handle gives
      it one reference; JS*Retain adds one, JS*Release removes one. The
      engine never shows the counts to the binding layer, so they are ghost;
      they are ints so that a release too many shows up as a negative count. */
  class Pool<T> {
    var next: Handle
    var contents: map<Handle, T>
    ghost var counts: map<Handle, int>

    ghost predicate Valid()
      reads this
    {
      && next > 0
      && counts.Keys == contents.Keys
      && forall h :: h in contents ==> 0 < h < next
    }

    /** The engine-side count of `h` (0 for a handle never handed out). */
    ghost function Count(h: Handle): int
      reads this
    {
      if h in counts then counts[h] else 0
    }

    constructor ()
      ensures Valid() && contents == map[] && counts == map[]
    {
      next := 1;
      contents := map[];
      counts := map[];
    }

    /** JS*Create: a fresh non-null handle naming `v` that holds exactly one
        reference. */
    method Create(v: T) returns (h: Handle)
      requires Valid()
      modifies this
      ensures Valid()
      ensures h != Null && h !in old(contents)
      ensures contents == old(contents)[h := v]
      ensures counts == old(counts)[h := 1]
    {
      h := next;
      next := next + 1;
      contents := contents[h := v];
      counts := counts[h := 1];
    }

    /** JS*Retain. */
    method Retain(h: Handle)
      requires Valid() && h in contents
      modifies this`counts
      ensures Valid()
      ensures counts == old(counts)[h := old(Count(h)) + 1]
    {
      counts := counts[h := Count(h) + 1];
    }

    /** JS*Release. */
    method Release(h: Handle)
      requires Valid() && h in contents
      modifies this`counts
      ensures Valid()
      ensures counts == old(counts)[h := old(Count(h)) - 1]
    {
      counts := counts[h := Count(h) - 1];
    }
  }
}
