/** JSString (src/JSString.cpp): a facade around an engine string handle.
    The engine counts string references itself (JSStringRetain /
    JSStringRelease); the facade adds one for each copy and removes one when
    it goes away. */
module Strings {
  import opened Common
  import opened Lifetime

  /** The UTF-16 code units of one character: a surrogate pair for a
      character outside the Basic Multilingual Plane, one unit otherwise. */
  function CodeUnits(c: char): nat
  {
    if c as int < 0x1_0000 then 1 else 2
  }

  /** The length of `s` in UTF-16 code units, the unit the engine stores
      strings in. */
  function Utf16Length(s: string): (n: nat)
    ensures |s| <= n <= 2 * |s|
    ensures n == |s| <==> forall i :: 0 <= i < |s| ==> s[i] as int < 0x1_0000
  {
    if s == [] then 0 else CodeUnits(s[0]) + Utf16Length(s[1..])
  }

  /** A NUL cuts the engine string short, and a character outside the Basic
      Multilingual Plane counts twice. */
  lemma EngineStringExamples()
    ensures UntilNul("a\0b") == "a"
    ensures Utf16Length("\U{1F600}") == 2
    ensures Utf16Length("a\U{1F600}") == 3
  {
    assert UntilNul("\0b") == "";
    assert Utf16Length("\U{1F600}") == CodeUnits('\U{1F600}') + Utf16Length("");
    assert "a\U{1F600}"[1..] == "\U{1F600}";
  }

  class JSString {
    /** js_string_ref__. */
    var ref: Handle

    /** JSString(const std::string&) (src/JSString.cpp:19-21): the engine
        creates the string from `c_str()`, so from the characters before the
        first NUL, with one reference, which this facade owns; no retain. The
        default constructor (src/JSString.cpp:16-17) is this with the empty
        string. */
    constructor (strings: Pool<string>, text: string)
      requires strings.Valid()
      modifies strings
      ensures strings.Valid()
      ensures ref !in old(strings.contents)
      ensures strings.contents == old(strings.contents)[ref := UntilNul(text)]
      ensures Moves(old(strings.counts), strings.counts, EventSteps(CopyAndSwap, Construct(ref)))
    {
      var h := strings.Create(UntilNul(text));
      ref := h;
      new;
      Retained(old(strings.counts), strings.counts, ref);
    }

    /** JSString(JSStringRef) (src/JSString.cpp:74-77): retain once. */
    constructor Wrap(strings: Pool<string>, ref: Handle)
      requires strings.Valid() && ref in strings.contents
      modifies strings
      ensures strings.Valid() && strings.contents == old(strings.contents)
      ensures this.ref == ref
      ensures Moves(old(strings.counts), strings.counts, EventSteps(CopyAndSwap, Construct(ref)))
    {
      this.ref := ref;
      new;
      strings.Retain(ref);
      Retained(old(strings.counts), strings.counts, ref);
    }

    /** The copy and move constructors (src/JSString.cpp:49-57) share the
        handle and retain it once. */
    constructor Copy(strings: Pool<string>, rhs: JSString)
      requires strings.Valid() && rhs.ref in strings.contents
      modifies strings
      ensures strings.Valid() && strings.contents == old(strings.contents)
      ensures ref == rhs.ref
      ensures Moves(old(strings.counts), strings.counts, EventSteps(CopyAndSwap, CopyOf(rhs.ref)))
    {
      ref := rhs.ref;
      new;
      strings.Retain(ref);
      Retained(old(strings.counts), strings.counts, ref);
    }

    /** The destructor (src/JSString.cpp:45-47): release once. */
    method Destroy(strings: Pool<string>)
      requires strings.Valid() && ref in strings.contents
      modifies strings
      ensures strings.Valid() && strings.contents == old(strings.contents)
      ensures Moves(old(strings.counts), strings.counts, EventSteps(CopyAndSwap, Lifetime.Destroy(ref)))
    {
      strings.Release(ref);
      Released(old(strings.counts), strings.counts, ref);
    }

    /** swap (src/JSString.cpp:65-71): exchange the handles only. */
    method Swap(other: JSString)
      modifies this, other
      ensures ref == old(other.ref) && other.ref == old(ref)
    {
      ref, other.ref := other.ref, ref;
    }

    /** operator= (src/JSString.cpp:59-63) as written: the by-value parameter
        retains the incoming handle, swap hands it over, one more retain
        follows, and the parameter's destructor releases the outgoing
        handle. */
    method Assign(strings: Pool<string>, rhs: JSString)
      requires strings.Valid() && ref in strings.contents && rhs.ref in strings.contents
      modifies this, strings
      ensures strings.Valid() && strings.contents == old(strings.contents)
      ensures ref == old(rhs.ref)
      ensures Moves(old(strings.counts), strings.counts, AssignSteps(ProtectAfterSwap, old(ref), old(rhs.ref)))
    {
      var c0 := strings.counts;
      var parameter := new JSString.Copy(strings, rhs);
      var c1 := strings.counts;
      Swap(parameter);
      strings.Retain(ref);
      var c2 := strings.counts;
      Retained(c1, c2, ref);
      parameter.Destroy(strings);
      MovesThen(c0, c1, c2, [Acquire(old(rhs.ref))], [Acquire(old(rhs.ref))]);
      MovesThen(c0, c2, strings.counts, [Acquire(old(rhs.ref)), Acquire(old(rhs.ref))], [Drop(old(ref))]);
    }

    /** Copy-and-swap assignment, the balanced form of operator=. */
    method AssignBalanced(strings: Pool<string>, rhs: JSString)
      requires strings.Valid() && ref in strings.contents && rhs.ref in strings.contents
      modifies this, strings
      ensures strings.Valid() && strings.contents == old(strings.contents)
      ensures ref == old(rhs.ref)
      ensures Moves(old(strings.counts), strings.counts, AssignSteps(CopyAndSwap, old(ref), old(rhs.ref)))
    {
      var c0 := strings.counts;
      var parameter := new JSString.Copy(strings, rhs);
      var c1 := strings.counts;
      Swap(parameter);
      parameter.Destroy(strings);
      MovesThen(c0, c1, strings.counts, [Acquire(old(rhs.ref))], [Drop(old(ref))]);
    }

    /** length() (src/JSString.cpp:23-25): JSStringGetLength, the number
        of UTF-16 code units of the engine string. */
    function Length(strings: Pool<string>): (n: nat)
      reads this, strings
      requires ref in strings.contents
      ensures |strings.contents[ref]| <= n <= 2 * |strings.contents[ref]|
      ensures n == |strings.contents[ref]| <==>
                forall i :: 0 <= i < |strings.contents[ref]| ==> strings.contents[ref][i] as int < 0x1_0000
    {
      Utf16Length(strings.contents[ref])
    }

    /** size() (src/JSString.cpp:27-29). */
    function Size(strings: Pool<string>): (n: nat)
      reads this, strings
      requires ref in strings.contents
      ensures n == Length(strings)
    {
      Length(strings)
    }

    /** empty() (src/JSString.cpp:31-33): no code units at all. A string
        that starts with a NUL is not empty, though it converts to "". */
    function Empty(strings: Pool<string>): (e: bool)
      reads this, strings
      requires ref in strings.contents
      ensures e <==> strings.contents[ref] == ""
      ensures e ==> Text(strings) == ""
    {
      Length(strings) == 0
    }

    /** operator std::string (src/JSString.cpp:35-43): the engine string
        written out as a NUL-terminated UTF-8 buffer and read back by
        std::string(buffer), which stops at the first NUL. */
    function Text(strings: Pool<string>): (t: string)
      reads this, strings
      requires ref in strings.contents
      ensures |t| <= |strings.contents[ref]| && t == strings.contents[ref][..|t|]
      ensures forall i :: 0 <= i < |t| ==> t[i] != '\0'
      ensures |t| < |strings.contents[ref]| ==> strings.contents[ref][|t|] == '\0'
    {
      UntilNul(strings.contents[ref])
    }
  }
}
