/** JSError (src/JSError.cpp): error objects made from a js_runtime_error,
    the accessors that read their fields back, and the process-wide native
    stack trace (NativeStack__, a deque of frame descriptions). */
module Errors {
  import opened Common
  import opened Retain
  import opened Engine
  import Objects

  /** detail::js_runtime_error (include/HAL/detail/JSUtil.hpp:23-53): a
      record of the fields of a JavaScript exception. `linenumber` is the
      std::uint32_t field, so it is below 2^32. */
  datatype RuntimeErrorRecord = RuntimeErrorRecord(
    name: string,
    message: string,
    filename: string,
    linenumber: nat,
    stack: string,
    nativeStack: string)

  /** The process-wide JSError::NativeStack__ (src/JSError.cpp:15): its
      front is the oldest frame and its back the most recent. */
  class NativeStack {
    var entries: seq<string>

    constructor ()
      ensures entries == []
    {
      entries := [];
    }

    /** ClearNativeStack (src/JSError.cpp:88-90). */
    method Clear()
      modifies this
      ensures entries == []
    {
      entries := [];
    }

    /** GetNativeStack (src/JSError.cpp:80-86): walk the deque from its back
        to its front, writing one numbered line per frame. The stack is only
        read. */
    method GetNativeStack() returns (trace: string)
      ensures trace == Trace(entries)
    {
      var n := |entries|;
      trace := "";
      var i := 0;
      while i < n
        invariant 0 <= i <= n
        invariant trace == Numbered(Reversed(entries)[..i], 1)
      {
        assert Reversed(entries)[..i + 1] == Reversed(entries)[..i] + [entries[n - 1 - i]];
        NumberedSnoc(Reversed(entries)[..i], entries[n - 1 - i], 1);
        trace := trace + Line(i + 1, entries[n - 1 - i]);
        i := i + 1;
      }
      assert Reversed(entries)[..n] == Reversed(entries);
    }
  }

  /** One line of the trace: the 1-based position, two spaces, the frame and
      a newline. */
  function Line(k: nat, frame: string): (line: string)
    ensures |line| == |Decimal(k)| + |frame| + 3
    ensures line[|line| - 1] == '\n'
  {
    Decimal(k) + "  " + frame + "\n"
  }

  function Reversed(s: seq<string>): (r: seq<string>)
    ensures |r| == |s|
    ensures forall i :: 0 <= i < |s| ==> r[i] == s[|s| - 1 - i]
  {
    if s == [] then [] else Reversed(s[1..]) + [s[0]]
  }

  /** The lines for `frames`, numbered from `k` on. */
  function Numbered(frames: seq<string>, k: nat): string
    decreases |frames|
  {
    if frames == [] then "" else Line(k, frames[0]) + Numbered(frames[1..], k + 1)
  }

  /** The text GetNativeStack returns for a stack holding `entries`. */
  function Trace(entries: seq<string>): string
  {
    Numbered(Reversed(entries), 1)
  }

  /** Appending one frame to the numbered frames appends its line, numbered
      after the others. */
  lemma {:induction false} NumberedSnoc(frames: seq<string>, frame: string, k: nat)
    ensures Numbered(frames + [frame], k) == Numbered(frames, k) + Line(k + |frames|, frame)
    decreases |frames|
  {
    if frames != [] {
      assert (frames + [frame])[1..] == frames[1..] + [frame];
      NumberedSnoc(frames[1..], frame, k + 1);
    } else {
      assert frames + [frame] == [frame];
    }
  }

  /** An empty stack gives the empty string, and only an empty stack does. */
  lemma TraceEmpty(entries: seq<string>)
    ensures Trace(entries) == "" <==> entries == []
  {
    if entries != [] {
      assert |Line(1, Reversed(entries)[0])| > 0;
    }
  }

  /** The most recent frame (the back of the deque) comes first, as line 1,
      followed by the older frames numbered from 2. */
  lemma MostRecentFirst(entries: seq<string>, frame: string)
    ensures Trace(entries + [frame]) == Line(1, frame) + Numbered(Reversed(entries), 2)
  {
    var r := Reversed(entries + [frame]);
    assert r[1..] == Reversed(entries);
  }

  /** The number of newlines in a string. */
  function Newlines(s: string): nat
  {
    if s == "" then 0 else (if s[0] == '\n' then 1 else 0) + Newlines(s[1..])
  }

  lemma {:induction false} NewlinesAppend(a: string, b: string)
    ensures Newlines(a + b) == Newlines(a) + Newlines(b)
    decreases |a|
  {
    if a != "" {
      assert (a + b)[1..] == a[1..] + b;
      NewlinesAppend(a[1..], b);
    } else {
      assert a + b == b;
    }
  }

  lemma {:induction false} DecimalHasNoNewline(n: nat)
    ensures Newlines(Decimal(n)) == 0
    decreases n
  {
    if n >= 10 {
      DecimalHasNoNewline(n / 10);
      NewlinesAppend(Decimal(n / 10), [DigitChar(n % 10)]);
    }
  }

  /** When no frame contains a newline, the trace has exactly one line per
      frame. */
  lemma {:induction false} NumberedLineCount(frames: seq<string>, k: nat)
    requires forall i :: 0 <= i < |frames| ==> Newlines(frames[i]) == 0
    ensures Newlines(Numbered(frames, k)) == |frames|
    decreases |frames|
  {
    if frames != [] {
      DecimalHasNoNewline(k);
      NewlinesAppend(Decimal(k), "  ");
      NewlinesAppend(Decimal(k) + "  ", frames[0]);
      NewlinesAppend(Decimal(k) + "  " + frames[0], "\n");
      NewlinesAppend(Line(k, frames[0]), Numbered(frames[1..], k + 1));
      NumberedLineCount(frames[1..], k + 1);
    }
  }

  lemma TraceLineCount(entries: seq<string>)
    requires forall i :: 0 <= i < |entries| ==> Newlines(entries[i]) == 0
    ensures Newlines(Trace(entries)) == |entries|
  {
    NumberedLineCount(Reversed(entries), 1);
  }

  /** message(), name(), filename(), stack() and nativeStack()
      (src/JSError.cpp:38-57, 66-78): the property converted to a string, or
      "" when the object has no such property. JSValue's operator std::string
      (src/JSValue.cpp:83-100) goes through a JSString, whose operator
      std::string ends at the first NUL. */
  function StringProperty(store: Store, c: Coercions, objectRef: Handle, name: string): (s: string)
    reads store
    ensures !store.HasProperty(objectRef, name) ==> s == ""
    ensures Faithful(c) && store.HasProperty(objectRef, name) && store.ValueOf(store.GetProperty(objectRef, name)).StringValue?
            ==> s == UntilNul(store.ValueOf(store.GetProperty(objectRef, name)).s)
    ensures forall i :: 0 <= i < |s| ==> s[i] != '\0'
  {
    if store.HasProperty(objectRef, name) then UntilNul(c.toString(store.ValueOf(store.GetProperty(objectRef, name)))) else ""
  }

  /** linenumber() (src/JSError.cpp:59-64): the "lineNumber" property as an
      unsigned 32-bit integer, or 0 when the object has no such property. */
  function LineNumber(store: Store, c: Coercions, objectRef: Handle): (n: nat)
    reads store
    ensures n < 0x1_0000_0000
    ensures !store.HasProperty(objectRef, "lineNumber") ==> n == 0
  {
    if store.HasProperty(objectRef, "lineNumber") then ToUint32(c, store.ValueOf(store.GetProperty(objectRef, "lineNumber"))) else 0
  }

  /** The property `name` of the object holds the value `v`. */
  ghost predicate Holds(store: Store, objectRef: Handle, name: string, v: Value)
    reads store
  {
    && store.HasProperty(objectRef, name)
    && store.GetProperty(objectRef, name) in store.heap
    && store.heap[store.GetProperty(objectRef, name)] == v
  }

  /** Every property named in `fields` holds the value given there. */
  ghost predicate HoldsAll(store: Store, objectRef: Handle, fields: map<string, Value>)
    reads store
  {
    forall k :: k in fields ==> Holds(store, objectRef, k, fields[k])
  }

  /** The values the constructor from a js_runtime_error stores, added in
      the order it adds them. CreateString makes each string through a
      JSString, so each keeps only the characters before its first NUL. */
  function Fields(c: Coercions, e: RuntimeErrorRecord): map<string, Value>
  {
    map["message" := StringValue(UntilNul(e.message))]
      ["name" := StringValue(UntilNul(e.name))]
      ["fileName" := StringValue(UntilNul(e.filename))]
      ["stack" := StringValue(UntilNul(e.stack))]
      ["nativeStack" := StringValue(UntilNul(e.nativeStack))]
      ["lineNumber" := NumberValue(c.fromUint32(e.linenumber))]
  }

  /** The object carries the fields of `e` as the constructor stores them. */
  ghost predicate Describes(store: Store, c: Coercions, objectRef: Handle, e: RuntimeErrorRecord)
    reads store
  {
    HoldsAll(store, objectRef, Fields(c, e))
  }

  /** The accessors read back what the constructor from a js_runtime_error
      stored, when the engine's conversions are faithful. */
  lemma ReadBack(store: Store, c: Coercions, objectRef: Handle, e: RuntimeErrorRecord)
    requires Faithful(c) && e.linenumber < 0x1_0000_0000
    requires Describes(store, c, objectRef, e)
    ensures StringProperty(store, c, objectRef, "message") == UntilNul(e.message)
    ensures StringProperty(store, c, objectRef, "name") == UntilNul(e.name)
    ensures StringProperty(store, c, objectRef, "fileName") == UntilNul(e.filename)
    ensures StringProperty(store, c, objectRef, "stack") == UntilNul(e.stack)
    ensures StringProperty(store, c, objectRef, "nativeStack") == UntilNul(e.nativeStack)
    ensures LineNumber(store, c, objectRef) == e.linenumber
  {
    var fields := Fields(c, e);
    assert Holds(store, objectRef, "message", fields["message"]);
    assert Holds(store, objectRef, "name", fields["name"]);
    assert Holds(store, objectRef, "fileName", fields["fileName"]);
    assert Holds(store, objectRef, "stack", fields["stack"]);
    assert Holds(store, objectRef, "nativeStack", fields["nativeStack"]);
    assert Holds(store, objectRef, "lineNumber", fields["lineNumber"]);
    Uint32RoundTrip(c, e.linenumber);
    UntilNulKeepsText(UntilNul(e.message));
    UntilNulKeepsText(UntilNul(e.name));
    UntilNulKeepsText(UntilNul(e.filename));
    UntilNulKeepsText(UntilNul(e.stack));
    UntilNulKeepsText(UntilNul(e.nativeStack));
  }

  /** Every value in `before` other than the one behind `objectRef` is
      still there in `after`. */
  ghost predicate KeepsOthers(before: map<Handle, Value>, after: map<Handle, Value>, objectRef: Handle)
  {
    forall h :: h in before && h != objectRef ==> h in after && after[h] == before[h]
  }

  lemma KeepsOthersTransitive(a: map<Handle, Value>, b: map<Handle, Value>, c: map<Handle, Value>, objectRef: Handle)
    requires KeepsOthers(a, b, objectRef) && KeepsOthers(b, c, objectRef)
    ensures KeepsOthers(a, c, objectRef)
  {
  }

  /** CreateString or CreateNumber followed by SetProperty: a new value
      stored under `name`; the properties in `kept` keep their values and
      every other value in the store stays as it was. */
  method SetNewProperty(store: Store, objectRef: Handle, name: string, v: Value, ghost kept: map<string, Value>)
    requires store.Valid() && store.IsObject(objectRef)
    requires HoldsAll(store, objectRef, kept) && !v.ObjectValue?
    requires forall k :: k in kept ==> !kept[k].ObjectValue?
    modifies store
    ensures store.Valid() && store.IsObject(objectRef)
    ensures HoldsAll(store, objectRef, kept[name := v])
    ensures KeepsOthers(old(store.heap), store.heap, objectRef)
  {
    var h := store.Make(v);
    store.SetProperty(objectRef, name, h);
    ghost var updated := kept[name := v];
    forall k | k in updated
      ensures Holds(store, objectRef, k, updated[k])
    {
      if k != name {
      var hk := old(store.GetProperty(objectRef, k));
      assert store.GetProperty(objectRef, k) == hk;
      assert hk in old(store.heap) && hk != objectRef;
      }
    }
  }

  /** JSError(js_context, js_runtime_error) (src/JSError.cpp:29-36): an Error
      object made with the message as its one argument (JSObjectMakeError
      stores it as "message"), then name, fileName, stack, nativeStack and
      lineNumber set from the record, wrapped in a facade that protects it
      once. */
  method FromRuntimeError(table: RetainTable, store: Store, c: Coercions, context: Handle, e: RuntimeErrorRecord)
      returns (error: Objects.JSObject)
    requires table.Valid() && store.Valid()
    modifies table, store
    ensures table.Valid() && store.Valid() && fresh(error)
    ensures error.context == context && error.ref !in old(store.heap)
    ensures Describes(store, c, error.ref, e)
    ensures KeepsOthers(old(store.heap), store.heap, error.ref)
    ensures table.counts == Protected(old(table.counts), error.ref)
  {
    var message := store.Make(StringValue(UntilNul(e.message)));
    var errorRef := store.Make(ObjectValue(PlainObject().(props := map["message" := message])));
    error := new Objects.JSObject(table, context, errorRef);
    SetFields(store, c, errorRef, e);
  }

  /** The five SetProperty calls of the constructor, on an error object whose
      only property is "message". */
  method SetFields(store: Store, c: Coercions, errorRef: Handle, e: RuntimeErrorRecord)
    requires store.Valid() && store.IsObject(errorRef)
    requires Holds(store, errorRef, "message", StringValue(UntilNul(e.message)))
    modifies store
    ensures store.Valid()
    ensures Describes(store, c, errorRef, e)
    ensures KeepsOthers(old(store.heap), store.heap, errorRef)
  {
    ghost var kept := map["message" := StringValue(UntilNul(e.message))];
    assert HoldsAll(store, errorRef, kept);
    ghost var h0 := store.heap;
    SetNewProperty(store, errorRef, "name", StringValue(UntilNul(e.name)), kept);
    kept := kept["name" := StringValue(UntilNul(e.name))];
    ghost var h1 := store.heap;
    SetNewProperty(store, errorRef, "fileName", StringValue(UntilNul(e.filename)), kept);
    kept := kept["fileName" := StringValue(UntilNul(e.filename))];
    KeepsOthersTransitive(h0, h1, store.heap, errorRef);
    ghost var h2 := store.heap;
    SetNewProperty(store, errorRef, "stack", StringValue(UntilNul(e.stack)), kept);
    kept := kept["stack" := StringValue(UntilNul(e.stack))];
    KeepsOthersTransitive(h0, h2, store.heap, errorRef);
    ghost var h3 := store.heap;
    SetNewProperty(store, errorRef, "nativeStack", StringValue(UntilNul(e.nativeStack)), kept);
    kept := kept["nativeStack" := StringValue(UntilNul(e.nativeStack))];
    KeepsOthersTransitive(h0, h3, store.heap, errorRef);
    ghost var h4 := store.heap;
    SetNewProperty(store, errorRef, "lineNumber", NumberValue(c.fromUint32(e.linenumber)), kept);
    assert kept["lineNumber" := NumberValue(c.fromUint32(e.linenumber))] == Fields(c, e);
    KeepsOthersTransitive(h0, h4, store.heap, errorRef);
  }
}
