/** The process-wide retain table behind JSValue::Protect and
    JSValue::Unprotect (src/JSValue.cpp). Every JSValue and JSObject facade
    adds one count for the handle it wraps and removes one when it goes away;
    the engine's own protect/unprotect is called only on the 0 -> 1 and
    1 -> 0 transitions. */
module Retain {
  import opened Common

  /** handle -> number of facade references (js_value_retain_count_map__). */
  type Table = map<Handle, nat>

  /** The table never stores a zero count. */
  predicate NoZeroCounts(t: Table)
  {
    forall h :: h in t ==> t[h] > 0
  }

  /** The count of `h`, 0 when it has no entry. */
  function Count(t: Table, h: Handle): nat
  {
    if h in t then t[h] else 0
  }

  /** The table after JSValue::Protect(h). */
  function Protected(t: Table, h: Handle): (r: Table)
    ensures Count(r, h) == Count(t, h) + 1
    ensures h in r
    ensures forall k :: k != h ==> Count(r, k) == Count(t, k) && (k in r <==> k in t)
    ensures NoZeroCounts(t) ==> NoZeroCounts(r)
  {
    if h in t then t[h := t[h] + 1] else t[h := 1]
  }

  /** The table after JSValue::Unprotect(h). An untracked handle is left alone. */
  function Unprotected(t: Table, h: Handle): (r: Table)
    requires NoZeroCounts(t)
    ensures NoZeroCounts(r)
    ensures Count(r, h) == if Count(t, h) == 0 then 0 else Count(t, h) - 1
    ensures h in r <==> Count(t, h) > 1
    ensures forall k :: k != h ==> Count(r, k) == Count(t, k) && (k in r <==> k in t)
  {
    if h !in t then t
    else if t[h] == 1 then t - {h}
    else t[h := t[h] - 1]
  }

  /** An Unprotect right after a Protect of the same handle leaves the table
      as it was. */
  lemma ProtectThenUnprotect(t: Table, h: Handle)
    requires NoZeroCounts(t)
    ensures Unprotected(Protected(t, h), h) == t
  {
    var r := Unprotected(Protected(t, h), h);
    assert forall k :: k in r <==> k in t;
    assert forall k :: k in r ==> r[k] == Count(r, k) == Count(t, k) == t[k];
  }

  /** A call the binding layer makes into the engine's own protect API. */
  datatype EngineCall =
    | ValueProtect(context: Handle, value: Handle)
    | ValueUnprotect(context: Handle, value: Handle)

  function Delta(c: EngineCall, h: Handle): int
  {
    match c
    case ValueProtect(_, v) => if v == h then 1 else 0
    case ValueUnprotect(_, v) => if v == h then -1 else 0
  }

  /** Engine protect calls minus engine unprotect calls made for `h`. */
  function NetProtects(calls: seq<EngineCall>, h: Handle): int
  {
    if calls == [] then 0
    else NetProtects(calls[..|calls| - 1], h) + Delta(calls[|calls| - 1], h)
  }

  lemma NetProtectsAppend(calls: seq<EngineCall>, c: EngineCall, h: Handle)
    ensures NetProtects(calls + [c], h) == NetProtects(calls, h) + Delta(c, h)
  {
    assert (calls + [c])[..|calls|] == calls;
  }

  /** The static js_value_retain_count_map__ together with the (ghost) log of
      the engine calls it has caused. */
  class RetainTable {
    var counts: Table
    ghost var calls: seq<EngineCall>

    /** No zero counts, and a handle is engine-protected (one more protect
        than unprotect) exactly while it has an entry. */
    ghost predicate Valid()
      reads this
    {
      && NoZeroCounts(counts)
      && forall h :: NetProtects(calls, h) == if h in counts then 1 else 0
    }

    constructor ()
      ensures Valid() && counts == map[] && calls == []
    {
      counts := map[];
      calls := [];
    }

    /** JSValue::Protect (src/JSValue.cpp:18-27). */
    method Protect(context: Handle, value: Handle)
      requires Valid()
      modifies this
      ensures Valid()
      ensures counts == Protected(old(counts), value)
      ensures value !in old(counts) ==> calls == old(calls) + [ValueProtect(context, value)]
      ensures value in old(counts) ==> calls == old(calls)
    {
      if value !in counts {
        forall h ensures NetProtects(calls + [ValueProtect(context, value)], h) == NetProtects(calls, h) + Delta(ValueProtect(context, value), h) {
          NetProtectsAppend(calls, ValueProtect(context, value), h);
        }
        calls := calls + [ValueProtect(context, value)];
        counts := counts[value := 1];
      } else {
        counts := counts[value := counts[value] + 1];
      }
    }

    /** JSValue::Unprotect (src/JSValue.cpp:29-41). */
    method Unprotect(context: Handle, value: Handle)
      requires Valid()
      modifies this
      ensures Valid()
      ensures counts == Unprotected(old(counts), value)
      ensures Count(old(counts), value) == 1 ==> calls == old(calls) + [ValueUnprotect(context, value)]
      ensures Count(old(counts), value) != 1 ==> calls == old(calls)
    {
      if value in counts {
        var count := counts[value] - 1;
        if count == 0 {
          forall h ensures NetProtects(calls + [ValueUnprotect(context, value)], h) == NetProtects(calls, h) + Delta(ValueUnprotect(context, value), h) {
            NetProtectsAppend(calls, ValueUnprotect(context, value), h);
          }
          calls := calls + [ValueUnprotect(context, value)];
          counts := counts - {value};
        } else {
          counts := counts[value := count];
        }
      }
    }
  }
}
