/** Facade lifetimes over the retain table. A history is a sequence of facade
    events (construct, copy or move, destroy, assign); each event performs the
    Protect/Unprotect steps its C++ member function performs. The theorem
    ReplayCount says what the table holds after any valid history: one count
    per live facade, plus the surplus that some assignment operators leave
    behind. */
module Lifetime {
  import opened Common
  import opened Retain

  /** One retain-table operation: Protect (Acquire) or Unprotect (Drop). */
  datatype Step = Acquire(h: Handle) | Drop(h: Handle)

  function ApplyStep(t: Table, s: Step): (r: Table)
    requires NoZeroCounts(t)
    ensures NoZeroCounts(r)
  {
    match s
    case Acquire(h) => Protected(t, h)
    case Drop(h) => Unprotected(t, h)
  }

  /** The table after performing `steps` in order. */
  function RunTable(t: Table, steps: seq<Step>): (r: Table)
    requires NoZeroCounts(t)
    ensures NoZeroCounts(r)
    decreases |steps|
  {
    if steps == [] then t else RunTable(ApplyStep(t, steps[0]), steps[1..])
  }

  /** Running one, two or three steps. */
  lemma RunOne(t: Table, a: Step)
    requires NoZeroCounts(t)
    ensures RunTable(t, [a]) == ApplyStep(t, a)
  {
    assert RunTable(t, [a]) == RunTable(ApplyStep(t, a), []);
  }

  lemma RunTwo(t: Table, a: Step, b: Step)
    requires NoZeroCounts(t)
    ensures RunTable(t, [a, b]) == ApplyStep(ApplyStep(t, a), b)
  {
    assert [a, b][1..] == [b];
    RunOne(ApplyStep(t, a), b);
  }

  lemma RunThree(t: Table, a: Step, b: Step, c: Step)
    requires NoZeroCounts(t)
    ensures RunTable(t, [a, b, c]) == ApplyStep(ApplyStep(ApplyStep(t, a), b), c)
  {
    assert [a, b, c][1..] == [b, c];
    RunTwo(ApplyStep(t, a), b, c);
  }

  /** How a facade type's operator= moves counts. `held` is the handle the
      receiver holds before the assignment, `incoming` the right-hand side's. */
  datatype AssignStyle =
      /** JSValue and JSString: by-value copy (+incoming), swap, then one more
          protect of the now-held incoming handle; the parameter's destructor
          drops the outgoing one. */
    | ProtectAfterSwap
      /** JSObject: by-value copy (+incoming), protect of the handle still held
          (+outgoing), swap; the parameter's destructor drops the outgoing one. */
    | ProtectBeforeSwap
      /** JSClass (src/JSClass.cpp): by-value copy (+incoming), field copy, one
          more retain of incoming; the parameter, which still holds incoming,
          drops it. */
    | RetainWithoutSwap
      /** Copy-and-swap (JSPropertyNameArray, JSContextGroup): by-value copy
          (+incoming), swap; the parameter drops the outgoing handle. */
    | CopyAndSwap

  function AssignSteps(style: AssignStyle, held: Handle, incoming: Handle): seq<Step>
  {
    match style
    case ProtectAfterSwap => [Acquire(incoming), Acquire(incoming), Drop(held)]
    case ProtectBeforeSwap => [Acquire(incoming), Acquire(held), Drop(held)]
    case RetainWithoutSwap => [Acquire(incoming), Acquire(incoming), Drop(incoming)]
    case CopyAndSwap => [Acquire(incoming), Drop(held)]
  }

  /** What can happen to facades: a facade is constructed around a handle, a
      copy or move of a live facade is made, a live facade is destroyed, or a
      live facade holding `held` is assigned from a live one holding `incoming`. */
  datatype Event =
    | Construct(h: Handle)
    | CopyOf(h: Handle)
    | Destroy(h: Handle)
    | Assign(held: Handle, incoming: Handle)

  function EventSteps(style: AssignStyle, e: Event): seq<Step>
  {
    match e
    case Construct(h) => [Acquire(h)]
    case CopyOf(h) => [Acquire(h)]
    case Destroy(h) => [Drop(h)]
    case Assign(held, incoming) => AssignSteps(style, held, incoming)
  }

  /** How many live facades hold each handle after one event. */
  function After(live: multiset<Handle>, e: Event): multiset<Handle>
  {
    match e
    case Construct(h) => live + multiset{h}
    case CopyOf(h) => live + multiset{h}
    case Destroy(h) => live - multiset{h}
    case Assign(held, incoming) => live - multiset{held} + multiset{incoming}
  }

  /** An event can only copy, destroy or assign facades that are alive. */
  predicate Enabled(live: multiset<Handle>, e: Event)
  {
    match e
    case Construct(_) => true
    case CopyOf(h) => h in live
    case Destroy(h) => h in live
    case Assign(held, incoming) => held in live && incoming in live
  }

  function Live(events: seq<Event>): multiset<Handle>
  {
    if events == [] then multiset{}
    else After(Live(events[..|events| - 1]), events[|events| - 1])
  }

  predicate ValidHistory(events: seq<Event>)
  {
    events == [] ||
    (ValidHistory(events[..|events| - 1]) && Enabled(Live(events[..|events| - 1]), events[|events| - 1]))
  }

  /** Counts an assignment leaves on `h` beyond the one per live facade. */
  function Surplus(style: AssignStyle, e: Event, h: Handle): nat
  {
    match e
    case Assign(held, incoming) =>
      (match style
       case ProtectAfterSwap => if incoming == h then 1 else 0
       case ProtectBeforeSwap => if held == h then 1 else 0
       case RetainWithoutSwap => if held == h then 1 else 0
       case CopyAndSwap => 0)
    case _ => 0
  }

  function Extra(style: AssignStyle, events: seq<Event>, h: Handle): nat
  {
    if events == [] then 0
    else Extra(style, events[..|events| - 1], h) + Surplus(style, events[|events| - 1], h)
  }

  /** The retain table after a history, starting from the empty table. */
  function Replay(style: AssignStyle, events: seq<Event>): (r: Table)
    ensures NoZeroCounts(r)
  {
    if events == [] then map[]
    else RunTable(Replay(style, events[..|events| - 1]), EventSteps(style, events[|events| - 1]))
  }

  /** The change one event makes to the number of live facades holding `k`. */
  function LiveDelta(e: Event, k: Handle): int
  {
    match e
    case Construct(h) => if h == k then 1 else 0
    case CopyOf(h) => if h == k then 1 else 0
    case Destroy(h) => if h == k then -1 else 0
    case Assign(held, incoming) => (if incoming == k then 1 else 0) - (if held == k then 1 else 0)
  }

  /** One event changes the count of every handle by its change in live
      facades plus its surplus, provided the handle it drops is counted. */
  lemma EventCount(style: AssignStyle, t: Table, e: Event, k: Handle)
    requires NoZeroCounts(t)
    requires e.Destroy? ==> Count(t, e.h) >= 1
    requires e.Assign? ==> Count(t, e.held) >= 1
    ensures Count(RunTable(t, EventSteps(style, e)), k) == Count(t, k) + LiveDelta(e, k) + Surplus(style, e, k)
  {
    var steps := EventSteps(style, e);
    var t1 := ApplyStep(t, steps[0]);
    assert RunTable(t, steps) == RunTable(t1, steps[1..]);
    if |steps| >= 2 {
      var t2 := ApplyStep(t1, steps[1]);
      assert RunTable(t1, steps[1..]) == RunTable(t2, steps[2..]);
      if |steps| == 3 {
        assert RunTable(t2, steps[2..]) == RunTable(ApplyStep(t2, steps[2]), []);
      }
    }
  }

  /** P1, retain balance: after any valid history the table holds, for every
      handle, one count per live facade plus the assignment surplus. */
  lemma {:induction false} ReplayCount(style: AssignStyle, events: seq<Event>, h: Handle)
    requires ValidHistory(events)
    ensures Count(Replay(style, events), h) == Live(events)[h] + Extra(style, events, h)
    decreases |events|
  {
    if events != [] {
      var init, e := events[..|events| - 1], events[|events| - 1];
      var t := Replay(style, init);
      assert Replay(style, events) == RunTable(t, EventSteps(style, e));
      ReplayCount(style, init, h);
      if e.Destroy? {
        ReplayCount(style, init, e.h);
      } else if e.Assign? {
        ReplayCount(style, init, e.held);
      }
      EventCount(style, t, e, h);
      LiveAfter(Live(init), e, h);
    }
  }

  lemma LiveAfter(live: multiset<Handle>, e: Event, k: Handle)
    requires Enabled(live, e)
    ensures After(live, e)[k] == live[k] + LiveDelta(e, k)
  {
  }

  /** With copy-and-swap assignment the table is exact: a handle is tracked
      (and so engine-protected) exactly while some facade holds it. */
  lemma BalancedHistoryIsExact(events: seq<Event>, h: Handle)
    requires ValidHistory(events)
    ensures Count(Replay(CopyAndSwap, events), h) == Live(events)[h]
    ensures h in Replay(CopyAndSwap, events) <==> h in Live(events)
  {
    ReplayCount(CopyAndSwap, events, h);
    NoSurplus(events, h);
  }

  lemma {:induction false} NoSurplus(events: seq<Event>, h: Handle)
    ensures Extra(CopyAndSwap, events, h) == 0
    decreases |events|
  {
    if events != [] {
      NoSurplus(events[..|events| - 1], h);
    }
  }

  /** Two facades around handles 1 and 2; the first is assigned from the
      second; both are destroyed. */
  function AssignThenDestroyAll(): seq<Event>
  {
    [Construct(1), Construct(2), Assign(1, 2), Destroy(2), Destroy(2)]
  }

  lemma Snoc(style: AssignStyle, events: seq<Event>, e: Event, k: Handle)
    ensures Live(events + [e]) == After(Live(events), e)
    ensures ValidHistory(events + [e]) <==> ValidHistory(events) && Enabled(Live(events), e)
    ensures Extra(style, events + [e], k) == Extra(style, events, k) + Surplus(style, e, k)
  {
    assert (events + [e])[..|events|] == events;
  }

  /** The sample history is valid, and no facade is left alive at its end;
      the only surplus in it is the one its assignment leaves. */
  lemma AssignThenDestroyAllFacts(style: AssignStyle, k: Handle)
    ensures ValidHistory(AssignThenDestroyAll())
    ensures Live(AssignThenDestroyAll()) == multiset{}
    ensures Extra(style, AssignThenDestroyAll(), k) == Surplus(style, Assign(1, 2), k)
  {
    var e1 := [Construct(1)];
    var e2 := e1 + [Construct(2)];
    var e3 := e2 + [Assign(1, 2)];
    var e4 := e3 + [Destroy(2)];
    var e5 := e4 + [Destroy(2)];
    Snoc(style, [], Construct(1), k);
    assert [] + [Construct(1)] == e1;
    Snoc(style, e1, Construct(2), k);
    Snoc(style, e2, Assign(1, 2), k);
    Snoc(style, e3, Destroy(2), k);
    Snoc(style, e4, Destroy(2), k);
    assert Live(e4) == multiset{2};
    assert e5 == AssignThenDestroyAll();
  }

  /** JSValue / JSString assignment: once every facade is gone the incoming
      handle still has a count in the retain table, so it stays
      engine-protected for ever (JSValue), and the engine's own count of it
      is one retain too high (JSString). */
  lemma ProtectAfterSwapLeaksIncoming()
    ensures ValidHistory(AssignThenDestroyAll())
    ensures Live(AssignThenDestroyAll()) == multiset{}
    ensures Count(Replay(ProtectAfterSwap, AssignThenDestroyAll()), 2) == 1
    ensures NetEvents(ProtectAfterSwap, AssignThenDestroyAll(), 2) == 1
  {
    var e := AssignThenDestroyAll();
    AssignThenDestroyAllFacts(ProtectAfterSwap, 2);
    ReplayCount(ProtectAfterSwap, e, 2);
    EngineBalance(ProtectAfterSwap, e, 2);
  }

  /** JSObject assignment: the handle the receiver held before
      the assignment is never released. */
  lemma ProtectBeforeSwapLeaksOutgoing()
    ensures ValidHistory(AssignThenDestroyAll())
    ensures Live(AssignThenDestroyAll()) == multiset{}
    ensures Count(Replay(ProtectBeforeSwap, AssignThenDestroyAll()), 1) == 1
  {
    var e := AssignThenDestroyAll();
    AssignThenDestroyAllFacts(ProtectBeforeSwap, 1);
    ReplayCount(ProtectBeforeSwap, e, 1);
  }

  /** Engine-side reference counts (JSStringRetain/Release, JSClassRetain/
      Release, ...) are plain counters: every Acquire adds one, every Drop
      removes one, with no table in between. */
  function NetSteps(steps: seq<Step>, h: Handle): int
  {
    if steps == [] then 0
    else
      (match steps[0] case Acquire(x) => if x == h then 1 else 0 case Drop(x) => if x == h then -1 else 0)
      + NetSteps(steps[1..], h)
  }

  /** The counts of a pool after `steps`, against its counts before. */
  ghost predicate Moves(before: map<Handle, int>, after: map<Handle, int>, steps: seq<Step>)
  {
    forall h :: CountIn(after, h) == CountIn(before, h) + NetSteps(steps, h)
  }

  function CountIn(counts: map<Handle, int>, h: Handle): int
  {
    if h in counts then counts[h] else 0
  }

  lemma {:induction false} NetAppend(s1: seq<Step>, s2: seq<Step>, h: Handle)
    ensures NetSteps(s1 + s2, h) == NetSteps(s1, h) + NetSteps(s2, h)
    decreases |s1|
  {
    if s1 != [] {
      assert (s1 + s2)[0] == s1[0] && (s1 + s2)[1..] == s1[1..] + s2;
      NetAppend(s1[1..], s2, h);
    } else {
      assert s1 + s2 == s2;
    }
  }

  /** One retain, or one release, of `h`. */
  lemma Retained(before: map<Handle, int>, after: map<Handle, int>, h: Handle)
    requires after == before[h := CountIn(before, h) + 1]
    ensures Moves(before, after, [Acquire(h)])
  {
    forall k ensures CountIn(after, k) == CountIn(before, k) + NetSteps([Acquire(h)], k) {
      assert [Acquire(h)][1..] == [];
    }
  }

  lemma Released(before: map<Handle, int>, after: map<Handle, int>, h: Handle)
    requires after == before[h := CountIn(before, h) - 1]
    ensures Moves(before, after, [Drop(h)])
  {
    forall k ensures CountIn(after, k) == CountIn(before, k) + NetSteps([Drop(h)], k) {
      assert [Drop(h)][1..] == [];
    }
  }

  lemma MovesThen(c0: map<Handle, int>, c1: map<Handle, int>, c2: map<Handle, int>, s1: seq<Step>, s2: seq<Step>)
    requires Moves(c0, c1, s1) && Moves(c1, c2, s2)
    ensures Moves(c0, c2, s1 + s2)
  {
    forall h ensures CountIn(c2, h) == CountIn(c0, h) + NetSteps(s1 + s2, h) {
      NetAppend(s1, s2, h);
    }
  }

  lemma Unmoved(c: map<Handle, int>)
    ensures Moves(c, c, [])
  {
  }

  /** One acquire of each handle, in order. */
  function AcquireAll(hs: seq<Handle>): (steps: seq<Step>)
    ensures |steps| == |hs|
  {
    if hs == [] then [] else AcquireAll(hs[..|hs| - 1]) + [Acquire(hs[|hs| - 1])]
  }

  /** Running two step lists one after the other. */
  lemma {:induction false} RunAppend(t: Table, s1: seq<Step>, s2: seq<Step>)
    requires NoZeroCounts(t)
    ensures RunTable(t, s1 + s2) == RunTable(RunTable(t, s1), s2)
    decreases |s1|
  {
    if s1 == [] {
      assert s1 + s2 == s2;
    } else {
      assert (s1 + s2)[0] == s1[0] && (s1 + s2)[1..] == s1[1..] + s2;
      RunAppend(ApplyStep(t, s1[0]), s1[1..], s2);
    }
  }

  /** Protecting one more handle after a run of protects. */
  lemma AcquireOneMore(t: Table, hs: seq<Handle>, h: Handle)
    requires NoZeroCounts(t)
    ensures RunTable(t, AcquireAll(hs + [h])) == Protected(RunTable(t, AcquireAll(hs)), h)
  {
    assert (hs + [h])[..|hs|] == hs;
    RunAppend(t, AcquireAll(hs), [Acquire(h)]);
    RunOne(RunTable(t, AcquireAll(hs)), Acquire(h));
  }

  function NetEvents(style: AssignStyle, events: seq<Event>, h: Handle): int
  {
    if events == [] then 0
    else NetEvents(style, events[..|events| - 1], h) + NetSteps(EventSteps(style, events[|events| - 1]), h)
  }

  lemma EventNet(style: AssignStyle, e: Event, k: Handle)
    ensures NetSteps(EventSteps(style, e), k) == LiveDelta(e, k) + Surplus(style, e, k)
  {
    var steps := EventSteps(style, e);
    assert NetSteps(steps, k) == NetSteps(steps[..1], k) + NetSteps(steps[1..], k);
    if |steps| >= 2 {
      assert NetSteps(steps[1..], k) == NetSteps(steps[1..][..1], k) + NetSteps(steps[2..], k);
    }
  }

  /** The same balance for engine-counted facades: the net number of engine
      retains of `h` is its number of live facades plus the surplus. */
  lemma {:induction false} EngineBalance(style: AssignStyle, events: seq<Event>, h: Handle)
    requires ValidHistory(events)
    ensures NetEvents(style, events, h) == Live(events)[h] + Extra(style, events, h)
    decreases |events|
  {
    if events != [] {
      var init, e := events[..|events| - 1], events[|events| - 1];
      EngineBalance(style, init, h);
      EventNet(style, e, h);
    }
  }

  /** JSClass assignment: once every facade is gone the class the receiver
      held before the assignment still has one engine retain too many. */
  lemma RetainWithoutSwapLeaksOutgoing()
    ensures ValidHistory(AssignThenDestroyAll())
    ensures Live(AssignThenDestroyAll()) == multiset{}
    ensures NetEvents(RetainWithoutSwap, AssignThenDestroyAll(), 1) == 1
  {
    var e := AssignThenDestroyAll();
    AssignThenDestroyAllFacts(RetainWithoutSwap, 1);
    EngineBalance(RetainWithoutSwap, e, 1);
  }

  /** With copy-and-swap assignment the engine counts are exact too. */
  lemma BalancedEngineCounts(events: seq<Event>, h: Handle)
    requires ValidHistory(events)
    ensures NetEvents(CopyAndSwap, events, h) == Live(events)[h]
  {
    EngineBalance(CopyAndSwap, events, h);
    NoSurplus(events, h);
  }
}
