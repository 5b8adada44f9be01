/** The null-terminated JSStaticValue and JSStaticFunction tables the binding
    layer builds for the engine from a map keyed by property name: one entry
    per key, in the order the std::unordered_map yields them, then the
    all-null terminator. The order is unspecified, so a table is described
    by the keys it covers and not by its order. */
module StaticTables {

  /** `order` lists every key exactly once, as iterating a map does. */
  ghost predicate Enumerates(order: seq<string>, keys: set<string>)
  {
    && (forall i, j :: 0 <= i < j < |order| ==> order[i] != order[j])
    && (forall n :: n in keys <==> n in order)
  }

  /** The entries built for the keys in `order`, one per key. */
  function Entries<E>(order: seq<string>, entry: string -> E): seq<E>
  {
    seq(|order|, i requires 0 <= i < |order| => entry(order[i]))
  }

  /** `t` is a table of `entry` for the keys: the entries in some order that
      enumerates the keys, then the terminator. */
  ghost predicate IsTable<E>(t: seq<E>, keys: set<string>, entry: string -> E, sentinel: E)
  {
    exists order :: Enumerates(order, keys) && t == Entries(order, entry) + [sentinel]
  }

  /** The step of a building loop: one more key, one more entry. */
  lemma EntriesSnoc<E>(order: seq<string>, entry: string -> E, name: string)
    ensures Entries(order + [name], entry) == Entries(order, entry) + [entry(name)]
  {
  }

  lemma EnumeratesSnoc(order: seq<string>, done: set<string>, name: string)
    requires Enumerates(order, done) && name !in done
    ensures Enumerates(order + [name], done + {name})
  {
    assert forall n :: n in order + [name] <==> n in order || n == name;
  }

  /** An enumeration is as long as the set of keys. */
  lemma {:induction false} EnumerationSize(order: seq<string>, keys: set<string>)
    requires Enumerates(order, keys)
    ensures |order| == |keys|
    decreases |order|
  {
    if order != [] {
      var last := order[|order| - 1];
      var prefix := order[..|order| - 1];
      assert order == prefix + [last];
      assert forall n :: n in prefix ==> n != last;
      assert forall n :: n in keys - {last} <==> n in prefix;
      EnumerationSize(prefix, keys - {last});
    } else {
      assert forall n :: n !in keys;
      assert keys == {};
    }
  }

  /** A table has one entry per key, each key's entry exactly once, then the
      terminator, which no entry equals, so it terminates the table exactly
      at its end. */
  lemma TableShape<E>(t: seq<E>, keys: set<string>, entry: string -> E, sentinel: E)
    requires IsTable(t, keys, entry, sentinel)
    requires forall n :: entry(n) != sentinel
    requires forall a, b :: entry(a) == entry(b) ==> a == b
    ensures |t| == |keys| + 1 && t[|t| - 1] == sentinel
    ensures forall i :: 0 <= i < |t| - 1 ==> t[i] != sentinel
    ensures forall i, j :: 0 <= i < j < |t| - 1 ==> t[i] != t[j]
    ensures forall n :: n in keys <==> entry(n) in t[..|t| - 1]
    ensures forall i :: 0 <= i < |t| - 1 ==> exists n :: n in keys && t[i] == entry(n)
  {
    var order :| Enumerates(order, keys) && t == Entries(order, entry) + [sentinel];
    EnumerationSize(order, keys);
    assert t[..|t| - 1] == Entries(order, entry);
    forall n
      ensures n in keys <==> entry(n) in t[..|t| - 1]
    {
      if entry(n) in t[..|t| - 1] {
        var i :| 0 <= i < |order| && t[i] == entry(n);
        assert entry(order[i]) == entry(n);
      }
      if n in keys {
        var i :| 0 <= i < |order| && order[i] == n;
        assert t[i] == entry(n);
      }
    }
    forall i | 0 <= i < |t| - 1
      ensures exists n :: n in keys && t[i] == entry(n)
    {
      assert order[i] in keys && t[i] == entry(order[i]);
    }
  }

  /** Two tables of the same entries for the same keys differ at most in
      order: they have the same length and the same entries. Rebuilding a
      table from unchanged maps therefore gives the same table up to the
      order of iteration. */
  lemma TablesAgree<E>(t1: seq<E>, t2: seq<E>, keys: set<string>, entry: string -> E, sentinel: E)
    requires IsTable(t1, keys, entry, sentinel) && IsTable(t2, keys, entry, sentinel)
    ensures |t1| == |t2|
    ensures forall e :: e in t1 <==> e in t2
  {
    var o1 :| Enumerates(o1, keys) && t1 == Entries(o1, entry) + [sentinel];
    var o2 :| Enumerates(o2, keys) && t2 == Entries(o2, entry) + [sentinel];
    EnumerationSize(o1, keys);
    EnumerationSize(o2, keys);
    forall e | e in t1
      ensures e in t2
    {
      if e != sentinel {
        var i :| 0 <= i < |o1| && t1[i] == e;
        assert o1[i] in o1 && o1[i] in keys && o1[i] in o2;
        var j :| 0 <= j < |o2| && o2[j] == o1[i];
        assert t2[j] == e;
      } else {
        assert t2[|t2| - 1] == e;
      }
    }
    forall e | e in t2
      ensures e in t1
    {
      if e != sentinel {
        var j :| 0 <= j < |o2| && t2[j] == e;
        assert o2[j] in o2 && o2[j] in keys && o2[j] in o1;
        var i :| 0 <= i < |o1| && o1[i] == o2[j];
        assert t1[i] == e;
      } else {
        assert t1[|t1| - 1] == e;
      }
    }
  }
}
