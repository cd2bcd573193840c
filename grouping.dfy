/** The grouping pass of `filterByUniqueName` (consultaHandler.js:106-146):
    the records are folded, in order, into an insertion-ordered `Map` from the
    string key `NAME|SUJETO` to a group holding the first-seen identity fields
    and the list of distinct `(periodo, monto)` pairs. */
module Grouping {
  import opened JsValues
  import opened JsStrings
  import opened Seqs

  /** One upstream salary record (an element of `paylod.datosSolr`). */
  datatype Item = Item(
    nombre: JsText,
    id: JsValue,
    sujetoobligado: JsText,
    entidadfederativa: JsText,
    periodoreporta: JsValue,
    montoneto: JsValue)

  /** One `{periodo, monto}` pair of a group, the raw upstream labels. */
  datatype PeriodoMonto = PeriodoMonto(periodo: JsValue, monto: JsValue)

  /** The value the `Map` holds for a key. */
  datatype Group = Group(
    nombre: JsText,
    professorId: JsValue,
    sujetoObligado: JsText,
    entidadFederativa: JsText,
    periodoMontos: seq<PeriodoMonto>)

  /** One `[key, value]` entry of the `Map`, in insertion order. */
  datatype Entry = Entry(key: string, group: Group)

  /** The name records are grouped by: a non-empty name upper-cased and
      then trimmed, or None for a falsy name. */
  function NormalizedName(nombre: JsText): (r: Option<string>)
    ensures r.None? <==> !Truthy(nombre)
  {
    if nombre.Str? && nombre.s != "" then Some(Trim(ToUpper(nombre.s))) else None
  }

  /** `normalizedName && sujetoObligado`: the record joins a group. */
  predicate Identifiable(item: Item) {
    var n := NormalizedName(item.nombre);
    n.Some? && n.value != "" && Truthy(item.sujetoobligado)
  }

  /** The template literal `${normalizedName}|${sujetoObligado}`. */
  function UniqueKey(item: Item): string
    requires Identifiable(item)
  {
    NormalizedName(item.nombre).value + "|" + item.sujetoobligado.s
  }

  /** The record carries a pair: both its period and its amount are truthy. */
  predicate HasPair(item: Item) {
    Truthy(item.periodoreporta) && Truthy(item.montoneto)
  }

  function PairOf(item: Item): PeriodoMonto {
    PeriodoMonto(item.periodoreporta, item.montoneto)
  }

  /** The key a record is grouped under, or None when it joins no group. */
  function KeyOf(item: Item): (r: Option<string>)
    ensures r.Some? <==> Identifiable(item)
  {
    if Identifiable(item) then Some(UniqueKey(item)) else None
  }

  /** The value stored when a key is first seen: the record's own name (not
      the normalized one), id, obligated entity and federative entity. */
  function NewGroup(item: Item): Group {
    Group(item.nombre, item.id, item.sujetoobligado, item.entidadfederativa, [])
  }

  /** The `some(...)` check and the `push`. Both components of a stored pair
      and of the record's pair are truthy, so `===` on them is the equality of
      their values. */
  function AddPair(g: Group, item: Item): Group {
    if HasPair(item) && PairOf(item) !in g.periodoMontos
    then g.(periodoMontos := g.periodoMontos + [PairOf(item)])
    else g
  }

  function Keys(entries: seq<Entry>): (r: seq<string>)
    ensures |r| == |entries|
    ensures forall i :: 0 <= i < |entries| ==> r[i] == entries[i].key
  {
    seq(|entries|, i requires 0 <= i < |entries| => entries[i].key)
  }

  /** Where key `k` sits among `keys`; `|keys|` when it is absent. */
  function Position(keys: seq<string>, k: string): (r: nat)
    ensures r <= |keys|
    ensures r < |keys| ==> keys[r] == k
    ensures forall j :: 0 <= j < r ==> keys[j] != k
  {
    if keys == [] then 0 else if keys[0] == k then 0 else 1 + Position(keys[1..], k)
  }

  /** `Map.get`: the group stored under `k`, if any. */
  function Lookup(entries: seq<Entry>, k: string): (r: Option<Group>)
    ensures r.Some? <==> k in Keys(entries)
  {
    var i := Position(Keys(entries), k);
    if i < |entries| then Some(entries[i].group) else None
  }

  /** The body of the `forEach` callback, for a record whose key is `key`. */
  function Step(entries: seq<Entry>, item: Item, key: Option<string>): seq<Entry> {
    match key
    case None => entries
    case Some(k) =>
      var i := Position(Keys(entries), k);
      var e := if i == |entries| then entries + [Entry(k, NewGroup(item))] else entries;
      e[i := Entry(k, AddPair(e[i].group, item))]
  }

  /** The `Map` after the whole `forEach`, for any way `keyOf` of keying the
      records; the source's is `KeyOf`. */
  function GroupBy(data: seq<Item>, keyOf: Item -> Option<string>): seq<Entry>
    decreases |data|
  {
    if data == [] then []
    else
      var x := data[|data| - 1];
      Step(GroupBy(data[..|data| - 1], keyOf), x, keyOf(x))
  }

  function GroupAll(data: seq<Item>): seq<Entry> {
    GroupBy(data, KeyOf)
  }

  /** The `Map` as a mutable object: the entries in insertion order. */
  class Combinations {
    var entries: seq<Entry>

    constructor ()
      ensures entries == []
    {
      entries := [];
    }

    /** One `forEach` callback: `set` the new group if the key is unseen, then
        `push` the pair onto the group stored under the key. */
    method Record(item: Item)
      modifies this
      ensures entries == Step(old(entries), item, KeyOf(item))
    {
      var key := KeyOf(item);
      if key.Some? {
        Store(item, key.value);
      }
    }

    /** The callback's body for a record whose key is `k`. */
    method Store(item: Item, k: string)
      modifies this
      ensures entries == Step(old(entries), item, Some(k))
    {
      var i := Position(Keys(entries), k);
      if i == |entries| {
        entries := entries + [Entry(k, NewGroup(item))];
      }
      var entry := entries[i].group;
      if HasPair(item) && PairOf(item) !in entry.periodoMontos {
        entries := entries[i := Entry(k, entry.(periodoMontos := entry.periodoMontos + [PairOf(item)]))];
      }
    }
  }

  /** The whole grouping pass. */
  method GroupRecords(data: seq<Item>) returns (m: Combinations)
    ensures fresh(m)
    ensures m.entries == GroupAll(data)
  {
    m := new Combinations();
    for n := 0 to |data|
      invariant m.entries == GroupBy(data[..n], KeyOf)
    {
      assert data[..n + 1][..n] == data[..n];
      m.Record(data[n]);
    }
    assert data[..|data|] == data;
  }

  // ---------------------------------------------------------------------
  // What the grouping means, stated on the input records

  /** The keys of the records that have one, in input order. */
  function IdentKeys(data: seq<Item>, keyOf: Item -> Option<string>): seq<string>
    decreases |data|
  {
    if data == [] then []
    else
      var x := data[|data| - 1];
      IdentKeys(data[..|data| - 1], keyOf) + (if keyOf(x).Some? then [keyOf(x).value] else [])
  }

  /** The pairs that the records of key `k` carry, in input order. */
  function Pairs(data: seq<Item>, keyOf: Item -> Option<string>, k: string): seq<PeriodoMonto>
    decreases |data|
  {
    if data == [] then []
    else
      var x := data[|data| - 1];
      Pairs(data[..|data| - 1], keyOf, k) + (if keyOf(x) == Some(k) && HasPair(x) then [PairOf(x)] else [])
  }

  /** The first record of key `k`. */
  function FirstWith(data: seq<Item>, keyOf: Item -> Option<string>, k: string): (r: Option<Item>)
    ensures r.Some? ==> keyOf(r.value) == Some(k)
    decreases |data|
  {
    if data == [] then None
    else
      var x := data[|data| - 1];
      var f := FirstWith(data[..|data| - 1], keyOf, k);
      if f.Some? then f else if keyOf(x) == Some(k) then Some(x) else None
  }

  /** The group key `k` should hold: the identity fields of its first record
      and the distinct pairs of all its records, in first-seen order. */
  function Expected(data: seq<Item>, keyOf: Item -> Option<string>, k: string): Option<Group> {
    match FirstWith(data, keyOf, k)
    case None => None
    case Some(x) => Some(NewGroup(x).(periodoMontos := Dedup(Pairs(data, keyOf, k))))
  }

  lemma {:induction false} KeyAbsent(data: seq<Item>, keyOf: Item -> Option<string>, k: string)
    requires k !in IdentKeys(data, keyOf)
    ensures FirstWith(data, keyOf, k) == None && Pairs(data, keyOf, k) == []
    decreases |data|
  {
    if data != [] {
      KeyAbsent(data[..|data| - 1], keyOf, k);
    }
  }

  lemma KeysAppend(e: seq<Entry>, en: Entry)
    ensures Keys(e + [en]) == Keys(e) + [en.key]
  {
  }

  lemma KeysUpdate(e: seq<Entry>, i: nat, en: Entry)
    requires i < |e| && e[i].key == en.key
    ensures Keys(e[i := en]) == Keys(e)
  {
  }

  /** Appending a key leaves the position of every other present key. */
  lemma PositionAppend(keys: seq<string>, k0: string, k: string)
    requires k0 !in keys
    ensures Position(keys + [k0], k) == (if k == k0 then |keys| else if k in keys then Position(keys, k) else |keys| + 1)
  {
    var t := keys + [k0];
    assert t[|keys|] == k0;
    if k == k0 {
      assert forall j :: 0 <= j < |keys| ==> t[j] != k;
    } else if k in keys {
      var p := Position(keys, k);
      assert t[p] == k;
      assert forall j :: 0 <= j < p ==> t[j] != k;
    } else {
      assert forall j :: 0 <= j < |t| ==> t[j] != k;
    }
  }

  lemma DedupAppend<T>(s: seq<T>, x: T)
    ensures Dedup(s + [x]) == (if x in Dedup(s) then Dedup(s) else Dedup(s) + [x])
  {
    assert (s + [x])[..|s|] == s;
  }

  /** The grouping pass builds exactly one group per distinct key of the
      keyed records, in first-seen order, and each holds what `Expected`
      says. */
  lemma {:induction false} GroupBySpec(data: seq<Item>, keyOf: Item -> Option<string>)
    ensures Keys(GroupBy(data, keyOf)) == Dedup(IdentKeys(data, keyOf))
    ensures forall k :: Lookup(GroupBy(data, keyOf), k) == Expected(data, keyOf, k)
    decreases |data|
  {
    if data != [] {
      var p, x := data[..|data| - 1], data[|data| - 1];
      assert data == p + [x];
      GroupBySpec(p, keyOf);
      var e := GroupBy(p, keyOf);
      assert GroupBy(data, keyOf) == Step(e, x, keyOf(x));
      if keyOf(x).Some? {
        StepKeys(e, p, x, keyOf);
        forall k ensures Lookup(Step(e, x, keyOf(x)), k) == Expected(p + [x], keyOf, k) {
          StepLookup(e, p, x, keyOf, k);
        }
      } else {
        assert Step(e, x, keyOf(x)) == e;
        assert IdentKeys(data, keyOf) == IdentKeys(p, keyOf) + [];
        assert IdentKeys(p, keyOf) + [] == IdentKeys(p, keyOf);
        forall k ensures Expected(data, keyOf, k) == Expected(p, keyOf, k) {
          assert Pairs(data, keyOf, k) == Pairs(p, keyOf, k) + [];
          assert Pairs(p, keyOf, k) + [] == Pairs(p, keyOf, k);
          assert FirstWith(data, keyOf, k) == FirstWith(p, keyOf, k);
        }
      }
    }
  }

  /** The keys after one more keyed record. */
  lemma StepKeys(e: seq<Entry>, p: seq<Item>, x: Item, keyOf: Item -> Option<string>)
    requires keyOf(x).Some?
    requires Keys(e) == Dedup(IdentKeys(p, keyOf))
    ensures Keys(Step(e, x, keyOf(x))) == Dedup(IdentKeys(p + [x], keyOf))
  {
    var data := p + [x];
    assert data[..|data| - 1] == p;
    var k0 := keyOf(x).value;
    var i := Position(Keys(e), k0);
    var e1 := if i == |e| then e + [Entry(k0, NewGroup(x))] else e;
    var g := AddPair(e1[i].group, x);
    assert Step(e, x, keyOf(x)) == e1[i := Entry(k0, g)];
    KeysUpdate(e1, i, Entry(k0, g));
    DedupAppend(IdentKeys(p, keyOf), k0);
    assert IdentKeys(data, keyOf) == IdentKeys(p, keyOf) + [k0];
    if i == |e| {
      KeysAppend(e, Entry(k0, NewGroup(x)));
    }
  }

  /** The group under any key `k` after one more keyed record. */
  lemma StepLookup(e: seq<Entry>, p: seq<Item>, x: Item, keyOf: Item -> Option<string>, k: string)
    requires keyOf(x).Some?
    requires Keys(e) == Dedup(IdentKeys(p, keyOf))
    requires Lookup(e, k) == Expected(p, keyOf, k)
    ensures Lookup(Step(e, x, keyOf(x)), k) == Expected(p + [x], keyOf, k)
  {
    var k0 := keyOf(x).value;
    if k != k0 {
      StepOtherKey(e, p, x, keyOf, k);
    } else if k0 in Keys(e) {
      StepOldKey(e, p, x, keyOf);
    } else {
      StepNewKey(e, p, x, keyOf);
    }
  }

  lemma StepOtherKey(e: seq<Entry>, p: seq<Item>, x: Item, keyOf: Item -> Option<string>, k: string)
    requires keyOf(x).Some? && keyOf(x).value != k
    requires Keys(e) == Dedup(IdentKeys(p, keyOf))
    requires Lookup(e, k) == Expected(p, keyOf, k)
    ensures Lookup(Step(e, x, keyOf(x)), k) == Expected(p + [x], keyOf, k)
  {
    var k0 := keyOf(x).value;
    var i := Position(Keys(e), k0);
    var e1 := if i == |e| then e + [Entry(k0, NewGroup(x))] else e;
    var g := AddPair(e1[i].group, x);
    assert Step(e, x, keyOf(x)) == e1[i := Entry(k0, g)];
    if i == |e| {
      LookupAppendOther(e, Entry(k0, NewGroup(x)), k);
    }
    LookupUpdateOther(e1, i, Entry(k0, g), k);
    ExpectedOther(p, x, keyOf, k);
  }

  /** Appending an entry of a new key leaves the lookup of any other key. */
  lemma LookupAppendOther(e: seq<Entry>, en: Entry, k: string)
    requires en.key !in Keys(e) && en.key != k
    ensures Lookup(e + [en], k) == Lookup(e, k)
  {
    KeysAppend(e, en);
    PositionAppend(Keys(e), en.key, k);
  }

  /** Replacing the entry of one key leaves the lookup of any other key. */
  lemma LookupUpdateOther(e: seq<Entry>, i: nat, en: Entry, k: string)
    requires i < |e| && e[i].key == en.key && en.key != k
    ensures Lookup(e[i := en], k) == Lookup(e, k)
  {
    KeysUpdate(e, i, en);
  }

  /** A record of another key changes nothing the key `k` should hold. */
  lemma ExpectedOther(p: seq<Item>, x: Item, keyOf: Item -> Option<string>, k: string)
    requires keyOf(x) != Some(k)
    ensures Expected(p + [x], keyOf, k) == Expected(p, keyOf, k)
  {
    var data := p + [x];
    assert data[..|data| - 1] == p;
    assert Pairs(data, keyOf, k) == Pairs(p, keyOf, k) + [];
    assert Pairs(p, keyOf, k) + [] == Pairs(p, keyOf, k);
    assert FirstWith(data, keyOf, k) == FirstWith(p, keyOf, k);
  }

  lemma StepNewKey(e: seq<Entry>, p: seq<Item>, x: Item, keyOf: Item -> Option<string>)
    requires keyOf(x).Some?
    requires Keys(e) == Dedup(IdentKeys(p, keyOf))
    requires keyOf(x).value !in Keys(e)
    ensures Lookup(Step(e, x, keyOf(x)), keyOf(x).value) == Expected(p + [x], keyOf, keyOf(x).value)
  {
    var data := p + [x];
    assert data[..|data| - 1] == p;
    var k0 := keyOf(x).value;
    DedupSpec(IdentKeys(p, keyOf));
    KeyAbsent(p, keyOf, k0);
    var e1 := e + [Entry(k0, NewGroup(x))];
    var g := AddPair(NewGroup(x), x);
    assert Step(e, x, keyOf(x)) == e1[|e| := Entry(k0, g)];
    KeysAppend(e, Entry(k0, NewGroup(x)));
    KeysUpdate(e1, |e|, Entry(k0, g));
    PositionAppend(Keys(e), k0, k0);
    assert FirstWith(data, keyOf, k0) == Some(x);
    if HasPair(x) {
      assert Pairs(data, keyOf, k0) == [] + [PairOf(x)];
      DedupAppend([], PairOf(x));
    } else {
      assert Pairs(data, keyOf, k0) == [];
      assert Dedup(Pairs(data, keyOf, k0)) == [];
    }
  }

  lemma StepOldKey(e: seq<Entry>, p: seq<Item>, x: Item, keyOf: Item -> Option<string>)
    requires keyOf(x).Some?
    requires Keys(e) == Dedup(IdentKeys(p, keyOf))
    requires Lookup(e, keyOf(x).value) == Expected(p, keyOf, keyOf(x).value)
    requires keyOf(x).value in Keys(e)
    ensures Lookup(Step(e, x, keyOf(x)), keyOf(x).value) == Expected(p + [x], keyOf, keyOf(x).value)
  {
    var data := p + [x];
    assert data[..|data| - 1] == p;
    var k0 := keyOf(x).value;
    var i := Position(Keys(e), k0);
    var g := AddPair(e[i].group, x);
    assert Step(e, x, keyOf(x)) == e[i := Entry(k0, g)];
    KeysUpdate(e, i, Entry(k0, g));
    assert FirstWith(data, keyOf, k0) == FirstWith(p, keyOf, k0);
    if HasPair(x) {
      assert Pairs(data, keyOf, k0) == Pairs(p, keyOf, k0) + [PairOf(x)];
      DedupAppend(Pairs(p, keyOf, k0), PairOf(x));
    } else {
      assert Pairs(data, keyOf, k0) == Pairs(p, keyOf, k0) + [];
      assert Pairs(p, keyOf, k0) + [] == Pairs(p, keyOf, k0);
    }
  }

  // ---------------------------------------------------------------------
  // Membership facts about the specification functions

  lemma {:induction false} IdentKeysMembers(data: seq<Item>, keyOf: Item -> Option<string>, k: string)
    ensures k in IdentKeys(data, keyOf) <==> exists j :: 0 <= j < |data| && keyOf(data[j]) == Some(k)
    decreases |data|
  {
    if data != [] {
      var p, x := data[..|data| - 1], data[|data| - 1];
      IdentKeysMembers(p, keyOf, k);
      if exists j :: 0 <= j < |data| && keyOf(data[j]) == Some(k) {
        var j :| 0 <= j < |data| && keyOf(data[j]) == Some(k);
        if j < |p| { assert p[j] == data[j]; }
      }
      if exists j :: 0 <= j < |p| && keyOf(p[j]) == Some(k) {
        var j :| 0 <= j < |p| && keyOf(p[j]) == Some(k);
        assert data[j] == p[j];
      }
    }
  }

  lemma {:induction false} PairsMembers(data: seq<Item>, keyOf: Item -> Option<string>, k: string, pm: PeriodoMonto)
    ensures pm in Pairs(data, keyOf, k) <==>
      exists j :: 0 <= j < |data| && keyOf(data[j]) == Some(k) && HasPair(data[j]) && PairOf(data[j]) == pm
    decreases |data|
  {
    if data != [] {
      var p, x := data[..|data| - 1], data[|data| - 1];
      PairsMembers(p, keyOf, k, pm);
      if exists j :: 0 <= j < |data| && keyOf(data[j]) == Some(k) && HasPair(data[j]) && PairOf(data[j]) == pm {
        var j :| 0 <= j < |data| && keyOf(data[j]) == Some(k) && HasPair(data[j]) && PairOf(data[j]) == pm;
        if j < |p| { assert p[j] == data[j]; }
      }
      if exists j :: 0 <= j < |p| && keyOf(p[j]) == Some(k) && HasPair(p[j]) && PairOf(p[j]) == pm {
        var j :| 0 <= j < |p| && keyOf(p[j]) == Some(k) && HasPair(p[j]) && PairOf(p[j]) == pm;
        assert data[j] == p[j];
      }
    }
  }

  /** `FirstWith` finds the record of key `k` that no earlier record of key
      `k` precedes. */
  lemma {:induction false} FirstWithIndex(data: seq<Item>, keyOf: Item -> Option<string>, k: string)
    requires FirstWith(data, keyOf, k).Some?
    ensures exists j :: 0 <= j < |data| && data[j] == FirstWith(data, keyOf, k).value
                     && forall i :: 0 <= i < j ==> keyOf(data[i]) != Some(k)
    decreases |data|
  {
    var p, x := data[..|data| - 1], data[|data| - 1];
    if FirstWith(p, keyOf, k).Some? {
      FirstWithIndex(p, keyOf, k);
      var j :| 0 <= j < |p| && p[j] == FirstWith(p, keyOf, k).value
        && forall i :: 0 <= i < j ==> keyOf(p[i]) != Some(k);
      assert data[j] == p[j];
      assert forall i :: 0 <= i < j ==> data[i] == p[i];
    } else {
      FirstWithNone(p, keyOf, k);
      assert forall i :: 0 <= i < |p| ==> data[i] == p[i];
    }
  }

  lemma {:induction false} FirstWithNone(data: seq<Item>, keyOf: Item -> Option<string>, k: string)
    requires FirstWith(data, keyOf, k).None?
    ensures forall i :: 0 <= i < |data| ==> keyOf(data[i]) != Some(k)
    decreases |data|
  {
    if data != [] {
      var p := data[..|data| - 1];
      FirstWithNone(p, keyOf, k);
      assert forall i :: 0 <= i < |p| ==> data[i] == p[i];
    }
  }

  // ---------------------------------------------------------------------
  // The grouping pass of the source, stated on its records

  /** There are at most as many groups as records. */
  lemma GroupCount(data: seq<Item>)
    ensures |GroupAll(data)| <= |data|
  {
    GroupBySpec(data, KeyOf);
    DedupShorter(IdentKeys(data, KeyOf));
    IdentKeysShorter(data, KeyOf);
  }

  /** A record whose name starts with a non-space character and whose
      obligated entity is a non-empty string joins a group. */
  lemma NamedRecord(x: Item)
    requires x.nombre.Str? && x.nombre.s != [] && !IsSpace(x.nombre.s[0])
    requires Truthy(x.sujetoobligado)
    ensures Identifiable(x)
  {
    var u := ToUpper(x.nombre.s);
    UpperSpace(x.nombre.s[0]);
    assert !IsSpace(u[0]);
    TrimSpec(u);
  }

  /** When every record carries the same name, so does every group. */
  lemma {:induction false} SameNameGroups(data: seq<Item>, keyOf: Item -> Option<string>, n: JsText)
    requires forall j :: 0 <= j < |data| ==> data[j].nombre == n
    ensures forall i :: 0 <= i < |GroupBy(data, keyOf)| ==> GroupBy(data, keyOf)[i].group.nombre == n
    decreases |data|
  {
    if data != [] {
      SameNameGroups(data[..|data| - 1], keyOf, n);
    }
  }

  lemma {:induction false} IdentKeysShorter(data: seq<Item>, keyOf: Item -> Option<string>)
    ensures |IdentKeys(data, keyOf)| <= |data|
    decreases |data|
  {
    if data != [] {
      IdentKeysShorter(data[..|data| - 1], keyOf);
    }
  }

  /** There is one group per distinct key of an identifiable record, in the
      order the keys are first seen, and no other group. */
  lemma GroupKeys(data: seq<Item>)
    ensures Keys(GroupAll(data)) == Dedup(IdentKeys(data, KeyOf))
    ensures NoDuplicates(Keys(GroupAll(data)))
    ensures forall k :: k in Keys(GroupAll(data)) <==>
      exists j :: 0 <= j < |data| && Identifiable(data[j]) && UniqueKey(data[j]) == k
  {
    GroupBySpec(data, KeyOf);
    DedupSpec(IdentKeys(data, KeyOf));
    forall k ensures k in Keys(GroupAll(data)) <==>
      exists j :: 0 <= j < |data| && Identifiable(data[j]) && UniqueKey(data[j]) == k
    {
      IdentKeysMembers(data, KeyOf, k);
    }
  }

  /** A group keeps the name, id, obligated entity and federative entity of
      the first record of its key. */
  lemma GroupFirstSeen(data: seq<Item>, k: string, g: Group)
    requires Lookup(GroupAll(data), k) == Some(g)
    ensures exists j :: 0 <= j < |data| && KeyOf(data[j]) == Some(k)
                     && (forall i :: 0 <= i < j ==> KeyOf(data[i]) != Some(k))
                     && g.nombre == data[j].nombre && g.professorId == data[j].id
                     && g.sujetoObligado == data[j].sujetoobligado
                     && g.entidadFederativa == data[j].entidadfederativa
  {
    GroupBySpec(data, KeyOf);
    FirstWithIndex(data, KeyOf, k);
  }

  /** A group's pairs are the distinct truthy pairs of the records of its
      key, in first-seen order. */
  lemma GroupPairs(data: seq<Item>, k: string, g: Group)
    requires Lookup(GroupAll(data), k) == Some(g)
    ensures g.periodoMontos == Dedup(Pairs(data, KeyOf, k))
    ensures NoDuplicates(g.periodoMontos)
    ensures forall pm :: pm in g.periodoMontos <==>
      exists j :: 0 <= j < |data| && KeyOf(data[j]) == Some(k) && HasPair(data[j]) && PairOf(data[j]) == pm
  {
    GroupBySpec(data, KeyOf);
    DedupSpec(Pairs(data, KeyOf, k));
    forall pm ensures pm in g.periodoMontos <==>
      exists j :: 0 <= j < |data| && KeyOf(data[j]) == Some(k) && HasPair(data[j]) && PairOf(data[j]) == pm
    {
      PairsMembers(data, KeyOf, k, pm);
    }
  }

  /** A record without a name or an obligated entity changes nothing. */
  lemma SkippedRecord(data: seq<Item>, x: Item)
    requires !Identifiable(x)
    ensures GroupAll(data + [x]) == GroupAll(data)
  {
    assert (data + [x])[..|data|] == data;
  }

  /** A record without a truthy period or amount still creates its group,
      and adds no pair to it. */
  lemma PairlessRecord(data: seq<Item>, x: Item)
    requires Identifiable(x) && !HasPair(x)
    ensures Lookup(GroupAll(data + [x]), UniqueKey(x))
      == Some(match Lookup(GroupAll(data), UniqueKey(x)) case Some(g) => g case None => NewGroup(x))
  {
    var k := UniqueKey(x);
    var data' := data + [x];
    assert data'[..|data|] == data;
    GroupBySpec(data, KeyOf);
    GroupBySpec(data', KeyOf);
    assert Pairs(data', KeyOf, k) == Pairs(data, KeyOf, k) + [];
    assert Pairs(data, KeyOf, k) + [] == Pairs(data, KeyOf, k);
    if FirstWith(data, KeyOf, k).None? {
      KeyAbsent2(data, k);
    }
  }

  lemma KeyAbsent2(data: seq<Item>, k: string)
    requires FirstWith(data, KeyOf, k).None?
    ensures Pairs(data, KeyOf, k) == []
  {
    FirstWithNone(data, KeyOf, k);
    IdentKeysMembers(data, KeyOf, k);
    KeyAbsent(data, KeyOf, k);
  }

  /** The normalized name ignores letter case. */
  lemma NormalizedIgnoresCase(s: string)
    ensures NormalizedName(Str(ToUpper(s))) == NormalizedName(Str(s))
  {
    UpperTrim(s);
  }

  /** The normalized name ignores white space around the name. */
  lemma NormalizedIgnoresSpace(s: string)
    requires Trim(s) != ""
    ensures NormalizedName(Str(Trim(s))) == NormalizedName(Str(s))
  {
    UpperTrim(s);
    UpperTrim(Trim(s));
    TrimTwice(s);
  }

  /** Without `|` in the names, two records share a key exactly when their
      normalized names and obligated entities are equal. */
  lemma KeyInjective(a: Item, b: Item)
    requires Identifiable(a) && Identifiable(b)
    requires '|' !in NormalizedName(a.nombre).value && '|' !in NormalizedName(b.nombre).value
    ensures UniqueKey(a) == UniqueKey(b) <==>
      NormalizedName(a.nombre) == NormalizedName(b.nombre) && a.sujetoobligado == b.sujetoobligado
  {
    var na, nb := NormalizedName(a.nombre).value, NormalizedName(b.nombre).value;
    if UniqueKey(a) == UniqueKey(b) {
      BarJoinInjective(na, a.sujetoobligado.s, nb, b.sujetoobligado.s);
    }
  }

  lemma BarJoinInjective(n1: string, s1: string, n2: string, s2: string)
    requires '|' !in n1 && '|' !in n2
    requires n1 + "|" + s1 == n2 + "|" + s2
    ensures n1 == n2 && s1 == s2
  {
    var t := n1 + "|" + s1;
    FirstBar(n1, s1);
    FirstBar(n2, s2);
    assert n1 == t[..|n1|] == n2;
    assert s1 == t[|n1| + 1..] == s2;
  }

  /** The first `|` of `n|s` is the one after `n`, when `n` has none. */
  lemma FirstBar(n: string, s: string)
    requires '|' !in n
    ensures IndexOf(n + "|" + s, "|") == |n|
  {
    var t := n + "|" + s;
    assert OccursAt(t, "|", |n|) by {
      assert t[|n|..|n| + 1] == "|";
    }
    forall i | 0 <= i < |n| ensures !OccursAt(t, "|", i) {
      assert t[i] == n[i];
    }
  }

  /** With `|` inside a name, records of different people and different
      obligated entities share one key, and so one group: the normalized
      name `N|M` with the entity `S` and the name `N` with the entity `M|S`
      both give `N|M|S`. */
  lemma KeyCollision(a: Item, b: Item, m: string)
    requires Identifiable(a) && Identifiable(b)
    requires NormalizedName(a.nombre).value == NormalizedName(b.nombre).value + "|" + m
    requires b.sujetoobligado.s == m + "|" + a.sujetoobligado.s
    ensures UniqueKey(a) == UniqueKey(b)
    ensures a.nombre != b.nombre && a.sujetoobligado != b.sujetoobligado
  {
    BarRegroup(NormalizedName(a.nombre).value, NormalizedName(b.nombre).value, m, a.sujetoobligado.s);
    assert |NormalizedName(a.nombre).value| > |NormalizedName(b.nombre).value|;
  }

  lemma BarRegroup(x: string, n: string, m: string, s: string)
    requires x == n + "|" + m
    ensures x + "|" + s == n + "|" + (m + "|" + s)
  {
  }
}
