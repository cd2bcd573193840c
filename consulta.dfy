/** `processDataSolr` and the end of `filterByUniqueName`
    (consultaHandler.js:68-101, 196-202): the optional federative-entity
    filter, the ranking of the processed groups by maximum salary, and the
    de-duplicated list of federative entities. */
module Consulta {
  import opened JsValues
  import opened Seqs
  import opened JsStrings
  import opened StableSort
  import opened Grouping
  import opened Aggregation
  import opened Requests

  // ---------------------------------------------------------------------
  // The federative-entity filter (lines 76-81)

  /** A record passes the entity filter when its federative entity is a
      non-empty string that contains the filter, both lower-cased. */
  predicate MatchesEntidad(item: Item, filtro: string) {
    Truthy(item.entidadfederativa)
    && Includes(ToLower(item.entidadfederativa.s), ToLower(filtro))
  }

  /** The records that pass the entity filter, in their original order. */
  function Matching(datos: seq<Item>, filtro: string): seq<Item>
    decreases |datos|
  {
    if datos == [] then []
    else
      var x := datos[|datos| - 1];
      Matching(datos[..|datos| - 1], filtro) + (if MatchesEntidad(x, filtro) then [x] else [])
  }

  /** `datosFiltrados`: filtered only when the requested entity is truthy. */
  function FilterByEntidad(datos: seq<Item>, entidad: JsText): seq<Item> {
    if Truthy(entidad) then Matching(datos, entidad.s) else datos
  }

  /** The filter keeps exactly the matching records. */
  lemma {:induction false} MatchingMembers(datos: seq<Item>, filtro: string, x: Item)
    ensures x in Matching(datos, filtro) <==> x in datos && MatchesEntidad(x, filtro)
    decreases |datos|
  {
    if datos != [] {
      var p := datos[..|datos| - 1];
      MatchingMembers(p, filtro, x);
      assert datos == p + [datos[|datos| - 1]];
    }
  }

  /** With a truthy entity only records whose non-empty entity contains it,
      ignoring case, are processed; without one every record is. */
  lemma FilterByEntidadSpec(datos: seq<Item>, entidad: JsText, x: Item)
    ensures x in FilterByEntidad(datos, entidad) <==>
      x in datos && (!Truthy(entidad) || MatchesEntidad(x, entidad.s))
  {
    if Truthy(entidad) {
      MatchingMembers(datos, entidad.s, x);
    }
  }

  /** A matching record's entity contains the requested text at some
      position, once both are lower-cased. */
  lemma MatchMeans(x: Item, filtro: string)
    requires MatchesEntidad(x, filtro)
    ensures x.entidadfederativa.Str? && x.entidadfederativa.s != ""
    ensures exists i :: OccursAt(ToLower(x.entidadfederativa.s), ToLower(filtro), i)
  {
    IncludesSpec(ToLower(x.entidadfederativa.s), ToLower(filtro));
  }

  // ---------------------------------------------------------------------
  // The ranking (lines 149, 196-202)

  /** Each group, in insertion order, turned into its summary and sort key. */
  function Processed(entries: seq<Entry>): (r: seq<Ranked>)
    ensures |r| == |entries|
    ensures forall i :: 0 <= i < |entries| ==> r[i] == Process(entries[i].group)
  {
    seq(|entries|, i requires 0 <= i < |entries| => Process(entries[i].group))
  }

  /** The key of `(a, b) => b.sueldoMaxNumerico - a.sueldoMaxNumerico`. */
  function RankKey(r: Ranked): JsNumber {
    r.sueldoMaxNumerico
  }

  /** The destructuring `map` that drops `sueldoMaxNumerico`. */
  function Strip(rs: seq<Ranked>): (r: seq<Summary>)
    ensures |r| == |rs|
    ensures forall i :: 0 <= i < |rs| ==> r[i] == rs[i].summary
  {
    seq(|rs|, i requires 0 <= i < |rs| => rs[i].summary)
  }

  /** The processed groups in the order the sort leaves them. */
  function Ranking(data: seq<Item>): seq<Ranked> {
    SortDesc(Processed(GroupAll(data)), RankKey)
  }

  /** What `filterByUniqueName(data)` returns. */
  function UniqueByName(data: seq<Item>): seq<Summary> {
    Strip(Ranking(data))
  }

  /** `filterByUniqueName`: the grouping `forEach`, the per-group processing,
      the in-place sort and the key removal. */
  method FilterByUniqueName(data: seq<Item>) returns (result: seq<Summary>)
    ensures result == UniqueByName(data)
  {
    var m := GroupRecords(data);
    var entries := m.entries;
    var processed: seq<Ranked> := [];
    for i := 0 to |entries|
      invariant |processed| == i
      invariant forall j :: 0 <= j < i ==> processed[j] == Process(entries[j].group)
    {
      var r := ProcessEntry(entries[i].group);
      processed := processed + [r];
    }
    assert processed == Processed(entries);
    var a := new Ranked[|processed|](i requires 0 <= i < |processed| => processed[i]);
    assert a[..] == processed;
    SortInPlace(a, RankKey);
    result := Strip(a[..]);
  }

  lemma StripAppend(a: seq<Ranked>, b: seq<Ranked>)
    ensures Strip(a + b) == Strip(a) + Strip(b)
  {
  }

  lemma {:induction false} StripInsert(t: seq<Ranked>, x: Ranked)
    ensures multiset(Strip(Insert(t, x, RankKey))) == multiset(Strip(t)) + multiset{x.summary}
    decreases |t|
  {
    if t != [] && Greater(RankKey(x), RankKey(t[|t| - 1])) {
      var p := t[..|t| - 1];
      StripInsert(p, x);
      StripAppend(Insert(p, x, RankKey), [t[|t| - 1]]);
      StripAppend(p, [t[|t| - 1]]);
      assert t == p + [t[|t| - 1]];
    } else {
      StripAppend(t, [x]);
    }
  }

  lemma {:induction false} StripSort(s: seq<Ranked>)
    ensures multiset(Strip(SortDesc(s, RankKey))) == multiset(Strip(s))
    decreases |s|
  {
    if s != [] {
      var p := s[..|s| - 1];
      StripSort(p);
      StripInsert(SortDesc(p, RankKey), s[|s| - 1]);
      StripAppend(p, [s[|s| - 1]]);
      assert s == p + [s[|s| - 1]];
    }
  }

  /** The result holds one summary per group: a permutation of the
      processed groups with the sort key removed. */
  lemma RankPermutes(data: seq<Item>)
    ensures multiset(Ranking(data)) == multiset(Processed(GroupAll(data)))
    ensures multiset(UniqueByName(data)) == multiset(Strip(Processed(GroupAll(data))))
    ensures |UniqueByName(data)| == |GroupAll(data)|
  {
    SortPermutes(Processed(GroupAll(data)), RankKey);
    StripSort(Processed(GroupAll(data)));
  }

  /** Groups with the same sort key keep their creation order. */
  lemma RankStable(data: seq<Item>, k: JsNumber)
    ensures WithKey(Ranking(data), RankKey, k) == WithKey(Processed(GroupAll(data)), RankKey, k)
  {
    SortStable(Processed(GroupAll(data)), RankKey, k);
  }

  /** When every kept amount of every group is a number, the result is
      ordered by non-increasing maximum salary. */
  lemma RankSorted(data: seq<Item>)
    requires forall i :: 0 <= i < |GroupAll(data)| ==> FiniteAmounts(Kept(GroupAll(data)[i].group.periodoMontos))
    ensures SortedDesc(Ranking(data), RankKey)
  {
    var ps := Processed(GroupAll(data));
    forall i | 0 <= i < |ps| ensures RankKey(ps[i]).Fin? {
      FiniteKey(GroupAll(data)[i].group);
    }
    SortSorted(ps, RankKey);
  }

  // ---------------------------------------------------------------------
  // The federative-entity list (lines 87-89)

  /** The first record whose name is exactly `nombre` (same kind, same
      text), or None when no record has it. */
  function FindByName(datos: seq<Item>, nombre: JsText): (r: Option<Item>)
    ensures r.Some? ==> r.value in datos && r.value.nombre == nombre
    ensures r.Some? ==> exists i :: 0 <= i < |datos| && datos[i] == r.value
                                  && forall j :: 0 <= j < i ==> datos[j].nombre != nombre
    ensures r.None? ==> forall i :: 0 <= i < |datos| ==> datos[i].nombre != nombre
  {
    if datos == [] then None
    else if datos[0].nombre == nombre then Some(datos[0])
    else FindByName(datos[1..], nombre)
  }

  /** The `map` callback: the entity of the first filtered record with the
      summary's exact name, or null for a summary without a name. */
  function EntityOf(datos: seq<Item>, s: Summary): JsValue {
    if Truthy(s.nombre) then
      match FindByName(datos, s.nombre)
      case None => Undefined
      case Some(d) => d.entidadfederativa
    else Null
  }

  /** The truthy values of `vs`, in order. */
  function TruthyOnly(vs: seq<JsValue>): (r: seq<JsValue>)
    decreases |vs|
  {
    if vs == [] then []
    else TruthyOnly(vs[..|vs| - 1]) + (if Truthy(vs[|vs| - 1]) then [vs[|vs| - 1]] else [])
  }

  /** The entity list of the response: the entity each summary maps to,
      first occurrences only, with the falsy ones dropped. */
  function Entidades(datos: seq<Item>, summaries: seq<Summary>): seq<JsValue> {
    TruthyOnly(Dedup(seq(|summaries|, i requires 0 <= i < |summaries| => EntityOf(datos, summaries[i]))))
  }

  lemma {:induction false} TruthyOnlySpec(vs: seq<JsValue>)
    ensures forall v :: v in TruthyOnly(vs) <==> v in vs && Truthy(v)
    ensures NoDuplicates(vs) ==> NoDuplicates(TruthyOnly(vs))
    decreases |vs|
  {
    if vs != [] {
      var p := vs[..|vs| - 1];
      TruthyOnlySpec(p);
      assert vs == p + [vs[|vs| - 1]];
      if NoDuplicates(vs) {
        assert NoDuplicates(p);
        assert vs[|vs| - 1] !in p;
      }
    }
  }

  /** The entity list has no duplicates and no falsy value, and holds exactly
      the truthy entities the summaries map to. */
  lemma EntidadesSpec(datos: seq<Item>, summaries: seq<Summary>)
    ensures NoDuplicates(Entidades(datos, summaries))
    ensures forall e :: e in Entidades(datos, summaries) ==> e.Str? && e.s != ""
    ensures forall e :: e in Entidades(datos, summaries) <==>
      Truthy(e) && exists i :: 0 <= i < |summaries| && EntityOf(datos, summaries[i]) == e
  {
    var mapped := seq(|summaries|, i requires 0 <= i < |summaries| => EntityOf(datos, summaries[i]));
    DedupSpec(mapped);
    TruthyOnlySpec(Dedup(mapped));
    forall e | e in Entidades(datos, summaries) ensures e.Str? && e.s != "" {
      assert e in Dedup(mapped);
      var i :| 0 <= i < |summaries| && mapped[i] == e;
      assert EntityOf(datos, summaries[i]) == e;
    }
    forall e ensures e in Entidades(datos, summaries) <==>
      Truthy(e) && exists i :: 0 <= i < |summaries| && EntityOf(datos, summaries[i]) == e
    {
      if Truthy(e) && exists i :: 0 <= i < |summaries| && EntityOf(datos, summaries[i]) == e {
        var i :| 0 <= i < |summaries| && EntityOf(datos, summaries[i]) == e;
        assert mapped[i] == e;
      }
    }
  }

  /** Every listed entity is the entity of one of the filtered records. */
  lemma EntidadesFromRecords(datos: seq<Item>, summaries: seq<Summary>, e: JsValue)
    requires e in Entidades(datos, summaries)
    ensures exists d :: d in datos && d.entidadfederativa == e
  {
    EntidadesSpec(datos, summaries);
    var i :| 0 <= i < |summaries| && EntityOf(datos, summaries[i]) == e;
    var d := FindByName(datos, summaries[i].nombre).value;
    assert d in datos && d.entidadfederativa == e;
  }

  // ---------------------------------------------------------------------
  // processDataSolr

  /** The `response` object (without the pass-through `sujetosObligados`). */
  datatype Response = Response(datosSolr: seq<Summary>, entidadesFederativas: seq<JsValue>)

  function ConsultaResponse(datos: seq<Item>, entidad: JsText): Response {
    var filtrados := FilterByEntidad(datos, entidad);
    var summaries := UniqueByName(filtrados);
    Response(summaries, Entidades(filtrados, summaries))
  }

  /** Two records with one name and two obligated entities form two
      summaries, yet the entity list holds only the first record's entity:
      both summaries look their entity up by name and find the first record.
      The second summary's own entity is missing from the list. */
  lemma SharedNameHidesEntity(a: Item, b: Item)
    requires Identifiable(a) && Identifiable(b)
    requires a.nombre == b.nombre && a.sujetoobligado != b.sujetoobligado
    requires a.entidadfederativa != b.entidadfederativa
    ensures |ConsultaResponse([a, b], Null).datosSolr| == 2
    ensures forall e :: e in ConsultaResponse([a, b], Null).entidadesFederativas ==> e == a.entidadfederativa
    ensures b.entidadfederativa !in ConsultaResponse([a, b], Null).entidadesFederativas
  {
    SharedNameList([a, b]);
  }

  /** The case with concrete records: two "Ana" records, one under the
      obligated entity "A" in Jalisco and one under "B" in Colima, give two
      summaries, and the entity list has no "Colima". */
  lemma SharedNameExample()
    ensures var a := Item(Str("Ana"), Null, Str("A"), Str("Jalisco"), Null, Null);
            var b := Item(Str("Ana"), Null, Str("B"), Str("Colima"), Null, Null);
            |ConsultaResponse([a, b], Null).datosSolr| == 2
            && Str("Colima") !in ConsultaResponse([a, b], Null).entidadesFederativas
  {
    var a := Item(Str("Ana"), Null, Str("A"), Str("Jalisco"), Null, Null);
    var b := Item(Str("Ana"), Null, Str("B"), Str("Colima"), Null, Null);
    NamedRecord(a);
    NamedRecord(b);
    SharedNameHidesEntity(a, b);
  }

  /** The same for any two such records given as a sequence. */
  lemma SharedNameList(data: seq<Item>)
    requires |data| == 2 && Identifiable(data[0]) && Identifiable(data[1])
    requires data[0].nombre == data[1].nombre && data[0].sujetoobligado != data[1].sujetoobligado
    ensures |ConsultaResponse(data, Null).datosSolr| == 2
    ensures forall e :: e in ConsultaResponse(data, Null).entidadesFederativas ==> e == data[0].entidadfederativa
  {
    var n := data[0].nombre;
    assert FilterByEntidad(data, Null) == data;
    TwoGroups(data);
    assert forall j :: 0 <= j < |data| ==> data[j].nombre == n by {
      forall j | 0 <= j < |data| ensures data[j].nombre == n {
        assert j == 0 || j == 1;
      }
    }
    SharedNameSummaries(data, n);
    SharedNameEntity(data, UniqueByName(data));
  }

  /** Records of one name under two obligated entities form two groups. */
  lemma TwoGroups(data: seq<Item>)
    requires |data| == 2 && Identifiable(data[0]) && Identifiable(data[1])
    requires data[0].nombre == data[1].nombre && data[0].sujetoobligado != data[1].sujetoobligado
    ensures |UniqueByName(data)| == 2
  {
    DistinctKeys(data[0], data[1]);
    GroupKeys(data);
    GroupCount(data);
    var keys := Keys(GroupAll(data));
    assert UniqueKey(data[0]) in keys;
    assert UniqueKey(data[1]) in keys;
    var i :| 0 <= i < |keys| && keys[i] == UniqueKey(data[0]);
    var j :| 0 <= j < |keys| && keys[j] == UniqueKey(data[1]);
    assert i != j;
  }

  /** Keys of one name and two obligated entities differ. */
  lemma DistinctKeys(a: Item, b: Item)
    requires Identifiable(a) && Identifiable(b)
    requires a.nombre == b.nombre && a.sujetoobligado != b.sujetoobligado
    ensures UniqueKey(a) != UniqueKey(b)
  {
    var n := NormalizedName(a.nombre).value;
    assert UniqueKey(a)[|n| + 1..] == a.sujetoobligado.s;
    assert UniqueKey(b)[|n| + 1..] == b.sujetoobligado.s;
  }

  /** When every record carries the name `n`, so does every summary. */
  lemma SharedNameSummaries(data: seq<Item>, n: JsText)
    requires forall j :: 0 <= j < |data| ==> data[j].nombre == n
    ensures forall s :: s in UniqueByName(data) ==> s.nombre == n
  {
    RankPermutes(data);
    SameNameGroups(data, KeyOf, n);
    var stripped := Strip(Processed(GroupAll(data)));
    forall s | s in UniqueByName(data) ensures s.nombre == n {
      assert s in multiset(stripped);
      var i :| 0 <= i < |stripped| && stripped[i] == s;
      SummaryFields(GroupAll(data)[i].group);
    }
  }

  /** Summaries that all carry the first record's name list at most that
      record's entity. */
  lemma SharedNameEntity(data: seq<Item>, summaries: seq<Summary>)
    requires data != [] && Truthy(data[0].nombre)
    requires forall s :: s in summaries ==> s.nombre == data[0].nombre
    ensures forall e :: e in Entidades(data, summaries) ==> e == data[0].entidadfederativa
  {
    EntidadesSpec(data, summaries);
    forall e | e in Entidades(data, summaries) ensures e == data[0].entidadfederativa {
      var i :| 0 <= i < |summaries| && EntityOf(data, summaries[i]) == e;
      assert summaries[i] in summaries;
    }
  }

  /** `processDataSolr`: records the upstream total on the request, then
      filters, groups and ranks. */
  method ProcessDataSolr(datosSolr: seq<Item>, entidadFederativa: JsText, req: Request)
    returns (response: Response)
    modifies req
    ensures req.totalRegistros == Some(|datosSolr|)
    ensures req.sid == old(req.sid) && req.clientIp == old(req.clientIp)
    ensures req.userAgent == old(req.userAgent) && req.responseData == old(req.responseData)
    ensures response == ConsultaResponse(datosSolr, entidadFederativa)
  {
    req.totalRegistros := Some(|datosSolr|);
    var datosFiltrados := FilterByEntidad(datosSolr, entidadFederativa);
    var filteredData := FilterByUniqueName(datosFiltrados);
    response := Response(filteredData, Entidades(datosFiltrados, filteredData));
  }

  /** The response never lists more professors than the upstream records. */
  lemma ResponseCount(datos: seq<Item>, entidad: JsText)
    ensures |ConsultaResponse(datos, entidad).datosSolr| <= |FilterByEntidad(datos, entidad)| <= |datos|
  {
    var filtrados := FilterByEntidad(datos, entidad);
    RankPermutes(filtrados);
    GroupCount(filtrados);
    if Truthy(entidad) {
      MatchingShorter(datos, entidad.s);
    }
  }

  lemma {:induction false} MatchingShorter(datos: seq<Item>, filtro: string)
    ensures |Matching(datos, filtro)| <= |datos|
    decreases |datos|
  {
    if datos != [] {
      MatchingShorter(datos[..|datos| - 1], filtro);
    }
  }

  /** With a truthy entity filter, every listed entity contains it, ignoring
      case. */
  lemma ListedEntitiesMatch(datos: seq<Item>, entidad: JsText, e: JsValue)
    requires Truthy(entidad)
    requires e in ConsultaResponse(datos, entidad).entidadesFederativas
    ensures e.Str? && Includes(ToLower(e.s), ToLower(entidad.s))
  {
    var filtrados := FilterByEntidad(datos, entidad);
    EntidadesFromRecords(filtrados, UniqueByName(filtrados), e);
    var d :| d in filtrados && d.entidadfederativa == e;
    FilterByEntidadSpec(datos, entidad, d);
  }
}
