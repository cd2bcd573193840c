/** The per-group aggregation of `filterByUniqueName`
    (consultaHandler.js:149-194): the pairs of a group are parsed, those with
    an end date and an amount are kept, sorted by end date (most recent first),
    and the current, maximum and cumulative salaries are read off them. */
module Aggregation {
  import opened JsValues
  import opened JsStrings
  import opened JsNumbers
  import opened Parsers
  import opened StableSort
  import opened Grouping

  /** A kept pair with its parses: the `Date` the period ends on (its time
      value) and the parsed amount. */
  datatype Dated = Dated(periodo: JsValue, monto: JsValue, fechaFin: JsNumber, montoNumerico: JsNumber)

  /** The accumulator of the maximum `reduce`: a kept pair, or the initial
      `{ montoNumerico: 0 }` whose `monto` and `periodo` are undefined. */
  datatype Candidate = Candidate(monto: JsValue, periodo: JsValue, montoNumerico: JsNumber)

  /** `{ monto, periodo }` of the maximum. */
  datatype SalaryRef = SalaryRef(monto: JsValue, periodo: JsValue)

  /** One output record (the object `filterByUniqueName` returns per group,
      without the auxiliary sort key). */
  datatype Summary = Summary(
    nombre: JsText,
    sujetoObligado: JsText,
    professorId: JsValue,
    entidadFederativa: JsText,
    periodoMontos: seq<PeriodoMonto>,
    sueldoActual: JsValue,
    sueldoMax: SalaryRef,
    sueldoAcumulado: real)

  /** A summary with its `sueldoMaxNumerico` sort key. */
  datatype Ranked = Ranked(summary: Summary, sueldoMaxNumerico: JsNumber)

  /** The `map` and `filter` at lines 152-160 for one pair: kept when the
      date parse is a `Date` (an Invalid Date too) and the amount parse is not
      `null` (NaN too). */
  function Annotated(pm: PeriodoMonto): Option<Dated> {
    var fecha := ParsearFechaFin(pm.periodo);
    var monto := ParsearMonto(pm.monto);
    if fecha.DateObj? && monto.Some? then Some(Dated(pm.periodo, pm.monto, fecha.time, monto.value))
    else None
  }

  /** A `map` followed by a `filter`: the results of `f` that are present,
      in order. */
  function FilterMap<A, B>(s: seq<A>, f: A -> Option<B>): seq<B>
    decreases |s|
  {
    if s == [] then []
    else
      var a := f(s[|s| - 1]);
      FilterMap(s[..|s| - 1], f) + (if a.Some? then [a.value] else [])
  }

  /** The pairs that have both an end date and a parsed amount, in their
      original order (`periodosConFecha` before the sort). */
  function Kept(pms: seq<PeriodoMonto>): seq<Dated> {
    FilterMap(pms, Annotated)
  }

  /** The key of `(a, b) => b.fechaFin - a.fechaFin`. */
  function DateKey(d: Dated): JsNumber {
    d.fechaFin
  }

  /** The kept pairs, latest end date first, in a stable order. */
  function ByDate(pms: seq<PeriodoMonto>): seq<Dated> {
    SortDesc(Kept(pms), DateKey)
  }

  /** The current salary: the raw amount of the first pair in date order,
      or null when no pair was kept. */
  function SueldoActual(sorted: seq<Dated>): JsValue {
    if |sorted| > 0 then sorted[0].monto else Null
  }

  function CandidateOf(d: Dated): Candidate {
    Candidate(d.monto, d.periodo, d.montoNumerico)
  }

  /** The accumulator the maximum starts from when no pair was kept: no
      amount, no period, and a numeric amount of 0. */
  const Fallback: Candidate := Candidate(Undefined, Undefined, Fin(0.0))

  /** The `reduce` at lines 169-171 from the accumulator `init`: a pair
      replaces the accumulator only when its amount is strictly greater. */
  function MaxFold(init: Candidate, s: seq<Dated>): Candidate
    decreases |s|
  {
    if s == [] then init
    else
      var m := MaxFold(init, s[..|s| - 1]);
      var d := s[|s| - 1];
      if Greater(d.montoNumerico, m.montoNumerico) then CandidateOf(d) else m
  }

  /** `sueldoMaxObj`: the reduce starts from the first sorted pair, or from
      `{ montoNumerico: 0 }` when there is none, so it is never null. */
  function SueldoMaxObj(sorted: seq<Dated>): Candidate {
    MaxFold(if |sorted| > 0 then CandidateOf(sorted[0]) else Fallback, sorted)
  }

  /** The `reduce` at lines 179-181: `sum + (montoNumerico || 0)`. */
  function Acumulado(s: seq<Dated>): real
    decreases |s|
  {
    if s == [] then 0.0 else Acumulado(s[..|s| - 1]) + OrZero(s[|s| - 1].montoNumerico)
  }

  /** The processed entry of one group, with its sort key. */
  function Process(g: Group): Ranked {
    var sorted := ByDate(g.periodoMontos);
    var maxObj := SueldoMaxObj(sorted);
    Ranked(
      Summary(g.nombre, g.sujetoObligado, g.professorId, g.entidadFederativa, g.periodoMontos,
              SueldoActual(sorted), SalaryRef(maxObj.monto, maxObj.periodo), Acumulado(sorted)),
      maxObj.montoNumerico)
  }

  /** The same, with the date sort done in place on an array, as the source's
      `periodosConFecha.sort(...)` is. */
  method ProcessEntry(g: Group) returns (r: Ranked)
    ensures r == Process(g)
  {
    var kept := Kept(g.periodoMontos);
    var a := new Dated[|kept|](i requires 0 <= i < |kept| => kept[i]);
    assert a[..] == kept;
    SortInPlace(a, DateKey);
    var sorted := a[..];
    var maxObj := SueldoMaxObj(sorted);
    r := Ranked(
      Summary(g.nombre, g.sujetoObligado, g.professorId, g.entidadFederativa, g.periodoMontos,
              SueldoActual(sorted), SalaryRef(maxObj.monto, maxObj.periodo), Acumulado(sorted)),
      maxObj.montoNumerico);
  }

  // ---------------------------------------------------------------------
  // Which pairs are kept

  /** A pair is kept exactly when its period is a string with a non-empty
      piece after the first `" - "` and its amount is a string: what those
      strings read as (an Invalid Date, NaN) does not matter. */
  lemma KeepCondition(pm: PeriodoMonto)
    ensures Annotated(pm).Some? <==>
      pm.periodo.Str? && |Split(pm.periodo.s, " - ")| >= 2 && Split(pm.periodo.s, " - ")[1] != ""
      && pm.monto.Str?
    ensures Annotated(pm).Some? ==> Annotated(pm).value.montoNumerico == ParseFloat(StripMoney(pm.monto.s))
  {
  }

  /** What a `map` and `filter` keeps is the present results, and only
      those. */
  lemma {:induction false} FilterMapMembers<A, B>(s: seq<A>, f: A -> Option<B>, y: B)
    ensures y in FilterMap(s, f) <==> exists j :: 0 <= j < |s| && f(s[j]) == Some(y)
    decreases |s|
  {
    if s != [] {
      var p := s[..|s| - 1];
      FilterMapMembers(p, f, y);
      if exists j :: 0 <= j < |s| && f(s[j]) == Some(y) {
        var j :| 0 <= j < |s| && f(s[j]) == Some(y);
        if j < |p| { assert p[j] == s[j]; }
      }
      if exists j :: 0 <= j < |p| && f(p[j]) == Some(y) {
        var j :| 0 <= j < |p| && f(p[j]) == Some(y);
        assert s[j] == p[j];
      }
    }
  }

  /** The kept pairs are the annotations of the pairs that have one. */
  lemma KeptMembers(pms: seq<PeriodoMonto>, d: Dated)
    ensures d in Kept(pms) <==> exists j :: 0 <= j < |pms| && Annotated(pms[j]) == Some(d)
  {
    FilterMapMembers(pms, Annotated, d);
  }

  /** Every kept amount label is a string. */
  lemma KeptLabels(pms: seq<PeriodoMonto>)
    ensures forall i :: 0 <= i < |Kept(pms)| ==> Kept(pms)[i].monto.Str?
  {
    forall i | 0 <= i < |Kept(pms)| ensures Kept(pms)[i].monto.Str? {
      KeptMembers(pms, Kept(pms)[i]);
    }
  }

  // ---------------------------------------------------------------------
  // The current salary

  /** `sueldoActual` is null exactly when nothing is kept. */
  lemma CurrentNull(pms: seq<PeriodoMonto>)
    ensures SueldoActual(ByDate(pms)) == Null <==> Kept(pms) == []
  {
    var kept := Kept(pms);
    if kept != [] {
      SortPermutes(kept, DateKey);
      var sorted := ByDate(pms);
      assert sorted[0] in multiset(kept);
      KeptLabels(pms);
    }
  }

  /** With valid end dates, `sueldoActual` is the amount label of the kept
      pair with the latest end date, the earliest-listed one among pairs
      ending on the same day. */
  lemma CurrentIsLatest(pms: seq<PeriodoMonto>, i: nat)
    requires FiniteKeys(Kept(pms), DateKey) && i < |Kept(pms)|
    requires forall j :: 0 <= j < |Kept(pms)| ==> AtLeast(Kept(pms)[i].fechaFin, Kept(pms)[j].fechaFin)
    requires forall j :: 0 <= j < i ==> Kept(pms)[j].fechaFin != Kept(pms)[i].fechaFin
    ensures SueldoActual(ByDate(pms)) == Kept(pms)[i].monto
  {
    SortFirst(Kept(pms), DateKey, i);
  }

  // ---------------------------------------------------------------------
  // The maximum salary

  predicate FiniteAmounts(s: seq<Dated>) {
    forall i :: 0 <= i < |s| ==> s[i].montoNumerico.Fin?
  }

  /** The reduce from a finite accumulator ends at an accumulator no
      smaller than its start or any amount, which is the start or the first
      pair that beats everything before it. */
  lemma {:induction false} MaxFoldSpec(init: Candidate, s: seq<Dated>)
    requires init.montoNumerico.Fin? && FiniteAmounts(s)
    ensures AtLeast(MaxFold(init, s).montoNumerico, init.montoNumerico)
    ensures forall i :: 0 <= i < |s| ==> AtLeast(MaxFold(init, s).montoNumerico, s[i].montoNumerico)
    ensures MaxFold(init, s) == init
            || exists j :: 0 <= j < |s| && MaxFold(init, s) == CandidateOf(s[j])
                           && Greater(s[j].montoNumerico, init.montoNumerico)
                           && forall i :: 0 <= i < j ==> Greater(s[j].montoNumerico, s[i].montoNumerico)
    decreases |s|
  {
    if s != [] {
      var p, d := s[..|s| - 1], s[|s| - 1];
      MaxFoldSpec(init, p);
      var m := MaxFold(init, p);
      assert forall i :: 0 <= i < |p| ==> s[i] == p[i];
      if Greater(d.montoNumerico, m.montoNumerico) {
        assert MaxFold(init, s) == CandidateOf(s[|s| - 1]);
      } else if m != init {
        var j :| 0 <= j < |p| && m == CandidateOf(p[j])
                 && Greater(p[j].montoNumerico, init.montoNumerico)
                 && forall i :: 0 <= i < j ==> Greater(p[j].montoNumerico, p[i].montoNumerico);
        assert s[j] == p[j];
      }
    }
  }

  /** With finite amounts, `sueldoMax` names a kept pair whose amount is at
      least every kept amount, the first such pair in date-descending order;
      its amount is the sort key. */
  lemma MaxIsMax(pms: seq<PeriodoMonto>)
    requires Kept(pms) != [] && FiniteAmounts(Kept(pms))
    ensures var s := ByDate(pms);
            exists j :: 0 <= j < |s| && SueldoMaxObj(s) == CandidateOf(s[j])
                        && (forall i :: 0 <= i < |s| ==> AtLeast(s[j].montoNumerico, s[i].montoNumerico))
                        && (forall i :: 0 <= i < j ==> Greater(s[j].montoNumerico, s[i].montoNumerico))
  {
    var s := ByDate(pms);
    SortPermutes(Kept(pms), DateKey);
    forall i | 0 <= i < |s| ensures s[i].montoNumerico.Fin? {
      assert s[i] in multiset(Kept(pms));
    }
    MaxFoldSpec(CandidateOf(s[0]), s);
  }

  /** A NaN accumulator is never replaced, since no amount is greater than
      NaN. */
  lemma {:induction false} MaxFoldNaN(init: Candidate, s: seq<Dated>)
    requires init.montoNumerico.NaN?
    ensures MaxFold(init, s) == init
    decreases |s|
  {
    if s != [] {
      MaxFoldNaN(init, s[..|s| - 1]);
    }
  }

  /** So when the most recent kept amount is NaN, it is `sueldoMax` and its
      NaN the sort key, whatever the other amounts are. */
  lemma MaxNaNHead(pms: seq<PeriodoMonto>)
    requires ByDate(pms) != [] && ByDate(pms)[0].montoNumerico.NaN?
    ensures SueldoMaxObj(ByDate(pms)) == CandidateOf(ByDate(pms)[0])
    ensures Process(Group(Undefined, Undefined, Undefined, Undefined, pms)).sueldoMaxNumerico.NaN?
  {
    MaxFoldNaN(CandidateOf(ByDate(pms)[0]), ByDate(pms));
  }

  /** The reduce ends at its start or at one of the pairs. */
  lemma {:induction false} MaxFoldFrom(init: Candidate, s: seq<Dated>)
    ensures MaxFold(init, s) == init || exists j :: 0 <= j < |s| && MaxFold(init, s) == CandidateOf(s[j])
    decreases |s|
  {
    if s != [] {
      var p := s[..|s| - 1];
      MaxFoldFrom(init, p);
      assert forall i :: 0 <= i < |p| ==> s[i] == p[i];
    }
  }

  /** With finite kept amounts the sort key is finite. */
  lemma FiniteKey(g: Group)
    requires FiniteAmounts(Kept(g.periodoMontos))
    ensures Process(g).sueldoMaxNumerico.Fin?
  {
    var s := ByDate(g.periodoMontos);
    SortPermutes(Kept(g.periodoMontos), DateKey);
    forall i | 0 <= i < |s| ensures s[i].montoNumerico.Fin? {
      assert s[i] in multiset(Kept(g.periodoMontos));
    }
    MaxFoldFrom(if |s| > 0 then CandidateOf(s[0]) else Fallback, s);
  }

  /** With nothing kept, `sueldoActual` is null, `sueldoMax` has undefined
      fields (it is not null), the sort key is 0 and the sum is 0. */
  lemma NothingKept(g: Group)
    requires Kept(g.periodoMontos) == []
    ensures Process(g).summary.sueldoActual == Null
    ensures Process(g).summary.sueldoMax == SalaryRef(Undefined, Undefined)
    ensures Process(g).sueldoMaxNumerico == Fin(0.0)
    ensures Process(g).summary.sueldoAcumulado == 0.0
  {
    assert ByDate(g.periodoMontos) == [];
  }

  // ---------------------------------------------------------------------
  // The cumulative salary

  /** Inserting adds the new amount to the sum. */
  lemma {:induction false} AcumuladoInsert(t: seq<Dated>, x: Dated, key: Dated -> JsNumber)
    ensures Acumulado(Insert(t, x, key)) == Acumulado(t) + OrZero(x.montoNumerico)
    decreases |t|
  {
    if t != [] && Greater(key(x), key(t[|t| - 1])) {
      var p := t[..|t| - 1];
      AcumuladoInsert(p, x, key);
      var q := Insert(p, x, key) + [t[|t| - 1]];
      assert q[..|q| - 1] == Insert(p, x, key);
    } else {
      var q := t + [x];
      assert q[..|q| - 1] == t;
    }
  }

  /** The sum does not depend on the order the sort leaves: it is the sum
      over the kept pairs in their listed order. */
  lemma {:induction false} AcumuladoSorted(s: seq<Dated>, key: Dated -> JsNumber)
    ensures Acumulado(SortDesc(s, key)) == Acumulado(s)
    decreases |s|
  {
    if s != [] {
      var p := s[..|s| - 1];
      AcumuladoSorted(p, key);
      AcumuladoInsert(SortDesc(p, key), s[|s| - 1], key);
    }
  }

  /** `sueldoAcumulado` is the sum of the kept amounts, NaN counting 0. */
  lemma CumulativeSalary(g: Group)
    ensures Process(g).summary.sueldoAcumulado == Acumulado(Kept(g.periodoMontos))
  {
    AcumuladoSorted(Kept(g.periodoMontos), DateKey);
  }

  /** The emitted `periodoMontos` is the group's full list, unfiltered, and
      the identity fields are the group's. */
  lemma SummaryFields(g: Group)
    ensures Process(g).summary.periodoMontos == g.periodoMontos
    ensures Process(g).summary.nombre == g.nombre && Process(g).summary.professorId == g.professorId
    ensures Process(g).summary.sujetoObligado == g.sujetoObligado
    ensures Process(g).summary.entidadFederativa == g.entidadFederativa
  {
  }
}
