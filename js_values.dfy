/** JavaScript values as the reconciliation engine meets them in upstream JSON
    records and request bodies, with the truthiness the source's `&&`, `||`,
    `if (x)` and `.filter(Boolean)` rely on. */
module JsValues {

  /** A JavaScript number. Finite values are held exactly (no IEEE-754
      rounding); NaN is kept as its own marker because `parseFloat` and
      `new Date(...)` produce it and it changes how comparisons behave. */
  datatype JsNumber = NaN | Fin(value: real)

  /** A JSON-like value: what a field of an upstream record or of a request
      body may hold (objects and arrays are not needed by the core). */
  datatype JsValue = Undefined | Null | Bool(b: bool) | Number(n: JsNumber) | Str(s: string)

  datatype Option<T> = None | Some(value: T)

  /** A field the engine only ever reads as text: missing, null or a string. */
  type JsText = v: JsValue | v.Undefined? || v.Null? || v.Str? witness Undefined

  /** JavaScript truthiness: undefined, null, false, 0, NaN and "" are falsy. */
  predicate Truthy(v: JsValue) {
    match v
    case Undefined => false
    case Null => false
    case Bool(b) => b
    case Number(n) => n.Fin? && n.value != 0.0
    case Str(s) => s != ""
  }

  /** `a > b` on numbers: false as soon as either side is NaN. */
  predicate Greater(a: JsNumber, b: JsNumber) {
    a.Fin? && b.Fin? && a.value > b.value
  }

  /** `a || 0` on a number: NaN and 0 become 0, any other value stays. */
  function OrZero(a: JsNumber): (r: real)
    ensures a.Fin? ==> r == a.value
    ensures a.NaN? ==> r == 0.0
  {
    if a.Fin? then a.value else 0.0
  }

}

/** Sequence helpers the engine's `Set`s and duplicate checks are built from. */
module Seqs {

  /** No element occurs twice. */
  predicate NoDuplicates<T(==)>(s: seq<T>) {
    forall i, j :: 0 <= i < j < |s| ==> s[i] != s[j]
  }

  /** The elements of `s` in order of first occurrence: what inserting them
      one by one into a JavaScript `Set` (or an array guarded by `.some(...)`)
      leaves behind. */
  function Dedup<T(==)>(s: seq<T>): (r: seq<T>)
    decreases |s|
  {
    if s == [] then []
    else
      var d := Dedup(s[..|s| - 1]);
      if s[|s| - 1] in d then d else d + [s[|s| - 1]]
  }

  /** Dedup never lengthens its input. */
  lemma {:induction false} DedupShorter<T>(s: seq<T>)
    ensures |Dedup(s)| <= |s|
    decreases |s|
  {
    if s != [] {
      DedupShorter(s[..|s| - 1]);
    }
  }

  /** Dedup keeps exactly the elements of its input, each once. */
  lemma {:induction false} DedupSpec<T>(s: seq<T>)
    ensures NoDuplicates(Dedup(s))
    ensures forall x :: x in Dedup(s) <==> x in s
    decreases |s|
  {
    if s != [] {
      var p := s[..|s| - 1];
      DedupSpec(p);
      assert s == p + [s[|s| - 1]];
    }
  }
}
