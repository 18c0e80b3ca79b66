/** JSON-like values and the generic string-leaf rewrite applied to them
    (`walkAndTransformStrings` in fix_workflows.js). */
module Json {

  datatype Option<T> = None | Some(value: T)

  /** The scalars that are not strings: JSON null, booleans and numbers.
      They are carried through every transformation untouched. */
  datatype Scalar = Null | Bool(b: bool) | Number(n: int)

  /** A parsed JSON value. An object is the sequence of its members in
      enumeration order; a parsed document never repeats a key. */
  datatype Json =
    | JString(s: string)
    | JArray(items: seq<Json>)
    | JObject(fields: seq<(string, Json)>)
    | JOther(scalar: Scalar)

  /** The keys of an object, in enumeration order. */
  function Keys<V>(fields: seq<(string, V)>): (ks: seq<string>)
    ensures |ks| == |fields|
    ensures forall i :: 0 <= i < |fields| ==> ks[i] == fields[i].0
  {
    seq(|fields|, i requires 0 <= i < |fields| => fields[i].0)
  }

  /** No key occurs twice: the shape of every JavaScript object. */
  predicate DistinctKeys<V>(fields: seq<(string, V)>) {
    forall i, j :: 0 <= i < j < |fields| ==> fields[i].0 != fields[j].0
  }

  /** How one position of the input relates to the same position of the
      output of `Walk`: a string becomes its image under `f`, any other
      scalar stays, an array keeps its length and an object its keys. */
  predicate Corresponds(a: Json, b: Json, f: string -> string) {
    match a
    case JString(s) => b == JString(f(s))
    case JOther(x) => b == JOther(x)
    case JArray(xs) => b.JArray? && |b.items| == |xs|
    case JObject(fs) => b.JObject? && Keys(b.fields) == Keys(fs)
  }

  /** Rebuilds `j` with the same shape, sending every string leaf through
      `f`; object keys are not string leaves and are kept. */
  function Walk(j: Json, f: string -> string): (r: Json)
    ensures Corresponds(j, r, f)
    decreases j
  {
    match j
    case JString(s) => JString(f(s))
    case JArray(xs) =>
      JArray(seq(|xs|, i requires 0 <= i < |xs| => Walk(xs[i], f)))
    case JObject(fs) =>
      JObject(seq(|fs|, i requires 0 <= i < |fs| => (fs[i].0, Walk(fs[i].1, f))))
    case JOther(_) => j
  }

  /** `Walk` applied to the members of an object: the members keep their
      names and order, and each value keeps its shape. */
  function WalkFields(fs: seq<(string, Json)>, f: string -> string): (r: seq<(string, Json)>)
    ensures Keys(r) == Keys(fs)
    ensures forall i :: 0 <= i < |fs| ==> Corresponds(fs[i].1, r[i].1, f)
  {
    Walk(JObject(fs), f).fields
  }

  /** One step into a value: the i-th element of an array or the value of
      the i-th member of an object. */
  datatype Step = Index(i: nat) | Member(i: nat)

  /** The value found by following path `p` from `j`, if the path exists. */
  function At(j: Json, p: seq<Step>): (r: Option<Json>)
    decreases |p|
  {
    if p == [] then Some(j)
    else match (j, p[0])
      case (JArray(xs), Index(i)) => if i < |xs| then At(xs[i], p[1..]) else None
      case (JObject(fs), Member(i)) => if i < |fs| then At(fs[i].1, p[1..]) else None
      case _ => None
  }

  /** Every path of the input is a path of the output and vice versa, and
      at every such position the two values correspond: each string leaf
      `s` has become `f(s)` and nothing else has changed. */
  lemma {:induction false} WalkPointwise(j: Json, f: string -> string, p: seq<Step>)
    ensures At(Walk(j, f), p).Some? <==> At(j, p).Some?
    ensures At(j, p).Some? ==> Corresponds(At(j, p).value, At(Walk(j, f), p).value, f)
    decreases |p|
  {
    if p != [] {
      match (j, p[0])
      case (JArray(xs), Index(i)) =>
        if i < |xs| {
          WalkPointwise(xs[i], f, p[1..]);
        }
      case (JObject(fs), Member(i)) =>
        if i < |fs| {
          WalkPointwise(fs[i].1, f, p[1..]);
        }
      case _ =>
    }
  }

  /** Every string leaf of `j` satisfies `P`; object keys are not leaves. */
  predicate AllStrings(j: Json, P: string -> bool)
    decreases j
  {
    match j
    case JString(s) => P(s)
    case JArray(xs) => forall i :: 0 <= i < |xs| ==> AllStrings(xs[i], P)
    case JObject(fs) => forall i :: 0 <= i < |fs| ==> AllStrings(fs[i].1, P)
    case JOther(_) => true
  }

  /** Every string leaf of a walked value is an image of the transform, so
      it has every property that all images have. */
  lemma {:induction false} WalkAllStrings(j: Json, f: string -> string, P: string -> bool)
    requires forall s :: P(f(s))
    ensures AllStrings(Walk(j, f), P)
    decreases j
  {
    match j
    case JString(s) =>
    case JArray(xs) =>
      forall i | 0 <= i < |xs| ensures AllStrings(Walk(j, f).items[i], P) {
        WalkAllStrings(xs[i], f, P);
      }
    case JObject(fs) =>
      forall i | 0 <= i < |fs| ensures AllStrings(Walk(j, f).fields[i].1, P) {
        WalkAllStrings(fs[i].1, f, P);
      }
    case JOther(_) =>
  }

  /** A transform that fixes every string leaves the value unchanged. */
  lemma {:induction false} WalkFixes(j: Json, f: string -> string)
    requires forall s :: f(s) == s
    ensures Walk(j, f) == j
    decreases j
  {
    match j
    case JString(s) =>
    case JArray(xs) =>
      forall i | 0 <= i < |xs| {
        WalkFixes(xs[i], f);
      }
    case JObject(fs) =>
      forall i | 0 <= i < |fs| {
        WalkFixes(fs[i].1, f);
      }
    case JOther(_) =>
  }

  /** The identity law: walking with the identity function returns the input. */
  lemma WalkIdentity(j: Json)
    ensures Walk(j, s => s) == j
  {
    WalkFixes(j, s => s);
  }

  /** Walking depends only on the values of `f`. */
  lemma {:induction false} WalkCongruence(j: Json, f: string -> string, g: string -> string)
    requires forall s :: f(s) == g(s)
    ensures Walk(j, f) == Walk(j, g)
    decreases j
  {
    match j
    case JString(s) =>
    case JArray(xs) =>
      forall i | 0 <= i < |xs| {
        WalkCongruence(xs[i], f, g);
      }
    case JObject(fs) =>
      forall i | 0 <= i < |fs| {
        WalkCongruence(fs[i].1, f, g);
      }
    case JOther(_) =>
  }

  /** Two walks in a row are one walk with the composed transform. */
  lemma {:induction false} WalkCompose(j: Json, f: string -> string, g: string -> string)
    ensures Walk(Walk(j, f), g) == Walk(j, s => g(f(s)))
    decreases j
  {
    match j
    case JString(s) =>
    case JArray(xs) =>
      forall i | 0 <= i < |xs| {
        WalkCompose(xs[i], f, g);
      }
    case JObject(fs) =>
      forall i | 0 <= i < |fs| {
        WalkCompose(fs[i].1, f, g);
      }
    case JOther(_) =>
  }

  /** An idempotent transform gives an idempotent walk. */
  lemma WalkIdempotent(j: Json, f: string -> string)
    requires forall s :: f(f(s)) == f(s)
    ensures Walk(Walk(j, f), f) == Walk(j, f)
  {
    WalkCompose(j, f, f);
    WalkCongruence(j, s => f(f(s)), f);
  }
}
