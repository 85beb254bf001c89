/**
 * JavaScript values as the frontend handles them: decoded JSON bodies, React state records
 * and the object spread used to rebuild them. Numbers are integers here.
 */
module Json {
  import opened Wrappers
  import Text

  datatype Value =
    | Null
    | Bool(b: bool)
    | Num(n: int)
    | Str(s: string)
    | Obj(fields: Record)

  /** A plain object: its own enumerable properties. A missing key reads as `undefined`. */
  type Record = map<string, Value>

  /** JavaScript truthiness: `null`, `false`, `0` and `''` are falsy; every object is truthy. */
  predicate Truthy(v: Value) {
    match v
    case Null => false
    case Bool(b) => b
    case Num(n) => n != 0
    case Str(s) => s != []
    case Obj(_) => true
  }

  /** The falsy values are exactly `null`, `false`, `0` and `''`. */
  lemma FalsyValues(v: Value)
    ensures !Truthy(v) <==> v == Null || v == Bool(false) || v == Num(0) || v == Str([])
  {
  }

  /**
   * `v?.k` for a property that is not an index: an object's field, and `undefined` (None)
   * for every other value.
   */
  function Prop(v: Value, k: string): (r: Option<Value>)
    ensures r.Some? ==> v.Obj? && k in v.fields && r.value == v.fields[k]
  {
    if v.Obj? && k in v.fields then Some(v.fields[k]) else None
  }

  /** `v?.k` is truthy. */
  predicate PropTruthy(v: Value, k: string) {
    Prop(v, k).Some? && Truthy(Prop(v, k).value)
  }

  /** `r[k]`, with `undefined` as None. */
  function Get(r: Record, k: string): Option<Value> {
    if k in r then Some(r[k]) else None
  }

  /** `r[k]` is truthy (an absent key reads as the falsy `undefined`). */
  predicate Has(r: Record, k: string) {
    k in r && Truthy(r[k])
  }

  /** `r[k] || fallback`. */
  function Or(r: Record, k: string, fallback: Value): (v: Value)
    ensures Has(r, k) ==> v == r[k]
    ensures !Has(r, k) ==> v == fallback
    ensures Truthy(fallback) ==> Truthy(v)
  {
    if Has(r, k) then r[k] else fallback
  }

  /**
   * The own properties `{...v}` copies: an object's fields, a string's characters under
   * their index keys, and nothing for `undefined`, `null`, booleans and numbers.
   */
  function Spread(v: Option<Value>): (r: Record)
    ensures v.None? || v.value.Null? || v.value.Bool? || v.value.Num? ==> r == map[]
  {
    match v
    case Some(Obj(m)) => m
    case Some(Str(s)) => SpreadString(s)
    case _ => map[]
  }

  /**
   * Spreading an object copies exactly its properties, and spreading a string gives one
   * property per character, keyed by its index.
   */
  lemma SpreadOwnProperties(v: Value)
    ensures v.Obj? ==> forall k :: Get(Spread(Some(v)), k) == Prop(v, k)
    ensures v.Str? ==> |Spread(Some(v))| == |v.s|
    ensures v.Str? ==> forall i :: 0 <= i < |v.s| ==> Get(Spread(Some(v)), Text.Decimal(i)) == Some(Str([v.s[i]]))
  {
  }

  /** `{..."abc"}` is `{"0": "a", "1": "b", "2": "c"}`. */
  function SpreadString(s: string): (r: Record)
    ensures r.Keys == Text.IndexKeys(|s|)
    ensures forall i :: 0 <= i < |s| ==> r[Text.Decimal(i)] == Str([s[i]])
    ensures |r| == |s|
    decreases |s|
  {
    if s == [] then map[]
    else
      var prev := SpreadString(s[..|s| - 1]);
      SpreadStringLast(s, prev);
      prev[Text.Decimal(|s| - 1) := Str([s[|s| - 1]])]
  }

  /** The last character's key is new, and the earlier characters keep theirs. */
  lemma SpreadStringLast(s: string, prev: Record)
    requires s != []
    requires forall i :: 0 <= i < |s| - 1 ==> Text.Decimal(i) in prev && prev[Text.Decimal(i)] == Str([s[..|s| - 1][i]])
    ensures forall i :: 0 <= i < |s| ==> prev[Text.Decimal(|s| - 1) := Str([s[|s| - 1]])][Text.Decimal(i)] == Str([s[i]])
  {
    var n := |s| - 1;
    forall i | 0 <= i < |s|
      ensures prev[Text.Decimal(n) := Str([s[n]])][Text.Decimal(i)] == Str([s[i]])
    {
      if i < n {
        Text.DecimalDistinct(i, n);
        assert s[..n][i] == s[i];
      }
    }
  }
}
