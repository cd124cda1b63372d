/** Parsed metadata filters and their evaluation against one vector's metadata. */
module Filters {

  /**
   The Go type behind a metadata value, as far as the two toFloat64 conversions
   distinguish them: Unsigned is numeric only for the bitmap index, JsonNumber only for the evaluator.
   */
  datatype Kind = Number | Unsigned | JsonNumber | Text | Boolean | Other

  /** A metadata value: its number, when it has one, and its printed form. */
  datatype Value = Value(kind: Kind, num: real, text: string)

  datatype Operator = Eq | Ne | Gt | Gte | Lt | Lte | In | Nin | Unknown

  datatype FieldFilter = FieldFilter(field: string, op: Operator, value: Value, values: seq<Value>)

  datatype Filter = Filter(and: seq<FieldFilter>, or: seq<Filter>)

  type Meta = map<string, Value>

  /** toFloat64 of the evaluator succeeds. */
  predicate EvalNumeric(v: Value) { v.kind.Number? || v.kind.JsonNumber? }

  /** toFloat64 of the bitmap index succeeds. */
  predicate IndexNumeric(v: Value) { v.kind.Number? || v.kind.Unsigned? }

  predicate CompareEqual(a: Value, b: Value) {
    if EvalNumeric(a) && EvalNumeric(b) then a.num == b.num
    else if a.kind.Text? && b.kind.Text? then a.text == b.text
    else if a.kind.Boolean? && b.kind.Boolean? then a.text == b.text
    else a.text == b.text
  }

  /** strings.Compare: negative, zero or positive as s sorts before, with or after t. */
  function Lexicographic(s: string, t: string): int {
    if s == t then 0
    else if s == [] then -1
    else if t == [] then 1
    else if s[0] != t[0] then (if s[0] < t[0] then -1 else 1)
    else Lexicographic(s[1..], t[1..])
  }

  /** The strings agree before k; there s ends or has the smaller character. */
  ghost predicate SmallerAt(s: string, t: string, k: nat) {
    k <= |s| && k < |t| && (forall i :: 0 <= i < k ==> s[i] == t[i]) && (k < |s| ==> s[k] < t[k])
  }

  ghost predicate SortsBefore(s: string, t: string) {
    exists k: nat :: SmallerAt(s, t, k)
  }

  lemma {:induction false} LexicographicIsOrder(s: string, t: string)
    ensures Lexicographic(s, t) < 0 <==> SortsBefore(s, t)
    ensures Lexicographic(s, t) == 0 <==> s == t
    ensures Lexicographic(s, t) > 0 <==> SortsBefore(t, s)
  {
    if s == [] || t == [] || s[0] != t[0] {
      FirstDecides(s, t);
      FirstDecides(t, s);
    } else {
      LexicographicIsOrder(s[1..], t[1..]);
      TailDecides(s, t);
      TailDecides(t, s);
      assert s == [s[0]] + s[1..] && t == [t[0]] + t[1..];
    }
  }

  lemma {:induction false} FirstDecides(s: string, t: string)
    requires s == [] || t == [] || s[0] != t[0]
    ensures SortsBefore(s, t) <==> t != [] && (s == [] || s[0] < t[0])
  {
    assert SmallerAt(s, t, 0) <==> t != [] && (s == [] || s[0] < t[0]);
    assert forall k: nat :: k > 0 ==> !SmallerAt(s, t, k);
  }

  lemma {:induction false} TailDecides(s: string, t: string)
    requires s != [] && t != [] && s[0] == t[0]
    ensures SortsBefore(s, t) <==> SortsBefore(s[1..], t[1..])
  {
    forall k: nat ensures SmallerAt(s, t, k + 1) <==> SmallerAt(s[1..], t[1..], k) {
      assert forall i :: 0 <= i < k && i < |s[1..]| && i < |t[1..]| ==> s[1..][i] == s[i + 1] && t[1..][i] == t[i + 1];
      if SmallerAt(s[1..], t[1..], k) {
        assert forall i :: 0 < i < k + 1 ==> s[i] == s[1..][i - 1] && t[i] == t[1..][i - 1];
      }
    }
    assert !SmallerAt(s, t, 0);
    assert forall k: nat :: k > 0 && SmallerAt(s, t, k) ==> SmallerAt(s[1..], t[1..], k - 1);
  }

  /** Compares as numbers if both values are numbers, otherwise as printed. */
  function CompareNumeric(a: Value, b: Value): (c: int)
    ensures EvalNumeric(a) && EvalNumeric(b) ==>
              (c < 0 <==> a.num < b.num) && (c == 0 <==> a.num == b.num) && (c > 0 <==> a.num > b.num)
    ensures !(EvalNumeric(a) && EvalNumeric(b)) ==>
              (c < 0 <==> SortsBefore(a.text, b.text)) && (c == 0 <==> a.text == b.text)
  {
    LexicographicIsOrder(a.text, b.text);
    if EvalNumeric(a) && EvalNumeric(b) then
      if a.num < b.num then -1 else if a.num > b.num then 1 else 0
    else
      Lexicographic(a.text, b.text)
  }

  predicate FieldMatch(ff: FieldFilter, meta: Meta) {
    var present := ff.field in meta;
    match ff.op
    case Eq => present && CompareEqual(meta[ff.field], ff.value)
    case Ne => present ==> !CompareEqual(meta[ff.field], ff.value)
    case Gt => present && CompareNumeric(meta[ff.field], ff.value) > 0
    case Gte => present && CompareNumeric(meta[ff.field], ff.value) >= 0
    case Lt => present && CompareNumeric(meta[ff.field], ff.value) < 0
    case Lte => present && CompareNumeric(meta[ff.field], ff.value) <= 0
    case In => present && exists i :: 0 <= i < |ff.values| && CompareEqual(meta[ff.field], ff.values[i])
    case Nin => present ==> forall i :: 0 <= i < |ff.values| ==> !CompareEqual(meta[ff.field], ff.values[i])
    case Unknown => false
  }

  predicate Match(f: Filter, meta: Meta) {
    && (forall i :: 0 <= i < |f.and| ==> FieldMatch(f.and[i], meta))
    && (|f.or| > 0 ==> exists i :: 0 <= i < |f.or| && Match(f.or[i], meta))
  }
}
