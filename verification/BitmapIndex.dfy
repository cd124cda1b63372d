/** The metadata bitmap index: a filter compiled to set algebra over node indices. */
module BitmapIndex {
  import opened Common
  import opened Filters

  datatype Entry = Entry(value: real, node: nat)

  function CompositeKey(field: string, text: string): string {
    field + "\0" + text
  }

  ghost predicate NulFree(field: string) {
    '\0' !in field
  }

  /** NUL-free field names make composite keys unambiguous. */
  lemma {:induction false} KeysUnambiguous(f: string, t: string, f': string, t': string)
    requires NulFree(f) && NulFree(f') && CompositeKey(f, t) == CompositeKey(f', t')
    ensures f == f' && t == t'
  {
    var k := CompositeKey(f, t);
    assert k[|f|] == '\0' && k[|f'|] == '\0';
    assert k[..|f|] == f && k[..|f'|] == f';
    assert k[|f| + 1..] == t && k[|f'| + 1..] == t';
  }

  ghost predicate SortedByValue(es: seq<Entry>) {
    forall i, j :: 0 <= i < j < |es| ==> es[i].value <= es[j].value
  }

  // ---------------------------------------------------------------- sorting the numeric entries

  lemma {:induction false} SpliceSorted(s: seq<Entry>, k: nat, e: Entry)
    requires SortedByValue(s) && k <= |s|
    requires k > 0 ==> s[k - 1].value <= e.value
    requires k < |s| ==> e.value <= s[k].value
    ensures SortedByValue(s[..k] + [e] + s[k..])
  {
    var r := s[..k] + [e] + s[k..];
    forall i, j | 0 <= i < j < |r| ensures r[i].value <= r[j].value {
      assert r[i] == if i < k then s[i] else if i == k then e else s[i - 1];
      assert r[j] == if j < k then s[j] else if j == k then e else s[j - 1];
    }
  }

  method InsertEntry(s: seq<Entry>, e: Entry) returns (r: seq<Entry>)
    requires SortedByValue(s)
    ensures SortedByValue(r) && multiset(r) == multiset(s) + multiset{e}
  {
    var k := |s|;
    while k > 0 && e.value < s[k - 1].value
      invariant 0 <= k <= |s|
      invariant k < |s| ==> e.value < s[k].value
    {
      k := k - 1;
    }
    SpliceSorted(s, k, e);
    hide SortedByValue;
    r := s[..k] + [e] + s[k..];
    assert s == s[..k] + s[k..];
  }

  method SortEntries(es: seq<Entry>) returns (r: seq<Entry>)
    ensures SortedByValue(r) && multiset(r) == multiset(es)
  {
    r := [];
    for i := 0 to |es|
      invariant SortedByValue(r) && multiset(r) == multiset(es[..i])
    {
      assert es[..i + 1] == es[..i] + [es[i]];
      r := InsertEntry(r, es[i]);
    }
    assert es[..|es|] == es;
  }

  lemma {:induction false} SortKeepsSet(a: seq<Entry>, b: seq<Entry>)
    requires multiset(a) == multiset(b)
    ensures forall e :: e in a <==> e in b
    ensures NoRepeats(a) ==> NoRepeats(b)
  {
    forall e ensures e in a <==> e in b {
      assert e in multiset(a) <==> e in multiset(b);
    }
    if NoRepeats(a) {
      forall i, j | 0 <= i < j < |b| ensures b[i] != b[j] {
        CountedTwice(b, i, j);
        CountedOnce(a, b[i]);
      }
    }
  }

  /** sort.Search: the first entry above the threshold (strict) or at or above it. */
  method FirstFrom(es: seq<Entry>, threshold: real, strict: bool) returns (k: nat)
    requires SortedByValue(es)
    ensures k <= |es|
    ensures forall i :: 0 <= i < |es| ==>
              (i >= k <==> if strict then es[i].value > threshold else es[i].value >= threshold)
  {
    var lo, hi := 0, |es|;
    while lo < hi
      invariant 0 <= lo <= hi <= |es|
      invariant forall i :: 0 <= i < lo ==> !(if strict then es[i].value > threshold else es[i].value >= threshold)
      invariant forall i :: hi <= i < |es| ==> if strict then es[i].value > threshold else es[i].value >= threshold
    {
      var mid := (lo + hi) / 2;
      if (if strict then es[mid].value > threshold else es[mid].value >= threshold) {
        hi := mid;
      } else {
        lo := mid + 1;
      }
    }
    k := lo;
  }

  method CollectBitmap(es: seq<Entry>) returns (bm: set<nat>)
    ensures forall n :: n in bm <==> exists i :: 0 <= i < |es| && es[i].node == n
  {
    bm := {};
    for i := 0 to |es|
      invariant forall n :: n in bm <==> exists j :: 0 <= j < i && es[j].node == n
    {
      bm := bm + {es[i].node};
    }
  }

  // ---------------------------------------------------------------- what the index represents

  function BitsAt(bits: map<string, set<nat>>, key: string): set<nat> {
    if key in bits then bits[key] else {}
  }

  function EntriesAt(numeric: map<string, seq<Entry>>, field: string): seq<Entry> {
    if field in numeric then numeric[field] else []
  }

  ghost function MetaAt(meta: map<nat, Meta>, n: nat): Meta {
    if n in meta then meta[n] else map[]
  }

  /** Node n carries field f with printed value t. */
  ghost predicate Carries(meta: map<nat, Meta>, n: nat, f: string, t: string) {
    f in MetaAt(meta, n) && MetaAt(meta, n)[f].text == t
  }

  /** Node e.node carries field f with the number e.value. */
  ghost predicate CarriesNumber(meta: map<nat, Meta>, f: string, e: Entry) {
    f in MetaAt(meta, e.node) && IndexNumeric(MetaAt(meta, e.node)[f]) && MetaAt(meta, e.node)[f].num == e.value
  }

  ghost predicate BitsOk(bits: map<string, set<nat>>, meta: map<nat, Meta>) {
    forall f: string, t: string, n: nat :: NulFree(f) ==>
      (n in BitsAt(bits, CompositeKey(f, t)) <==> Carries(meta, n, f, t))
  }

  ghost predicate EntriesOk(numeric: map<string, seq<Entry>>, meta: map<nat, Meta>) {
    && (forall f :: NoRepeats(EntriesAt(numeric, f)))
    && forall f, e :: e in EntriesAt(numeric, f) <==> CarriesNumber(meta, f, e)
  }

  ghost predicate FieldsOk(meta: map<nat, Meta>, maxNodeIdx: nat) {
    forall n: nat, f :: f in MetaAt(meta, n) ==> NulFree(f) && n <= maxNodeIdx
  }

  ghost function WithField(meta: map<nat, Meta>, n: nat, f: string, v: Value): map<nat, Meta> {
    meta[n := MetaAt(meta, n)[f := v]]
  }

  ghost function WithoutField(meta: map<nat, Meta>, n: nat, f: string): map<nat, Meta> {
    meta[n := MetaAt(meta, n) - {f}]
  }

  lemma {:induction false} SetFields(meta: map<nat, Meta>, bound: nat, f: string, v: Value, n: nat)
    requires FieldsOk(meta, bound) && NulFree(f)
    ensures FieldsOk(WithField(meta, n, f, v), if n > bound then n else bound)
  {
    forall k: nat, g | g in MetaAt(WithField(meta, n, f, v), k)
      ensures NulFree(g) && k <= (if n > bound then n else bound)
    {
      assert k != n || g != f ==> g in MetaAt(meta, k);
    }
  }

  lemma {:induction false} ClearFields(meta: map<nat, Meta>, bound: nat, f: string, n: nat)
    requires FieldsOk(meta, bound)
    ensures FieldsOk(WithoutField(meta, n, f), bound)
    ensures f in MetaAt(meta, n) ==> NulFree(f)
  {
    forall k: nat, g | g in MetaAt(WithoutField(meta, n, f), k) ensures NulFree(g) && k <= bound {
      assert g in MetaAt(meta, k);
    }
  }

  lemma {:induction false} SetBits(bits: map<string, set<nat>>, meta: map<nat, Meta>, f: string, v: Value, n: nat)
    requires BitsOk(bits, meta) && NulFree(f) && f !in MetaAt(meta, n)
    ensures var key := CompositeKey(f, v.text);
            BitsOk(bits[key := BitsAt(bits, key) + {n}], WithField(meta, n, f, v))
  {
    var key := CompositeKey(f, v.text);
    var bits', meta' := bits[key := BitsAt(bits, key) + {n}], WithField(meta, n, f, v);
    forall g: string, t: string, k: nat | NulFree(g)
      ensures k in BitsAt(bits', CompositeKey(g, t)) <==> Carries(meta', k, g, t)
    {
      assert k in BitsAt(bits, CompositeKey(g, t)) <==> Carries(meta, k, g, t);
      if CompositeKey(g, t) == key {
        KeysUnambiguous(g, t, f, v.text);
      }
    }
  }

  lemma {:induction false} ClearBits(bits: map<string, set<nat>>, meta: map<nat, Meta>, f: string, n: nat)
    requires BitsOk(bits, meta) && NulFree(f) && f in MetaAt(meta, n)
    ensures var key := CompositeKey(f, MetaAt(meta, n)[f].text);
            key in bits && BitsOk(bits[key := bits[key] - {n}], WithoutField(meta, n, f))
  {
    var text := MetaAt(meta, n)[f].text;
    var key := CompositeKey(f, text);
    assert Carries(meta, n, f, text);
    assert n in BitsAt(bits, key);
    var bits', meta' := bits[key := bits[key] - {n}], WithoutField(meta, n, f);
    forall g: string, t: string, k: nat | NulFree(g)
      ensures k in BitsAt(bits', CompositeKey(g, t)) <==> Carries(meta', k, g, t)
    {
      assert k in BitsAt(bits, CompositeKey(g, t)) <==> Carries(meta, k, g, t);
      if CompositeKey(g, t) == key {
        KeysUnambiguous(g, t, f, text);
      }
    }
  }

  /** Entries of the field gain exactly the new pair. */
  lemma {:induction false} SetEntries(numeric: map<string, seq<Entry>>, meta: map<nat, Meta>, f: string, v: Value,
                                      n: nat)
    requires EntriesOk(numeric, meta) && f !in MetaAt(meta, n)
    ensures IndexNumeric(v) ==> EntriesOk(numeric[f := EntriesAt(numeric, f) + [Entry(v.num, n)]],
                                          WithField(meta, n, f, v))
    ensures !IndexNumeric(v) ==> EntriesOk(numeric, WithField(meta, n, f, v))
  {
    var x := Entry(v.num, n);
    var before := EntriesAt(numeric, f);
    assert x !in before by { assert !CarriesNumber(meta, f, x); }
    var meta' := WithField(meta, n, f, v);
    var numeric' := if IndexNumeric(v) then numeric[f := before + [x]] else numeric;
    forall g ensures NoRepeats(EntriesAt(numeric', g)) {
      assert NoRepeats(EntriesAt(numeric, g));
    }
    forall g, e ensures e in EntriesAt(numeric', g) <==> CarriesNumber(meta', g, e) {
      assert e in EntriesAt(numeric, g) <==> CarriesNumber(meta, g, e);
    }
  }

  /** Entries of the field lose exactly the pair of the removed value. */
  lemma {:induction false} RemoveEntries(numeric: map<string, seq<Entry>>, meta: map<nat, Meta>, f: string, n: nat,
                                         es: seq<Entry>)
    requires EntriesOk(numeric, meta) && f in MetaAt(meta, n)
    requires IndexNumeric(MetaAt(meta, n)[f])
    requires NoRepeats(es)
    requires forall e :: e in es <==> e in EntriesAt(numeric, f) && e != Entry(MetaAt(meta, n)[f].num, n)
    ensures EntriesOk(numeric[f := es], WithoutField(meta, n, f))
  {
    var meta', numeric' := WithoutField(meta, n, f), numeric[f := es];
    forall g ensures NoRepeats(EntriesAt(numeric', g)) {
      assert NoRepeats(EntriesAt(numeric, g));
    }
    forall g, e ensures e in EntriesAt(numeric', g) <==> CarriesNumber(meta', g, e) {
      assert e in EntriesAt(numeric, g) <==> CarriesNumber(meta, g, e);
    }
  }

  lemma {:induction false} KeepEntries(numeric: map<string, seq<Entry>>, meta: map<nat, Meta>, f: string, n: nat)
    requires EntriesOk(numeric, meta) && f in MetaAt(meta, n) && !IndexNumeric(MetaAt(meta, n)[f])
    ensures EntriesOk(numeric, WithoutField(meta, n, f))
  {
    forall g, e ensures e in EntriesAt(numeric, g) <==> CarriesNumber(WithoutField(meta, n, f), g, e) {
      assert e in EntriesAt(numeric, g) <==> CarriesNumber(meta, g, e);
    }
  }

  // ---------------------------------------------------------------- when index and evaluator see values alike

  function Bitmap(r: Option<set<nat>>): set<nat> {
    if r.Some? then r.value else {}
  }

  /** Two numbers are equal exactly when they print alike. */
  ghost predicate PrintsFaithfully(a: Value, b: Value) {
    EvalNumeric(a) && EvalNumeric(b) ==> (a.num == b.num <==> a.text == b.text)
  }

  /** Every node that has the field has a number both sides recognise, and so is the threshold. */
  ghost predicate RangeOk(ff: FieldFilter, meta: map<nat, Meta>) {
    forall n: nat :: ff.field in MetaAt(meta, n) ==> MetaAt(meta, n)[ff.field].kind.Number? && ff.value.kind.Number?
  }

  ghost predicate LeafOk(ff: FieldFilter, meta: map<nat, Meta>) {
    && NulFree(ff.field)
    && match ff.op
       case Eq => forall n: nat :: ff.field in MetaAt(meta, n) ==> PrintsFaithfully(MetaAt(meta, n)[ff.field], ff.value)
       case Ne => forall n: nat :: ff.field in MetaAt(meta, n) ==> PrintsFaithfully(MetaAt(meta, n)[ff.field], ff.value)
       case In => forall n: nat, i :: ff.field in MetaAt(meta, n) && 0 <= i < |ff.values| ==>
         PrintsFaithfully(MetaAt(meta, n)[ff.field], ff.values[i])
       case Nin => forall n: nat, i :: ff.field in MetaAt(meta, n) && 0 <= i < |ff.values| ==>
         PrintsFaithfully(MetaAt(meta, n)[ff.field], ff.values[i])
       case Unknown => true
       case _ => RangeOk(ff, meta)
  }

  ghost predicate InRange(ff: FieldFilter, x: real) {
    match ff.op
    case Gt => x > ff.value.num
    case Gte => x >= ff.value.num
    case Lt => x < ff.value.num
    case Lte => x <= ff.value.num
    case _ => false
  }

  lemma {:induction false} SortedEntriesOk(numeric: map<string, seq<Entry>>, meta: map<nat, Meta>, f: string,
                                           sorted: seq<Entry>)
    requires EntriesOk(numeric, meta) && f in numeric && multiset(sorted) == multiset(numeric[f])
    ensures EntriesOk(numeric[f := sorted], meta)
  {
    SortKeepsSet(numeric[f], sorted);
    assert NoRepeats(EntriesAt(numeric, f));
    var numeric' := numeric[f := sorted];
    forall g ensures NoRepeats(EntriesAt(numeric', g)) {
      assert NoRepeats(EntriesAt(numeric, g));
    }
    forall g, e ensures e in EntriesAt(numeric', g) <==> CarriesNumber(meta, g, e) {
      assert e in EntriesAt(numeric, g) <==> CarriesNumber(meta, g, e);
    }
  }

  /** b is a with node n taken out of the bitmap of one key. */
  ghost predicate BitCleared(a: map<string, set<nat>>, b: map<string, set<nat>>, key: string, n: nat) {
    forall k, i: nat :: i in BitsAt(b, k) <==> i in BitsAt(a, k) && !(k == key && i == n)
  }

  lemma {:induction false} ClearBit(a: map<string, set<nat>>, key: string, n: nat)
    ensures BitCleared(a, if key in a then a[key := a[key] - {n}] else a, key, n)
  {
  }

  /** b is a with one occurrence of the pair, if there is one, taken out of the list of the field. */
  ghost predicate PairDropped(a: map<string, seq<Entry>>, b: map<string, seq<Entry>>, field: string, x: Entry) {
    forall f :: multiset(EntriesAt(b, f)) ==
                if f == field then multiset(EntriesAt(a, f)) - multiset{x} else multiset(EntriesAt(a, f))
  }

  lemma {:induction false} DropPair(a: map<string, seq<Entry>>, field: string, x: Entry, es: seq<Entry>)
    requires multiset(es) == multiset(EntriesAt(a, field)) - multiset{x}
    ensures PairDropped(a, a[field := es], field, x)
  {
  }

  /** Taking out the value a node carries keeps the index exact. */
  lemma {:induction false} Removed(bits: map<string, set<nat>>, numeric: map<string, seq<Entry>>, meta: map<nat, Meta>,
                                   bound: nat, field: string, value: Value, n: nat, es: seq<Entry>)
    requires IndexNumeric(value) ==>
               multiset(es) == multiset(EntriesAt(numeric, field)) - multiset{Entry(value.num, n)}
    ensures BitsOk(bits, meta) && EntriesOk(numeric, meta) && FieldsOk(meta, bound)
            && field in MetaAt(meta, n) && MetaAt(meta, n)[field] == value ==>
              var key, meta' := CompositeKey(field, value.text), WithoutField(meta, n, field);
              && BitsOk(if key in bits then bits[key := bits[key] - {n}] else bits, meta')
              && EntriesOk(if IndexNumeric(value) then numeric[field := es] else numeric, meta')
              && FieldsOk(meta', bound)
  {
    if BitsOk(bits, meta) && EntriesOk(numeric, meta) && FieldsOk(meta, bound)
       && field in MetaAt(meta, n) && MetaAt(meta, n)[field] == value {
      ClearFields(meta, bound, field, n);
      ClearBits(bits, meta, field, n);
      if IndexNumeric(value) {
        EntriesDistinct(numeric, meta, field);
        OneLess(EntriesAt(numeric, field), es, Entry(value.num, n));
        hide BitsOk, EntriesOk, FieldsOk;
        RemoveEntries(numeric, meta, field, n, es);
      } else {
        hide BitsOk, EntriesOk, FieldsOk;
        KeepEntries(numeric, meta, field, n);
      }
    }
  }

  lemma {:induction false} EntriesDistinct(numeric: map<string, seq<Entry>>, meta: map<nat, Meta>, field: string)
    requires EntriesOk(numeric, meta)
    ensures NoRepeats(EntriesAt(numeric, field))
  {
  }

  /** Every field has the same pairs, as often, in both. */
  ghost predicate SameEntries(a: map<string, seq<Entry>>, b: map<string, seq<Entry>>) {
    a.Keys == b.Keys && forall f :: f in a ==> multiset(a[f]) == multiset(b[f])
  }

  lemma {:induction false} SameAfterSort(a: map<string, seq<Entry>>, b: map<string, seq<Entry>>, f: string,
                                         sorted: seq<Entry>)
    requires SameEntries(a, b) && f in b && multiset(sorted) == multiset(b[f])
    ensures SameEntries(a, b[f := sorted])
  {
  }

  lemma {:induction false} OneLess(es: seq<Entry>, r: seq<Entry>, x: Entry)
    requires multiset(r) == multiset(es) - multiset{x} && NoRepeats(es)
    ensures NoRepeats(r) && forall e :: e in r <==> e in es && e != x
  {
    forall e ensures e in r <==> e in es && e != x {
      assert e in r <==> e in multiset(r);
      assert e in es <==> e in multiset(es);
      if e in es {
        CountedOnce(es, e);
      }
    }
    forall i, j | 0 <= i < j < |r| ensures r[i] != r[j] {
      if r[i] == r[j] {
        CountedTwice(r, i, j);
        CountedOnce(es, r[i]);
      }
    }
  }

  /** Drops the first occurrence of a pair. */
  method RemoveEntry(es: seq<Entry>, x: Entry) returns (r: seq<Entry>)
    ensures multiset(r) == multiset(es) - multiset{x}
  {
    for i := 0 to |es|
      invariant forall j :: 0 <= j < i ==> es[j] != x
    {
      if es[i] == x {
        assert es == es[..i] + [x] + es[i + 1..];
        return es[..i] + es[i + 1..];
      }
    }
    assert x !in multiset(es);
    r := es;
  }

  // ---------------------------------------------------------------- what a resolved filter means

  ghost predicate LeavesOk(conditions: seq<FieldFilter>, meta: map<nat, Meta>) {
    forall i :: 0 <= i < |conditions| ==> LeafOk(conditions[i], meta)
  }

  ghost predicate FilterLeavesOk(f: Filter, meta: map<nat, Meta>) {
    LeavesOk(f.and, meta) && forall i :: 0 <= i < |f.or| ==> FilterLeavesOk(f.or[i], meta)
  }

  /** No condition anywhere. */
  ghost predicate Unconstrained(f: Filter) {
    |f.and| == 0 && forall i :: 0 <= i < |f.or| ==> Unconstrained(f.or[i])
  }

  /** What the compiled bitmap admits: unconstrained OR branches do not count unless no branch constrains. */
  ghost predicate Admits(f: Filter, meta: Meta) {
    && (forall i :: 0 <= i < |f.and| ==> FieldMatch(f.and[i], meta))
    && ((exists i :: 0 <= i < |f.or| && !Unconstrained(f.or[i])) ==>
          exists i :: 0 <= i < |f.or| && !Unconstrained(f.or[i]) && Admits(f.or[i], meta))
  }

  /** In every OR list, either all branches constrain or none does. */
  ghost predicate OrsUniform(f: Filter) {
    && ((forall i :: 0 <= i < |f.or| ==> Unconstrained(f.or[i])) ||
        (forall i :: 0 <= i < |f.or| ==> !Unconstrained(f.or[i])))
    && forall i :: 0 <= i < |f.or| ==> OrsUniform(f.or[i])
  }

  lemma {:induction false} UnconstrainedMatches(f: Filter, meta: Meta)
    requires Unconstrained(f)
    ensures Match(f, meta)
  {
    if |f.or| > 0 {
      UnconstrainedMatches(f.or[0], meta);
    }
  }

  /** The bitmap never admits a node the evaluator rejects. */
  lemma {:induction false} AdmittedMatches(f: Filter, meta: Meta)
    requires Admits(f, meta)
    ensures Match(f, meta)
  {
    if |f.or| > 0 {
      if i :| 0 <= i < |f.or| && !Unconstrained(f.or[i]) {
        var j :| 0 <= j < |f.or| && !Unconstrained(f.or[j]) && Admits(f.or[j], meta);
        AdmittedMatches(f.or[j], meta);
      } else {
        assert Unconstrained(f.or[0]);
        UnconstrainedMatches(f.or[0], meta);
      }
    }
  }

  /** With uniform ORs it admits exactly the nodes the evaluator matches. */
  lemma {:induction false} AdmitsIsMatch(f: Filter, meta: Meta)
    requires OrsUniform(f)
    ensures Admits(f, meta) <==> Match(f, meta)
  {
    if Admits(f, meta) {
      AdmittedMatches(f, meta);
    }
    if Match(f, meta) && (exists i :: 0 <= i < |f.or| && !Unconstrained(f.or[i])) {
      var j :| 0 <= j < |f.or| && Match(f.or[j], meta);
      AdmitsIsMatch(f.or[j], meta);
    }
  }

  /** An OR with one empty branch: the evaluator accepts everything, the bitmap only the other branch. */
  lemma {:induction false} MixedOrIsNotExact(ff: FieldFilter, meta: Meta)
    requires !FieldMatch(ff, meta)
    ensures var f := Filter([], [Filter([], []), Filter([ff], [])]);
            !OrsUniform(f) && Match(f, meta) && !Admits(f, meta)
  {
    var f := Filter([], [Filter([], []), Filter([ff], [])]);
    assert Unconstrained(f.or[0]) && !Unconstrained(f.or[1]);
    assert Match(f.or[0], meta);
    assert f.or[1].and[0] == ff;
  }

  // ---------------------------------------------------------------- the index

  class MetadataBitmapIndex {
    var bits: map<string, set<nat>>
    var numericSorted: map<string, seq<Entry>>
    var maxNodeIdx: nat
    var totalNodes: nat

    /** The metadata the index stands for, by node. */
    ghost var meta: map<nat, Meta>

    /** The number of known nodes, with or without metadata. */
    function Size(): (n: nat)
      reads this`maxNodeIdx, this`totalNodes
      ensures n >= totalNodes && n > maxNodeIdx && (n == totalNodes || n == maxNodeIdx + 1)
    {
      if totalNodes <= maxNodeIdx then maxNodeIdx + 1 else totalNodes
    }

    ghost predicate Valid()
      reads this
    {
      BitsOk(bits, meta) && EntriesOk(numericSorted, meta) && FieldsOk(meta, maxNodeIdx)
    }

    constructor ()
      ensures Valid() && meta == map[] && bits == map[] && numericSorted == map[] && totalNodes == 0 && maxNodeIdx == 0
    {
      bits, numericSorted, maxNodeIdx, totalNodes, meta := map[], map[], 0, 0, map[];
    }

    method SetTotalNodes(n: nat)
      modifies this`totalNodes
      ensures (Valid() <==> old(Valid())) && totalNodes == n
    {
      totalNodes := n;
    }

    /** Records field = value for a node; the index stays exact when the name has no NUL and the field was not set. */
    method Set(field: string, value: Value, n: nat)
      modifies this
      ensures meta == WithField(old(meta), n, field, value)
      ensures old(Valid()) && NulFree(field) && field !in MetaAt(old(meta), n) ==> Valid()
      ensures bits == old(bits)[CompositeKey(field, value.text) :=
                                BitsAt(old(bits), CompositeKey(field, value.text)) + {n}]
      ensures numericSorted == if !IndexNumeric(value) then old(numericSorted)
                               else old(numericSorted)[field := EntriesAt(old(numericSorted), field) +
                                                                [Entry(value.num, n)]]
      ensures totalNodes == old(totalNodes) && maxNodeIdx == if n > old(maxNodeIdx) then n else old(maxNodeIdx)
    {
      hide BitsOk, EntriesOk, FieldsOk;
      var key := CompositeKey(field, value.text);
      ghost var exact := Valid() && NulFree(field) && field !in MetaAt(meta, n);
      if exact {
        SetFields(meta, maxNodeIdx, field, value, n);
        SetBits(bits, meta, field, value, n);
        SetEntries(numericSorted, meta, field, value, n);
      }
      bits := bits[key := BitsAt(bits, key) + {n}];
      if n > maxNodeIdx {
        maxNodeIdx := n;
      }
      if IndexNumeric(value) {
        numericSorted := numericSorted[field := EntriesAt(numericSorted, field) + [Entry(value.num, n)]];
      }
      meta := WithField(meta, n, field, value);
    }

    /** Forgets a node's value; exact when it is the value the node carries. */
    method Remove(field: string, value: Value, n: nat)
      modifies this`bits, this`numericSorted, this`meta
      ensures meta == WithoutField(old(meta), n, field)
      ensures old(Valid()) && field in MetaAt(old(meta), n) && MetaAt(old(meta), n)[field] == value ==> Valid()
      ensures BitCleared(old(bits), bits, CompositeKey(field, value.text), n)
      ensures if IndexNumeric(value) then PairDropped(old(numericSorted), numericSorted, field, Entry(value.num, n))
              else numericSorted == old(numericSorted)
    {
      hide BitsOk, EntriesOk, FieldsOk, BitCleared, PairDropped, WithoutField, MetaAt, EntriesAt;
      ghost var bits0, numeric0 := bits, numericSorted;
      var key := CompositeKey(field, value.text);
      ClearBit(bits, key, n);
      if key in bits {
        bits := bits[key := bits[key] - {n}];
      }
      var es := [];
      if IndexNumeric(value) {
        es := RemoveEntry(EntriesAt(numericSorted, field), Entry(value.num, n));
        DropPair(numericSorted, field, Entry(value.num, n), es);
        numericSorted := numericSorted[field := es];
      }
      Removed(bits0, numeric0, meta, maxNodeIdx, field, value, n, es);
      meta := WithoutField(meta, n, field);
    }

    // ---------------------------------------------------------------- resolving a filter

    ghost predicate NumericSorted()
      reads this`numericSorted
    {
      forall f :: SortedByValue(EntriesAt(numericSorted, f))
    }

    /** Sorts every numeric list; the pairs stay the same. */
    method SortAll()
      modifies this`numericSorted
      ensures NumericSorted() && SameEntries(old(numericSorted), numericSorted)
      ensures old(Valid()) ==> Valid()
    {
      hide BitsOk, FieldsOk;
      ghost var was := numericSorted;
      var todo := numericSorted.Keys;
      while todo != {}
        invariant old(Valid()) ==> EntriesOk(numericSorted, meta)
        invariant SameEntries(was, numericSorted)
        invariant todo <= numericSorted.Keys
        invariant forall f :: f in numericSorted && f !in todo ==> SortedByValue(numericSorted[f])
        decreases todo
      {
        hide EntriesOk, SameEntries, SortedByValue;
        var f :| f in todo;
        var sorted := SortEntries(numericSorted[f]);
        SameAfterSort(was, numericSorted, f, sorted);
        if old(Valid()) {
          SortedEntriesOk(numericSorted, meta, f, sorted);
        }
        numericSorted := numericSorted[f := sorted];
        todo := todo - {f};
      }
    }

    /** The node n is in the bitmap of one condition. */
    ghost predicate Keeps(ff: FieldFilter, n: nat)
      reads this
    {
      match ff.op
      case Eq => n in BitsAt(bits, CompositeKey(ff.field, ff.value.text))
      case Ne => n < Size() && n !in BitsAt(bits, CompositeKey(ff.field, ff.value.text))
      case In => exists i :: 0 <= i < |ff.values| && n in BitsAt(bits, CompositeKey(ff.field, ff.values[i].text))
      case Nin =>
        n < Size() && forall i :: 0 <= i < |ff.values| ==> n !in BitsAt(bits, CompositeKey(ff.field, ff.values[i].text))
      case Unknown => false
      case _ =>
        IndexNumeric(ff.value)
        && exists e :: e in EntriesAt(numericSorted, ff.field) && e.node == n && InRange(ff, e.value)
    }

    /** The node n is in the bitmap of a filter with conditions; branches without conditions do not count. */
    ghost predicate KeepsAll(f: Filter, n: nat)
      reads this
      decreases f
    {
      && (forall i :: 0 <= i < |f.and| ==> Keeps(f.and[i], n))
      && ((exists i :: 0 <= i < |f.or| && !Unconstrained(f.or[i])) ==>
            exists i :: 0 <= i < |f.or| && !Unconstrained(f.or[i]) && KeepsAll(f.or[i], n))
    }

    /** In an exact index a condition keeps the nodes whose metadata prints alike or has a number in range. */
    lemma {:induction false} KeepsByMetadata(ff: FieldFilter, n: nat)
      requires Valid() && NulFree(ff.field) && n < Size()
      ensures ff.op.Eq? ==> (Keeps(ff, n) <==> Carries(meta, n, ff.field, ff.value.text))
      ensures ff.op.Ne? ==> (Keeps(ff, n) <==> !Carries(meta, n, ff.field, ff.value.text))
      ensures ff.op.In? ==>
                (Keeps(ff, n) <==> exists i :: 0 <= i < |ff.values| && Carries(meta, n, ff.field, ff.values[i].text))
      ensures ff.op.Nin? ==>
                (Keeps(ff, n) <==> forall i :: 0 <= i < |ff.values| ==> !Carries(meta, n, ff.field, ff.values[i].text))
      ensures ff.op in {Gt, Gte, Lt, Lte} ==>
                (Keeps(ff, n) <==>
                 && ff.field in MetaAt(meta, n) && IndexNumeric(MetaAt(meta, n)[ff.field]) && IndexNumeric(ff.value)
                 && InRange(ff, MetaAt(meta, n)[ff.field].num))
    {
      hide FieldsOk;
      match ff.op {
        case Eq =>
        case Ne =>
        case In =>
        case Nin =>
        case Unknown =>
        case _ =>
          hide BitsOk;
          if Keeps(ff, n) {
            var e :| e in EntriesAt(numericSorted, ff.field) && e.node == n && InRange(ff, e.value);
            assert CarriesNumber(meta, ff.field, e);
          }
          if ff.field in MetaAt(meta, n) && IndexNumeric(MetaAt(meta, n)[ff.field]) {
            assert CarriesNumber(meta, ff.field, Entry(MetaAt(meta, n)[ff.field].num, n));
          }
      }
    }

    /** Where index and evaluator see values alike, the bitmap holds exactly the known nodes that match. */
    lemma {:induction false} KeepsIsMatch(ff: FieldFilter)
      requires Valid() && LeafOk(ff, meta)
      ensures forall n: nat :: n < Size() ==> (Keeps(ff, n) <==> FieldMatch(ff, MetaAt(meta, n)))
    {
      forall n: nat | n < Size() ensures Keeps(ff, n) <==> FieldMatch(ff, MetaAt(meta, n)) {
        KeepsByMetadata(ff, n);
        hide BitsOk, EntriesOk, FieldsOk, Keeps;
      }
    }

    lemma {:induction false} KeepsAllIsAdmits(f: Filter)
      requires Valid() && FilterLeavesOk(f, meta)
      ensures forall n: nat :: n < Size() ==> (KeepsAll(f, n) <==> Admits(f, MetaAt(meta, n)))
      decreases f
    {
      hide BitsOk, EntriesOk, FieldsOk, FieldMatch, LeafOk, Keeps, Unconstrained;
      forall i | 0 <= i < |f.and|
        ensures forall n: nat :: n < Size() ==> (Keeps(f.and[i], n) <==> FieldMatch(f.and[i], MetaAt(meta, n)))
      {
        KeepsIsMatch(f.and[i]);
      }
      forall i | 0 <= i < |f.or|
        ensures forall n: nat :: n < Size() ==> (KeepsAll(f.or[i], n) <==> Admits(f.or[i], MetaAt(meta, n)))
      {
        KeepsAllIsAdmits(f.or[i]);
      }
    }

    /** An equality or inequality agrees with the evaluator exactly when no number differs from its print. */
    lemma {:induction false} EqualityExactly(ff: FieldFilter)
      requires Valid() && NulFree(ff.field) && ff.op in {Eq, Ne}
      ensures (forall n: nat :: n < Size() ==> (Keeps(ff, n) <==> FieldMatch(ff, MetaAt(meta, n)))) <==>
              forall n: nat :: ff.field in MetaAt(meta, n) ==> PrintsFaithfully(MetaAt(meta, n)[ff.field], ff.value)
    {
      forall n: nat | n < Size()
        ensures (Keeps(ff, n) <==> FieldMatch(ff, MetaAt(meta, n))) <==>
                (ff.field in MetaAt(meta, n) ==> PrintsFaithfully(MetaAt(meta, n)[ff.field], ff.value))
      {
        KeepsByMetadata(ff, n);
        hide BitsOk, EntriesOk, FieldsOk, Keeps;
      }
      assert forall n: nat :: ff.field in MetaAt(meta, n) ==> n < Size();
    }

    /** Union of the bitmaps of several values of a field; None when none of them has a bitmap. */
    method UnionOf(field: string, values: seq<Value>) returns (r: Option<set<nat>>)
      ensures forall n :: n in Bitmap(r) <==>
                exists i :: 0 <= i < |values| && n in BitsAt(bits, CompositeKey(field, values[i].text))
    {
      r := None;
      for i := 0 to |values|
        invariant forall n :: n in Bitmap(r) <==>
                    exists j :: 0 <= j < i && n in BitsAt(bits, CompositeKey(field, values[j].text))
      {
        var key := CompositeKey(field, values[i].text);
        if key in bits {
          r := Some(Bitmap(r) + bits[key]);
        }
      }
    }

    method AllNodes() returns (bm: set<nat>)
      ensures forall n: nat :: n in bm <==> n < Size()
    {
      bm := {};
      for i := 0 to Size()
        invariant forall n: nat :: n in bm <==> n < i
      {
        bm := bm + {i};
      }
    }

    /** Range operators by binary search in the sorted pairs; only pairs of the field in range are named. */
    method ResolveNumericRange(ff: FieldFilter) returns (r: Option<set<nat>>)
      requires NumericSorted()
      ensures ff.op in {Gt, Gte, Lt, Lte, Unknown} ==> forall n: nat :: n in Bitmap(r) <==> Keeps(ff, n)
      ensures r.None? <==> EntriesAt(numericSorted, ff.field) == [] || !IndexNumeric(ff.value)
                           || ff.op !in {Gt, Gte, Lt, Lte}
    {
      var es := EntriesAt(numericSorted, ff.field);
      if |es| == 0 {
        return None;
      }
      if !IndexNumeric(ff.value) {
        return None;
      }
      var part: seq<Entry> := [];
      match ff.op {
        case Gt =>
          var k := FirstFrom(es, ff.value.num, true);
          part := es[k..];
          RangeNames(ff, es, part, k, |es|);
        case Gte =>
          var k := FirstFrom(es, ff.value.num, false);
          part := es[k..];
          RangeNames(ff, es, part, k, |es|);
        case Lt =>
          var k := FirstFrom(es, ff.value.num, false);
          part := es[..k];
          RangeNames(ff, es, part, 0, k);
        case Lte =>
          var k := FirstFrom(es, ff.value.num, true);
          part := es[..k];
          RangeNames(ff, es, part, 0, k);
        case _ =>
          return None;
      }
      var bm := CollectBitmap(part);
      r := Some(bm);
    }

    /** A contiguous part of the pairs that holds exactly the values in range names exactly the kept nodes. */
    lemma {:induction false} RangeNames(ff: FieldFilter, es: seq<Entry>, part: seq<Entry>, lo: nat, hi: nat)
      requires es == EntriesAt(numericSorted, ff.field) && IndexNumeric(ff.value)
      requires lo <= hi <= |es| && part == es[lo..hi] && ff.op in {Gt, Gte, Lt, Lte}
      requires forall i :: 0 <= i < |es| ==> (lo <= i < hi <==> InRange(ff, es[i].value))
      ensures forall n: nat :: (exists i :: 0 <= i < |part| && part[i].node == n) <==> Keeps(ff, n)
    {
      forall n: nat ensures (exists i :: 0 <= i < |part| && part[i].node == n) <==> Keeps(ff, n) {
        if i :| 0 <= i < |part| && part[i].node == n {
          assert part[i] == es[lo + i];
          assert es[lo + i] in es;
        }
        if Keeps(ff, n) {
          var e :| e in es && e.node == n && InRange(ff, e.value);
          var i :| 0 <= i < |es| && es[i] == e;
          assert part[i - lo].node == n;
        }
      }
    }

    /** The bitmap of one condition (None reads as empty) holds exactly the nodes the stored state gives it. */
    method ResolveFieldFilter(ff: FieldFilter) returns (r: Option<set<nat>>)
      requires NumericSorted()
      ensures forall n: nat :: n in Bitmap(r) <==> Keeps(ff, n)
    {
      match ff.op {
        case Eq =>
          var key := CompositeKey(ff.field, ff.value.text);
          r := if key in bits then Some(bits[key]) else None;
        case Ne =>
          var all := AllNodes();
          var key := CompositeKey(ff.field, ff.value.text);
          r := Some(all - BitsAt(bits, key));
        case In =>
          r := UnionOf(ff.field, ff.values);
        case Nin =>
          var all := AllNodes();
          var excluded := UnionOf(ff.field, ff.values);
          r := Some(all - Bitmap(excluded));
        case _ =>
          r := ResolveNumericRange(ff);
      }
    }

    /** Intersects the bitmaps of all AND conditions; None when there are none, empty as soon as one has no bitmap. */
    method ResolveAnd(conditions: seq<FieldFilter>) returns (r: Option<set<nat>>)
      requires NumericSorted()
      ensures r.None? <==> |conditions| == 0
      ensures r.Some? ==>
                forall n: nat :: n in r.value <==> forall i :: 0 <= i < |conditions| ==> Keeps(conditions[i], n)
    {
      hide Keeps;
      r := None;
      for i := 0 to |conditions|
        invariant r.None? <==> i == 0
        invariant r.Some? ==> forall n: nat :: n in r.value <==> forall j :: 0 <= j < i ==> Keeps(conditions[j], n)
      {
        var bm := ResolveFieldFilter(conditions[i]);
        if bm.None? {
          return Some({});
        }
        r := if r.None? then bm else Some(r.value * bm.value);
      }
    }

    /** Compiles a filter: intersection of its AND conditions and of the union of its constraining OR branches. */
    method ResolveInner(f: Filter) returns (r: Option<set<nat>>)
      requires NumericSorted()
      ensures r.None? <==> Unconstrained(f)
      ensures r.Some? ==> forall n: nat :: n in r.value <==> KeepsAll(f, n)
      decreases f
    {
      hide Keeps;
      r := ResolveAnd(f.and);
      var union: Option<set<nat>> := None;
      for i := 0 to |f.or|
        invariant union.None? <==> forall j :: 0 <= j < i ==> Unconstrained(f.or[j])
        invariant union.Some? ==>
                    forall n: nat :: n in union.value <==>
                      exists j :: 0 <= j < i && !Unconstrained(f.or[j]) && KeepsAll(f.or[j], n)
      {
        var sub := ResolveInner(f.or[i]);
        if sub.Some? {
          union := Some(Bitmap(union) + sub.value);
        }
      }
      if union.Some? {
        r := if r.None? then union else Some(r.value * union.value);
      }
    }

    /** Resolves a filter (None for no filter). The stored bitmaps and the represented metadata do not change. */
    method Resolve(f: Option<Filter>) returns (r: Option<set<nat>>)
      modifies this`numericSorted
      ensures SameEntries(old(numericSorted), numericSorted) && (old(Valid()) ==> Valid())
      ensures r.None? <==> f.None? || Unconstrained(f.value)
      ensures r.Some? ==> forall n: nat :: n in r.value <==> KeepsAll(f.value, n)
      ensures Valid() && r.Some? && FilterLeavesOk(f.value, meta) ==>
                forall n: nat :: n < Size() ==> (n in r.value <==> Admits(f.value, MetaAt(meta, n)))
      ensures Valid() && r.Some? && FilterLeavesOk(f.value, meta) && OrsUniform(f.value) ==>
                forall n: nat :: n < Size() ==> (n in r.value <==> Match(f.value, MetaAt(meta, n)))
      ensures r.None? && f.Some? ==> forall n: nat :: Match(f.value, MetaAt(meta, n))
    {
      if f.None? {
        return None;
      }
      SortAll();
      r := ResolveInner(f.value);
      hide BitsOk, EntriesOk, FieldsOk, Match, Admits, KeepsAll;
      if Valid() && FilterLeavesOk(f.value, meta) {
        KeepsAllIsAdmits(f.value);
      }
      if OrsUniform(f.value) {
        forall n: nat ensures Admits(f.value, MetaAt(meta, n)) <==> Match(f.value, MetaAt(meta, n)) {
          AdmitsIsMatch(f.value, MetaAt(meta, n));
        }
      }
      if r.None? {
        forall n: nat ensures Match(f.value, MetaAt(meta, n)) {
          UnconstrainedMatches(f.value, MetaAt(meta, n));
        }
      }
    }
  }
}
