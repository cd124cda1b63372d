/**
 For which filter shapes the compiled bitmap means what the evaluator means, when every
 occurrence of a condition has a truth value of its own. A place in a filter is a path:
 2i leads to the i-th condition, 2j + 1 into the j-th OR branch.
 */
module FilterShapes {
  import opened Common
  import opened Filters
  import opened BitmapIndex

  type Path = seq<nat>

  /** The evaluator, with the conditions at the places in truth taken for true. */
  ghost predicate MatchBy(f: Filter, at: Path, truth: iset<Path>) {
    && (forall i :: 0 <= i < |f.and| ==> at + [2 * i] in truth)
    && (|f.or| > 0 ==> exists j :: 0 <= j < |f.or| && MatchBy(f.or[j], at + [2 * j + 1], truth))
  }

  /** The compiled bitmap, with the conditions at the places in truth taken for true. */
  ghost predicate AdmitsBy(f: Filter, at: Path, truth: iset<Path>) {
    && (forall i :: 0 <= i < |f.and| ==> at + [2 * i] in truth)
    && ((exists j :: 0 <= j < |f.or| && !Unconstrained(f.or[j])) ==>
          exists j :: 0 <= j < |f.or| && !Unconstrained(f.or[j]) && AdmitsBy(f.or[j], at + [2 * j + 1], truth))
  }

  /** Bitmap and evaluator agree under every valuation of the conditions. */
  ghost predicate Agree(f: Filter) {
    forall truth: iset<Path> :: MatchBy(f, [], truth) <==> AdmitsBy(f, [], truth)
  }

  /** The place p lies strictly below at. */
  ghost predicate Under(at: Path, p: Path) {
    |p| > |at| && p[..|at|] == at
  }

  // ---------------------------------------------------------------- the two readings on real metadata

  /** The conditions of f that hold of the metadata. */
  ghost predicate Holding(f: Filter, at: Path, meta: Meta, truth: iset<Path>) {
    && (forall i :: 0 <= i < |f.and| ==> (at + [2 * i] in truth <==> FieldMatch(f.and[i], meta)))
    && forall j :: 0 <= j < |f.or| ==> Holding(f.or[j], at + [2 * j + 1], meta, truth)
  }

  lemma {:induction false} ReadingsAgree(f: Filter, at: Path, meta: Meta, truth: iset<Path>)
    requires Holding(f, at, meta, truth)
    ensures MatchBy(f, at, truth) <==> Match(f, meta)
    ensures AdmitsBy(f, at, truth) <==> Admits(f, meta)
  {
    hide FieldMatch, Unconstrained;
    forall j | 0 <= j < |f.or|
      ensures MatchBy(f.or[j], at + [2 * j + 1], truth) <==> Match(f.or[j], meta)
      ensures AdmitsBy(f.or[j], at + [2 * j + 1], truth) <==> Admits(f.or[j], meta)
    {
      ReadingsAgree(f.or[j], at + [2 * j + 1], meta, truth);
    }
  }

  // ---------------------------------------------------------------- uniform ORs suffice

  lemma {:induction false} UnconstrainedMatchesBy(f: Filter, at: Path, truth: iset<Path>)
    requires Unconstrained(f)
    ensures MatchBy(f, at, truth)
  {
    if |f.or| > 0 {
      UnconstrainedMatchesBy(f.or[0], at + [1], truth);
      assert at + [2 * 0 + 1] == at + [1];
    }
  }

  lemma {:induction false} UniformAgrees(f: Filter, at: Path, truth: iset<Path>)
    requires OrsUniform(f)
    ensures MatchBy(f, at, truth) <==> AdmitsBy(f, at, truth)
  {
    forall j | 0 <= j < |f.or|
      ensures MatchBy(f.or[j], at + [2 * j + 1], truth) <==> AdmitsBy(f.or[j], at + [2 * j + 1], truth)
      ensures Unconstrained(f.or[j]) ==> MatchBy(f.or[j], at + [2 * j + 1], truth)
    {
      UniformAgrees(f.or[j], at + [2 * j + 1], truth);
      if Unconstrained(f.or[j]) {
        UnconstrainedMatchesBy(f.or[j], at + [2 * j + 1], truth);
      }
    }
    hide Unconstrained;
    if |f.or| > 0 && forall j :: 0 <= j < |f.or| ==> Unconstrained(f.or[j]) {
      assert MatchBy(f.or[0], at + [2 * 0 + 1], truth);
    }
  }

  // ---------------------------------------------------------------- and are necessary

  lemma {:induction false} UnderParent(at: Path, j: nat, p: Path)
    ensures Under(at + [2 * j + 1], p) ==> Under(at, p) && p[|at|] == 2 * j + 1
  {
    if |p| > |at| {
      assert p[..|at|] == p[..|at| + 1][..|at|];
      assert p[|at|] == p[..|at| + 1][|at|];
    }
  }

  lemma {:induction false} BelowBranch(at: Path, j: nat, truth: iset<Path>)
    requires forall p :: p in truth ==> !Under(at, p)
    ensures forall p :: p in truth ==> !Under(at + [2 * j + 1], p)
  {
    forall p | p in truth ensures !Under(at + [2 * j + 1], p) {
      UnderParent(at, j, p);
    }
  }

  /** A constraining filter none of whose conditions holds is not admitted. */
  lemma {:induction false} NothingHolds(f: Filter, at: Path, truth: iset<Path>)
    requires !Unconstrained(f) && forall p :: p in truth ==> !Under(at, p)
    ensures !AdmitsBy(f, at, truth)
  {
    if |f.and| > 0 {
      assert Under(at, at + [2 * 0]);
      assert at + [2 * 0] !in truth;
    } else {
      forall j | 0 <= j < |f.or| && !Unconstrained(f.or[j]) ensures !AdmitsBy(f.or[j], at + [2 * j + 1], truth) {
        BelowBranch(at, j, truth);
        NothingHolds(f.or[j], at + [2 * j + 1], truth);
      }
    }
  }

  /** Both readings of a filter depend only on the places below it. */
  lemma {:induction false} OnlyBelow(f: Filter, at: Path, a: iset<Path>, b: iset<Path>)
    requires forall p :: Under(at, p) ==> (p in a <==> p in b)
    ensures MatchBy(f, at, a) <==> MatchBy(f, at, b)
    ensures AdmitsBy(f, at, a) <==> AdmitsBy(f, at, b)
  {
    forall i | 0 <= i < |f.and| ensures at + [2 * i] in a <==> at + [2 * i] in b {
      assert Under(at, at + [2 * i]);
    }
    forall j | 0 <= j < |f.or|
      ensures MatchBy(f.or[j], at + [2 * j + 1], a) <==> MatchBy(f.or[j], at + [2 * j + 1], b)
      ensures AdmitsBy(f.or[j], at + [2 * j + 1], a) <==> AdmitsBy(f.or[j], at + [2 * j + 1], b)
    {
      forall p | Under(at + [2 * j + 1], p) ensures p in a <==> p in b {
        UnderParent(at, j, p);
      }
      OnlyBelow(f.or[j], at + [2 * j + 1], a, b);
    }
  }

  /** The places of the conditions directly in f. */
  ghost function Direct(f: Filter, at: Path): iset<Path> {
    iset i | 0 <= i < |f.and| :: at + [2 * i]
  }

  lemma {:induction false} DirectPlaces(f: Filter, at: Path, p: Path, j: nat)
    requires p in Direct(f, at)
    ensures Under(at, p) && |p| == |at| + 1 && !Under(at + [2 * j + 1], p)
  {
    var i :| 0 <= i < |f.and| && p == at + [2 * i];
    assert p[..|at|] == at;
  }

  lemma {:induction false} UnconstrainedIsUniform(f: Filter)
    requires Unconstrained(f)
    ensures OrsUniform(f)
  {
    forall j | 0 <= j < |f.or| ensures OrsUniform(f.or[j]) {
      UnconstrainedIsUniform(f.or[j]);
    }
  }

  lemma {:induction false} OtherBranch(at: Path, b: nat, j: nat, p: Path)
    requires Under(at + [2 * j + 1], p) && b != j
    ensures !Under(at + [2 * b + 1], p)
  {
    UnderParent(at, j, p);
    UnderParent(at, b, p);
  }

  /** No condition in branch b of a filter at the place holds. */
  ghost predicate EmptyBelow(at: Path, b: nat, truth: iset<Path>) {
    forall p :: p in truth ==> !Under(at + [2 * b + 1], p)
  }

  /** Where the conditions of f hold together with those inside branch j. */
  lemma {:induction false} PlacesInside(f: Filter, at: Path, j: nat, inside: iset<Path>)
    requires forall p :: p in inside ==> Under(at + [2 * j + 1], p)
    ensures forall p :: p in Direct(f, at) + inside ==> Under(at, p)
    ensures forall p :: Under(at + [2 * j + 1], p) ==> (p in Direct(f, at) + inside <==> p in inside)
    ensures forall b: nat :: b != j ==> EmptyBelow(at, b, Direct(f, at) + inside)
  {
    hide Under;
    forall p | p in Direct(f, at) + inside ensures Under(at, p) {
      if p in Direct(f, at) {
        DirectPlaces(f, at, p, j);
      } else {
        UnderParent(at, j, p);
      }
    }
    forall p | Under(at + [2 * j + 1], p) ensures p !in Direct(f, at) {
      if p in Direct(f, at) {
        DirectPlaces(f, at, p, j);
      }
    }
    forall b: nat | b != j ensures EmptyBelow(at, b, Direct(f, at) + inside) {
      forall p | p in Direct(f, at) + inside ensures !Under(at + [2 * b + 1], p) {
        if p in Direct(f, at) {
          DirectPlaces(f, at, p, b);
        } else {
          OtherBranch(at, b, j, p);
        }
      }
    }
  }

  lemma {:induction false} NoBranchAdmits(f: Filter, at: Path, j: nat, truth: iset<Path>)
    requires j < |f.or| && !Unconstrained(f.or[j]) && !AdmitsBy(f.or[j], at + [2 * j + 1], truth)
    requires forall b: nat :: b != j ==> EmptyBelow(at, b, truth)
    ensures !AdmitsBy(f, at, truth)
  {
    hide Under;
    forall b | 0 <= b < |f.or| && !Unconstrained(f.or[b]) ensures !AdmitsBy(f.or[b], at + [2 * b + 1], truth) {
      if b != j {
        assert EmptyBelow(at, b, truth);
        NothingHolds(f.or[b], at + [2 * b + 1], truth);
      }
    }
  }

  lemma {:induction false} SplitInside(f: Filter, at: Path, j: nat, inside: iset<Path>) returns (truth: iset<Path>)
    requires j < |f.or| && !OrsUniform(f.or[j])
    requires MatchBy(f.or[j], at + [2 * j + 1], inside) && !AdmitsBy(f.or[j], at + [2 * j + 1], inside)
    requires forall p :: p in inside ==> Under(at + [2 * j + 1], p)
    ensures MatchBy(f, at, truth) && !AdmitsBy(f, at, truth) && forall p :: p in truth ==> Under(at, p)
  {
    truth := Direct(f, at) + inside;
    PlacesInside(f, at, j, inside);
    assert forall i :: 0 <= i < |f.and| ==> at + [2 * i] in truth;
    hide Direct, Under, OrsUniform;
    OnlyBelow(f.or[j], at + [2 * j + 1], truth, inside);
    if Unconstrained(f.or[j]) {
      UnconstrainedIsUniform(f.or[j]);
    }
    NoBranchAdmits(f, at, j, truth);
  }

  lemma {:induction false} SplitHere(f: Filter, at: Path) returns (truth: iset<Path>)
    requires !OrsUniform(f) && forall j :: 0 <= j < |f.or| ==> OrsUniform(f.or[j])
    ensures MatchBy(f, at, truth) && !AdmitsBy(f, at, truth) && forall p :: p in truth ==> Under(at, p)
  {
    truth := Direct(f, at);
    forall p | p in truth ensures Under(at, p) {
      DirectPlaces(f, at, p, 0);
    }
    var j :| 0 <= j < |f.or| && Unconstrained(f.or[j]);
    UnconstrainedMatchesBy(f.or[j], at + [2 * j + 1], truth);
    forall b | 0 <= b < |f.or| && !Unconstrained(f.or[b]) ensures !AdmitsBy(f.or[b], at + [2 * b + 1], truth) {
      forall p | p in truth ensures !Under(at + [2 * b + 1], p) {
        DirectPlaces(f, at, p, b);
      }
      NothingHolds(f.or[b], at + [2 * b + 1], truth);
    }
  }

  /** A valuation below at under which a filter with a mixed OR is matched and not admitted. */
  lemma {:induction false} Split(f: Filter, at: Path) returns (truth: iset<Path>)
    requires !OrsUniform(f)
    ensures MatchBy(f, at, truth) && !AdmitsBy(f, at, truth) && forall p :: p in truth ==> Under(at, p)
  {
    if j :| 0 <= j < |f.or| && !OrsUniform(f.or[j]) {
      var inside := Split(f.or[j], at + [2 * j + 1]);
      truth := SplitInside(f, at, j, inside);
    } else {
      truth := SplitHere(f, at);
    }
  }

  /** Bitmap and evaluator agree under every valuation if and only if every OR list is uniform. */
  lemma {:induction false} AgreeExactly(f: Filter)
    ensures Agree(f) <==> OrsUniform(f)
  {
    if OrsUniform(f) {
      forall truth: iset<Path> ensures MatchBy(f, [], truth) <==> AdmitsBy(f, [], truth) {
        UniformAgrees(f, [], truth);
      }
    } else {
      var truth := Split(f, []);
      assert !(MatchBy(f, [], truth) <==> AdmitsBy(f, [], truth));
    }
  }
}
