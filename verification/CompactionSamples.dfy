/**
 An exact test for any compaction action, whatever its renames and deletes: it survives every
 crash on every disk if and only if it does so on finitely many sample disks, which hold some
 of the files the action names, each with its own content.
 */
module CompactionSamples {
  import opened Compaction

  /** The paths an action names, in order of appearance. */
  function Named(ops: seq<Op>): seq<string> {
    if ops == [] then []
    else
      var n := |ops| - 1;
      Named(ops[..n]) + match ops[n] case Rename(s, d) => [s, d] case Remove(p) => [p]
  }

  /** Where a path is named first. */
  function First(paths: seq<string>, p: string): (i: nat)
    ensures i <= |paths| && (p in paths ==> i < |paths| && paths[i] == p)
  {
    if paths == [] || paths[0] == p then 0 else First(paths[1..], p) + 1
  }

  /** The sample disk with some of the named files; the length of a content tells the path. */
  function Sample(paths: seq<string>, present: set<string>): Files {
    map p | p in present && p in paths :: seq(First(paths, p), _ => 0 as bv8)
  }

  function Present(fs: Files, paths: seq<string>): set<string> {
    set p | p in paths && p in fs
  }

  /** A crash after n operations is forgotten on this disk. */
  predicate Forgets(a: CompactionAction, fs: Files, n: nat)
    requires n <= |Ops(a)|
  {
    Executed(AppliedAll(fs, Ops(a)[..n]), a) == Executed(fs, a)
  }

  ghost predicate ForgetsOnSamples(a: CompactionAction) {
    forall present: set<string>, n: nat :: (forall p :: p in present ==> p in Named(Ops(a))) && n <= |Ops(a)| ==>
      Forgets(a, Sample(Named(Ops(a)), present), n)
  }

  lemma {:induction false} ReplayableOnSamples(a: CompactionAction)
    ensures Replayable(a) <==> ForgetsOnSamples(a)
  {
    hide Executed, Ops, Sample;
    if Replayable(a) {
      forall present: set<string>, n: nat | n <= |Ops(a)| ensures Forgets(a, Sample(Named(Ops(a)), present), n) {
        var fs := Sample(Named(Ops(a)), present);
        assert Executed(AppliedAll(fs, Ops(a)[..n]), a) == Executed(fs, a);
      }
    }
    if ForgetsOnSamples(a) {
      forall fs: Files, n | 0 <= n <= |Ops(a)| ensures Executed(AppliedAll(fs, Ops(a)[..n]), a) == Executed(fs, a) {
        assert Forgets(a, Sample(Named(Ops(a)), Present(fs, Named(Ops(a)))), n);
        SampleDecides(a, fs, n);
      }
    }
  }

  /** What happens on a disk is what happens on its sample, with the real contents. */
  lemma {:induction false} SampleDecides(a: CompactionAction, fs: Files, n: nat)
    requires n <= |Ops(a)| && Forgets(a, Sample(Named(Ops(a)), Present(fs, Named(Ops(a)))), n)
    ensures Executed(AppliedAll(fs, Ops(a)[..n]), a) == Executed(fs, a)
  {
    var paths := Named(Ops(a));
    var sample, meaning := Sample(paths, Present(fs, paths)), Meaning(fs, paths);
    RelabeledSample(fs, paths);
    NamedAll(Ops(a));
    NamedPrefix(Ops(a), n);
    hide Executed, Sample, AppliedAll, Named;
    ExecutedIs(a);
    RunOnSample(fs, paths, meaning, sample, Ops(a)[..n]);
    RunOnSample(AppliedAll(fs, Ops(a)[..n]), paths, meaning, AppliedAll(sample, Ops(a)[..n]), Ops(a));
    RunOnSample(fs, paths, meaning, sample, Ops(a));
    SplitUnique(Executed(AppliedAll(fs, Ops(a)[..n]), a), Executed(fs, a), paths);
  }

  lemma {:induction false} ExecutedIs(a: CompactionAction)
    ensures forall fs :: Executed(fs, a) == AppliedAll(fs, Ops(a))
  {
  }

  // ---------------------------------------------------------------- named files and the others

  function Inside(fs: Files, paths: seq<string>): Files {
    map p | p in fs && p in paths :: fs[p]
  }

  function Outside(fs: Files, paths: seq<string>): Files {
    map p | p in fs && p !in paths :: fs[p]
  }

  lemma {:induction false} SplitUnique(fs: Files, gs: Files, paths: seq<string>)
    requires Inside(fs, paths) == Inside(gs, paths) && Outside(fs, paths) == Outside(gs, paths)
    ensures fs == gs
  {
    forall p ensures p in fs <==> p in gs {
      assert p in fs <==> p in Inside(fs, paths) || p in Outside(fs, paths);
      assert p in gs <==> p in Inside(gs, paths) || p in Outside(gs, paths);
    }
    forall p | p in fs ensures fs[p] == gs[p] {
      if p in paths {
        assert Inside(fs, paths)[p] == Inside(gs, paths)[p];
      } else {
        assert Outside(fs, paths)[p] == Outside(gs, paths)[p];
      }
    }
  }

  ghost predicate Names(op: Op, paths: seq<string>) {
    match op
    case Rename(s, d) => s in paths && d in paths
    case Remove(p) => p in paths
  }

  ghost predicate NamesAll(ops: seq<Op>, paths: seq<string>) {
    forall i :: 0 <= i < |ops| ==> Names(ops[i], paths)
  }

  lemma {:induction false} NamedAll(ops: seq<Op>)
    ensures NamesAll(ops, Named(ops))
  {
    if ops != [] {
      NamedAll(ops[..|ops| - 1]);
    }
  }

  lemma {:induction false} NamedPrefix(ops: seq<Op>, n: nat)
    requires n <= |ops|
    ensures NamesAll(ops[..n], Named(ops))
  {
    NamedAll(ops);
  }

  // ---------------------------------------------------------------- contents do not matter

  ghost function Relabeled(fs: Files, meaning: Content -> Content): Files {
    map p | p in fs :: meaning(fs[p])
  }

  lemma {:induction false} OpOnSample(fs: Files, paths: seq<string>, meaning: Content -> Content, sample: Files, op: Op)
    requires Names(op, paths) && Inside(fs, paths) == Relabeled(sample, meaning)
    ensures Inside(Applied(fs, op), paths) == Relabeled(Applied(sample, op), meaning)
    ensures Outside(Applied(fs, op), paths) == Outside(fs, paths)
  {
    SampleAt(fs, paths, meaning, sample);
    hide Inside, Outside, Relabeled;
    SampledFrom(Applied(fs, op), paths, meaning, Applied(sample, op));
    OutsideKept(fs, paths, op);
  }

  /** File by file: the sample holds the named files that are there, each standing for its content. */
  ghost predicate Samples(fs: Files, paths: seq<string>, meaning: Content -> Content, sample: Files) {
    && (forall p :: p in sample ==> p in paths && p in fs && fs[p] == meaning(sample[p]))
    && forall p :: p in paths && p in fs ==> p in sample
  }

  lemma {:induction false} SampleAt(fs: Files, paths: seq<string>, meaning: Content -> Content, sample: Files)
    requires Inside(fs, paths) == Relabeled(sample, meaning)
    ensures Samples(fs, paths, meaning, sample)
  {
    var inside, back := Inside(fs, paths), Relabeled(sample, meaning);
    assert forall p :: p in sample <==> p in back;
    assert forall p :: p in sample ==> back[p] == meaning(sample[p]) && p in inside && inside[p] == fs[p];
    assert forall p :: p in paths && p in fs ==> p in inside;
  }

  lemma {:induction false} SampledFrom(fs: Files, paths: seq<string>, meaning: Content -> Content, sample: Files)
    requires Samples(fs, paths, meaning, sample)
    ensures Inside(fs, paths) == Relabeled(sample, meaning)
  {
  }

  lemma {:induction false} OutsideKept(fs: Files, paths: seq<string>, op: Op)
    requires Names(op, paths)
    ensures Outside(Applied(fs, op), paths) == Outside(fs, paths)
  {
  }

  lemma {:induction false} RunOnSample(fs: Files, paths: seq<string>, meaning: Content -> Content, sample: Files,
                                       ops: seq<Op>)
    requires NamesAll(ops, paths) && Inside(fs, paths) == Relabeled(sample, meaning)
    ensures Inside(AppliedAll(fs, ops), paths) == Relabeled(AppliedAll(sample, ops), meaning)
    ensures Outside(AppliedAll(fs, ops), paths) == Outside(fs, paths)
  {
    if ops != [] {
      var n := |ops| - 1;
      RunOnSample(fs, paths, meaning, sample, ops[..n]);
      OpOnSample(AppliedAll(fs, ops[..n]), paths, meaning, AppliedAll(sample, ops[..n]), ops[n]);
    }
  }

  /** The content a sample content stands for. */
  ghost function Meaning(fs: Files, paths: seq<string>): Content -> Content {
    (c: Content) => if |c| < |paths| && paths[|c|] in fs then fs[paths[|c|]] else c
  }

  lemma {:induction false} RelabeledSample(fs: Files, paths: seq<string>)
    ensures Inside(fs, paths) == Relabeled(Sample(paths, Present(fs, paths)), Meaning(fs, paths))
  {
    var sample := Sample(paths, Present(fs, paths));
    var inside, back := Inside(fs, paths), Relabeled(sample, Meaning(fs, paths));
    forall p ensures p in inside <==> p in back {}
    forall p | p in inside ensures back[p] == inside[p] {
      assert |sample[p]| == First(paths, p);
      assert back[p] == Meaning(fs, paths)(sample[p]);
    }
    assert inside == back;
  }
}
