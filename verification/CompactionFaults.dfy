/**
 Start-ups on which file operations may also fail without a crash. A failed action keeps
 its file and is executed again at the next start-up, after the actions that followed it:
 it is overtaken. This is harmless exactly when the actions commute.
 */
module CompactionFaults {
  import opened Compaction

  /** One start-up took f for its first action file and left it. */
  ghost predicate Leaves(f: ActionFile, d: Disk) {
    d.actions != [] && d.actions[0] == f
  }

  ghost function Later(d: Disk): Disk
    requires d.actions != []
  {
    Disk(d.files, d.actions[1..])
  }

  /**
   What one start-up leaves when any operation may fail and any may be the last: each
   readable action was carried out to some point, and its file removed or left behind.
   */
  ghost predicate TurnLeaves(d: Disk, d': Disk)
    decreases |d.actions|, 1
  {
    if d.actions == [] then d' == d
    else if d.actions[0].Unreadable? then Leaves(d.actions[0], d') && TurnLeaves(Later(d), Later(d'))
    else exists n: nat :: n <= |Ops(d.actions[0].action)| && TurnAt(d, n, d')
  }

  /** The first action was carried out for n operations. */
  ghost predicate TurnAt(d: Disk, n: nat, d': Disk)
    requires d.actions != [] && d.actions[0].Readable? && n <= |Ops(d.actions[0].action)|
    decreases |d.actions|, 0
  {
    var ops := Ops(d.actions[0].action);
    var files := AppliedAll(d.files, ops[..n]);
    || d' == Disk(files, d.actions)
    || (n == |ops| && TurnLeaves(Disk(files, d.actions[1..]), d'))
    || (Leaves(d.actions[0], d') && TurnLeaves(Disk(files, d.actions[1..]), Later(d')))
  }

  // ---------------------------------------------------------------- actions that commute

  ghost predicate Commute(a: CompactionAction, b: CompactionAction) {
    forall fs: Files :: Executed(Executed(fs, a), b) == Executed(Executed(fs, b), a)
  }

  ghost predicate CommutesWithAll(a: CompactionAction, actions: seq<ActionFile>) {
    forall f :: f in actions && f.Readable? ==> Commute(a, f.action)
  }

  ghost predicate AllCommute(actions: seq<ActionFile>) {
    actions == [] ||
    ((actions[0].Readable? ==> CommutesWithAll(actions[0].action, actions[1..])) && AllCommute(actions[1..]))
  }

  /** An action that commutes with all others can as well be executed after them. */
  lemma {:induction false} RecoveredCommutes(fs: Files, actions: seq<ActionFile>, a: CompactionAction)
    requires CommutesWithAll(a, actions)
    ensures var r := Recovered(Disk(fs, actions));
            Recovered(Disk(Executed(fs, a), actions)) == Disk(Executed(r.files, a), r.actions)
    decreases |actions|
  {
    if actions != [] {
      var f, rest := actions[0], actions[1..];
      match f
      case Readable(_, b) =>
        assert f in actions;
        RecoveredCommutes(Executed(fs, b), rest, a);
      case Unreadable(_) =>
        RecoveredCommutes(fs, rest, a);
    }
  }

  lemma {:induction false} TurnKeeps(d: Disk, d': Disk)
    requires TurnLeaves(d, d')
    ensures forall f :: f in d'.actions ==> f in d.actions
    ensures AllSafe(d.actions) ==> AllSafe(d'.actions)
    ensures AllCommute(d.actions) ==> AllCommute(d'.actions)
    decreases |d.actions|
  {
    hide Commute, SafeOrder, AppliedAll, Ops;
    if d.actions != [] {
      var f, rest := d.actions[0], d.actions[1..];
      if f.Unreadable? {
        TurnKeeps(Later(d), Later(d'));
        KeptInFront(f, rest, d'.actions);
      } else {
        var n: nat :| n <= |Ops(f.action)| && TurnAt(d, n, d');
        var next := Disk(AppliedAll(d.files, Ops(f.action)[..n]), rest);
        if d'.actions == d.actions {
        } else if n == |Ops(f.action)| && TurnLeaves(next, d') {
          TurnKeeps(next, d');
        } else {
          TurnKeeps(next, Later(d'));
          KeptInFront(f, rest, d'.actions);
        }
      }
    }
  }

  lemma {:induction false} KeptInFront(f: ActionFile, rest: seq<ActionFile>, left: seq<ActionFile>)
    requires left != [] && left[0] == f && forall g :: g in left[1..] ==> g in rest
    ensures forall g :: g in left ==> g in [f] + rest
    ensures AllSafe([f] + rest) ==> AllSafe(left)
    ensures AllCommute([f] + rest) && AllCommute(left[1..]) ==> AllCommute(left)
  {
    hide Commute, SafeOrder;
    assert left == [f] + left[1..];
    assert ([f] + rest)[1..] == rest;
  }

  /** A start-up with any failures does not change where recovery ends up, if the actions commute. */
  lemma {:induction false} TurnIsForgotten(d: Disk, d': Disk)
    requires TurnLeaves(d, d') && AllSafe(d.actions) && AllCommute(d.actions)
    ensures Recovered(d') == Recovered(d)
    decreases |d.actions|
  {
    if d.actions != [] {
      var f, rest := d.actions[0], d.actions[1..];
      if f.Unreadable? {
        TurnIsForgotten(Later(d), Later(d'));
      } else {
        var n: nat :| n <= |Ops(f.action)| && TurnAt(d, n, d');
        ReadableTurn(d, n, d');
      }
    }
  }

  lemma {:induction false} ReadableTurn(d: Disk, n: nat, d': Disk)
    requires AllSafe(d.actions) && AllCommute(d.actions) && d.actions != [] && d.actions[0].Readable?
    requires n <= |Ops(d.actions[0].action)| && TurnAt(d, n, d')
    ensures Recovered(d') == Recovered(d)
    decreases |d.actions|, 0
  {
    var a, rest := d.actions[0].action, d.actions[1..];
    var files := AppliedAll(d.files, Ops(a)[..n]);
    SafeIsReplayable(a);
    assert Executed(files, a) == Executed(d.files, a);
    if d' == Disk(files, d.actions) {
    } else if n == |Ops(a)| && TurnLeaves(Disk(files, rest), d') {
      assert Ops(a)[..n] == Ops(a);
      TurnIsForgotten(Disk(files, rest), d');
    } else {
      var e := Later(d');
      TurnIsForgotten(Disk(files, rest), e);
      TurnKeeps(Disk(files, rest), e);
      RecoveredCommutes(files, rest, a);
      RecoveredCommutes(e.files, e.actions, a);
    }
  }

  // ---------------------------------------------------------------- a start-up under way

  /** From d, with the action files in kept left behind, what is left to do is d'. */
  ghost predicate Ahead(d: Disk, kept: seq<ActionFile>, d': Disk) {
    forall e :: TurnLeaves(d', e) ==> TurnLeaves(d, Behind(kept, e))
  }

  lemma {:induction false} AheadStart(d: Disk)
    ensures Ahead(d, [], d)
  {
    hide TurnLeaves;
    forall e: Disk ensures Behind([], e) == e {
      assert [] + e.actions == e.actions;
    }
  }

  /** The first action was carried out for n operations; its file stays, or goes after the last one. */
  lemma {:induction false} AheadStep(d: Disk, kept: seq<ActionFile>, now: Disk, n: nat, more: seq<ActionFile>,
                                     next: Disk)
    requires Ahead(d, kept, now) && now.actions != [] && next.actions == now.actions[1..]
    requires now.actions[0].Readable? ==>
               && n <= |Ops(now.actions[0].action)| &&
                 next.files == AppliedAll(now.files, Ops(now.actions[0].action)[..n])
               && (more == [now.actions[0]] || (more == [] && n == |Ops(now.actions[0].action)|))
    requires now.actions[0].Unreadable? ==> more == [now.actions[0]] && next.files == now.files
    ensures Ahead(d, kept + more, next)
  {
    hide AppliedAll, Ops;
    forall e | TurnLeaves(next, e) ensures TurnLeaves(d, Behind(kept + more, e)) {
      assert next == Disk(next.files, now.actions[1..]);
      assert Behind(more, e).actions[|more|..] == e.actions;
      assert more == [] ==> Behind(more, e) == e;
      assert more != [] ==> Later(Behind(more, e)) == e;
      if now.actions[0].Readable? {
        assert TurnAt(now, n, Behind(more, e));
      }
      assert TurnLeaves(now, Behind(more, e));
      BehindTwice(kept, more, e);
    }
  }

  lemma {:induction false} AheadStop(d: Disk, kept: seq<ActionFile>, now: Disk, n: nat)
    requires Ahead(d, kept, now) && now.actions != [] && now.actions[0].Readable? && n <= |Ops(now.actions[0].action)|
    ensures TurnLeaves(d, Disk(AppliedAll(now.files, Ops(now.actions[0].action)[..n]), kept + now.actions))
  {
    hide AppliedAll, Ops;
    var e := Disk(AppliedAll(now.files, Ops(now.actions[0].action)[..n]), now.actions);
    assert TurnAt(now, n, e);
    assert TurnLeaves(d, Behind(kept, e));
  }

  // ---------------------------------------------------------------- exactly when

  /** Whatever fails during one start-up, the next one that works ends as if nothing had. */
  ghost predicate Tolerant(actions: seq<ActionFile>) {
    forall fs: Files, d' :: TurnLeaves(Disk(fs, actions), d') ==> Recovered(d') == Recovered(Disk(fs, actions))
  }

  /** Of two safe actions exactly the commuting ones tolerate every failure. */
  lemma {:induction false} TolerantExactly(p: string, a: CompactionAction, q: string, b: CompactionAction)
    requires SafeOrder(a) && SafeOrder(b)
    ensures Tolerant([Readable(p, a), Readable(q, b)]) <==> Commute(a, b)
  {
    var l := [Readable(p, a), Readable(q, b)];
    assert l[1..] == [Readable(q, b)] && l[1..][1..] == [];
    if Commute(a, b) {
      forall fs: Files, d' | TurnLeaves(Disk(fs, l), d') ensures Recovered(d') == Recovered(Disk(fs, l)) {
        TurnIsForgotten(Disk(fs, l), d');
      }
    }
    if Tolerant(l) {
      forall fs: Files ensures Executed(Executed(fs, a), b) == Executed(Executed(fs, b), a) {
        Overtaken(fs, p, a, q, b);
        RecoveredPair(fs, p, a, q, b);
      }
    }
  }

  lemma {:induction false} RecoveredOne(fs: Files, p: string, a: CompactionAction)
    ensures Recovered(Disk(fs, [Readable(p, a)])) == Disk(Executed(fs, a), [])
  {
  }

  lemma {:induction false} RecoveredPair(fs: Files, p: string, a: CompactionAction, q: string, b: CompactionAction)
    ensures Recovered(Disk(fs, [Readable(p, a), Readable(q, b)])) == Disk(Executed(Executed(fs, a), b), [])
  {
    var l := [Readable(p, a), Readable(q, b)];
    assert l[1..] == [Readable(q, b)];
    RecoveredOne(Executed(fs, a), q, b);
  }

  /** The first action fails at once, the second succeeds. */
  lemma {:induction false} Overtaken(fs: Files, p: string, a: CompactionAction, q: string, b: CompactionAction)
    ensures var d' := Disk(Executed(fs, b), [Readable(p, a)]);
            TurnLeaves(Disk(fs, [Readable(p, a), Readable(q, b)]), d') &&
              Recovered(d') == Disk(Executed(Executed(fs, b), a), [])
  {
    var f, g := Readable(p, a), Readable(q, b);
    var l := [f, g];
    var d' := Disk(Executed(fs, b), [f]);
    RecoveredOne(Executed(fs, b), p, a);
    hide Recovered;
    assert l[1..] == [g] && [g][1..] == [] && Later(d') == Disk(Executed(fs, b), []);
    NoOps(fs, Ops(a));
    assert Ops(b)[..|Ops(b)|] == Ops(b);
    hide AppliedAll, Ops;
    var next := Disk(fs, [g]);
    assert TurnAt(next, |Ops(b)|, Disk(Executed(fs, b), []));
    assert TurnLeaves(next, Disk(Executed(fs, b), []));
    assert TurnAt(Disk(fs, l), 0, d');
  }

  // ---------------------------------------------------------------- actions on different files

  function Paths(op: Op): set<string> {
    match op
    case Rename(s, d) => {s, d}
    case Remove(p) => {p}
  }

  /** No operation of one touches a file of the other. */
  ghost predicate Apart(a: CompactionAction, b: CompactionAction) {
    forall i, j :: 0 <= i < |Ops(a)| && 0 <= j < |Ops(b)| ==> Paths(Ops(a)[i]) !! Paths(Ops(b)[j])
  }

  lemma {:induction false} OpsCommute(fs: Files, x: Op, y: Op)
    requires Paths(x) !! Paths(y)
    ensures Applied(Applied(fs, x), y) == Applied(Applied(fs, y), x)
  {
    hide Applied;
    var a, b := Applied(Applied(fs, x), y), Applied(Applied(fs, y), x);
    forall p ensures (p in a <==> p in b) && (p in a ==> a[p] == b[p]) {}
  }

  lemma {:induction false} OpPasses(fs: Files, x: Op, ops: seq<Op>)
    requires forall j :: 0 <= j < |ops| ==> Paths(x) !! Paths(ops[j])
    ensures AppliedAll(Applied(fs, x), ops) == Applied(AppliedAll(fs, ops), x)
  {
    if ops != [] {
      var n := |ops| - 1;
      OpPasses(fs, x, ops[..n]);
      OpsCommute(AppliedAll(fs, ops[..n]), x, ops[n]);
    }
  }

  lemma {:induction false} ListsCommute(fs: Files, xs: seq<Op>, ys: seq<Op>)
    requires forall i, j :: 0 <= i < |xs| && 0 <= j < |ys| ==> Paths(xs[i]) !! Paths(ys[j])
    ensures AppliedAll(AppliedAll(fs, xs), ys) == AppliedAll(AppliedAll(fs, ys), xs)
  {
    if xs != [] {
      var n := |xs| - 1;
      ListsCommute(fs, xs[..n], ys);
      OpPasses(AppliedAll(fs, xs[..n]), xs[n], ys);
    }
  }

  /** Actions on different files commute, so that start-ups may fail in any way. */
  lemma {:induction false} ApartCommute(a: CompactionAction, b: CompactionAction)
    requires Apart(a, b)
    ensures Commute(a, b)
  {
    forall fs: Files ensures Executed(Executed(fs, a), b) == Executed(Executed(fs, b), a) {
      ListsCommute(fs, Ops(a), Ops(b));
    }
  }

  /** a -> b fails, b -> c finds nothing, and the file ends one rename short. */
  lemma {:induction false} OvertakenRenameFails(p: string, q: string)
    ensures var a, b := CompactionAction([FileRename("a", "b")], []), CompactionAction([FileRename("b", "c")], []);
            SafeOrder(a) && SafeOrder(b) && !Tolerant([Readable(p, a), Readable(q, b)])
  {
    var a, b := CompactionAction([FileRename("a", "b")], []), CompactionAction([FileRename("b", "c")], []);
    var fs: Files := map["a" := []];
    var x, y := Rename("a", "b"), Rename("b", "c");
    assert Ops(a) == [x] && Ops(b) == [y];
    TwoOps(fs, x, y);
    TwoOps(fs, y, x);
    TwoOps(Applied(fs, x), y, x);
    TwoOps(Applied(fs, y), x, y);
    assert "c" in Executed(Executed(fs, a), b) && "c" !in Executed(Executed(fs, b), a);
    TolerantExactly(p, a, q, b);
  }
}
