/**
 Compaction action files. An action is a list of renames followed by a list of deletes;
 recovery replays every action file of the directory in name order and removes each
 after it was executed. The machine may stop between any two file operations, any
 number of times.
 */
module Compaction {
  type Content = seq<bv8>

  datatype FileRename = FileRename(source: string, destination: string)
  datatype CompactionAction = CompactionAction(renames: seq<FileRename>, deletes: seq<string>)

  /** An action file; a file that does not parse holds no action. */
  datatype ActionFile = Readable(path: string, action: CompactionAction) | Unreadable(path: string)

  datatype Op = Rename(source: string, destination: string) | Remove(path: string)

  type Files = map<string, Content>

  /** One file operation; a missing source or target is skipped and a rename overwrites its destination. */
  function Applied(fs: Files, op: Op): (gs: Files)
    ensures op.Rename? && op.source in fs ==>
              && op.destination in gs && gs[op.destination] == fs[op.source]
              && (op.source != op.destination ==> op.source !in gs)
              && forall p :: p != op.source && p != op.destination ==> (p in gs <==> p in fs)
                                                                       && (p in gs ==> gs[p] == fs[p])
    ensures op.Rename? && op.source !in fs ==> gs == fs
    ensures op.Remove? ==>
              op.path !in gs && forall p :: p != op.path ==> (p in gs <==> p in fs) && (p in gs ==> gs[p] == fs[p])
  {
    match op
    case Rename(s, d) => if s in fs then (fs - {s})[d := fs[s]] else fs
    case Remove(p) => fs - {p}
  }

  function AppliedAll(fs: Files, ops: seq<Op>): Files {
    if ops == [] then fs else Applied(AppliedAll(fs, ops[..|ops| - 1]), ops[|ops| - 1])
  }

  function Ops(a: CompactionAction): (ops: seq<Op>)
    ensures |ops| == |a.renames| + |a.deletes|
  {
    seq(|a.renames|, i requires 0 <= i < |a.renames| => Rename(a.renames[i].source, a.renames[i].destination))
    + seq(|a.deletes|, i requires 0 <= i < |a.deletes| => Remove(a.deletes[i]))
  }

  lemma {:induction false} OpAt(a: CompactionAction, i: nat)
    requires i < |Ops(a)|
    ensures i < |a.renames| ==> Ops(a)[i] == Rename(a.renames[i].source, a.renames[i].destination)
    ensures i >= |a.renames| ==> Ops(a)[i] == Remove(a.deletes[i - |a.renames|])
  {
  }

  // ---------------------------------------------------------------- replaying one action

  /** The operation has nothing left to do. */
  ghost predicate Spent(fs: Files, op: Op) {
    match op
    case Rename(s, d) => s !in fs || s == d
    case Remove(p) => p !in fs
  }

  lemma {:induction false} SpentExactly(fs: Files, op: Op)
    ensures Spent(fs, op) <==> Applied(fs, op) == fs
  {
    if op.Rename? && !Spent(fs, op) {
      assert op.source !in Applied(fs, op);
    }
  }

  /** A rename whose destination is the source of an earlier one brings that source back. */
  ghost predicate BringsBack(earlier: FileRename, later: FileRename) {
    later.destination == earlier.source && later.source != later.destination && earlier.source != earlier.destination
  }

  ghost predicate SafeOrder(a: CompactionAction) {
    forall i, j :: 0 <= i < j < |a.renames| ==> !BringsBack(a.renames[i], a.renames[j])
  }

  /** Once performed, an operation of a safe action stays spent while the rest is performed. */
  lemma {:induction false} StaysSpent(a: CompactionAction, fs: Files, i: nat, j: nat)
    requires SafeOrder(a) && i <= j < |Ops(a)|
    requires i < j ==> Spent(fs, Ops(a)[i])
    ensures Spent(Applied(fs, Ops(a)[j]), Ops(a)[i])
  {
    if i < j < |a.renames| {
      assert !BringsBack(a.renames[i], a.renames[j]);
    }
  }

  lemma {:induction false} PerformedAreSpent(a: CompactionAction, fs: Files, n: nat)
    requires SafeOrder(a) && n <= |Ops(a)|
    ensures forall i :: 0 <= i < n ==> Spent(AppliedAll(fs, Ops(a)[..n]), Ops(a)[i])
  {
    if n > 0 {
      PerformedAreSpent(a, fs, n - 1);
      OneMoreOp(fs, Ops(a), n - 1);
      forall i | 0 <= i < n ensures Spent(AppliedAll(fs, Ops(a)[..n]), Ops(a)[i]) {
        StaysSpent(a, AppliedAll(fs, Ops(a)[..n - 1]), i, n - 1);
      }
    }
  }

  lemma {:induction false} NoOps(fs: Files, ops: seq<Op>)
    ensures AppliedAll(fs, ops[..0]) == fs
  {
  }

  lemma {:induction false} OneMoreOp(fs: Files, ops: seq<Op>, n: nat)
    requires n < |ops|
    ensures AppliedAll(fs, ops[..n + 1]) == Applied(AppliedAll(fs, ops[..n]), ops[n])
  {
    assert ops[..n + 1][..n] == ops[..n];
  }

  lemma {:induction false} SpentReplay(fs: Files, ops: seq<Op>, n: nat)
    requires n <= |ops| && forall i :: 0 <= i < n ==> Spent(fs, ops[i])
    ensures AppliedAll(fs, ops[..n]) == fs
  {
    if n > 0 {
      SpentReplay(fs, ops, n - 1);
      OneMoreOp(fs, ops, n - 1);
      SpentExactly(fs, ops[n - 1]);
    }
  }

  /** Replaying from a state that agrees after n operations agrees after all of them. */
  lemma {:induction false} AgreesFrom(fs: Files, gs: Files, ops: seq<Op>, n: nat, k: nat)
    requires n <= k <= |ops| && AppliedAll(fs, ops[..n]) == AppliedAll(gs, ops[..n])
    ensures AppliedAll(fs, ops[..k]) == AppliedAll(gs, ops[..k])
    decreases k
  {
    if n < k {
      AgreesFrom(fs, gs, ops, n, k - 1);
      AgreesNext(fs, gs, ops, k - 1);
    }
  }

  lemma {:induction false} AgreesNext(fs: Files, gs: Files, ops: seq<Op>, k: nat)
    requires k < |ops| && AppliedAll(fs, ops[..k]) == AppliedAll(gs, ops[..k])
    ensures AppliedAll(fs, ops[..k + 1]) == AppliedAll(gs, ops[..k + 1])
  {
    hide *;
    OneMoreOp(fs, ops, k);
    OneMoreOp(gs, ops, k);
  }

  function Executed(fs: Files, a: CompactionAction): Files {
    AppliedAll(fs, Ops(a))
  }

  /** A crash after any number of operations is forgotten by executing the action again. */
  ghost predicate Replayable(a: CompactionAction) {
    forall fs: Files, n | 0 <= n <= |Ops(a)| :: Executed(AppliedAll(fs, Ops(a)[..n]), a) == Executed(fs, a)
  }

  lemma {:induction false} SafeIsReplayable(a: CompactionAction)
    requires SafeOrder(a)
    ensures Replayable(a)
  {
    forall fs: Files, n | 0 <= n <= |Ops(a)|
      ensures Executed(AppliedAll(fs, Ops(a)[..n]), a) == Executed(fs, a)
    {
      var gs := AppliedAll(fs, Ops(a)[..n]);
      PerformedAreSpent(a, fs, n);
      SpentReplay(gs, Ops(a), n);
      AgreesFrom(fs, gs, Ops(a), n, |Ops(a)|);
      assert Ops(a)[..|Ops(a)|] == Ops(a);
    }
  }

  // ---------------------------------------------------------------- when the order matters

  /**
   Each file is renamed at most once, nothing just renamed is deleted, and renames lead
   one way only: some ranking of the paths increases along each of them.
   */
  ghost predicate OneWay(a: CompactionAction, rank: string -> int) {
    && (forall i :: 0 <= i < |a.renames| ==> rank(a.renames[i].source) < rank(a.renames[i].destination))
    && (forall i, j :: 0 <= i < j < |a.renames| ==> a.renames[i].source != a.renames[j].source)
    && (forall i, d :: 0 <= i < |a.renames| && d in a.deletes ==> a.renames[i].destination != d)
  }

  /** Where a lone file at p is after the first n operations, if nothing deletes it. */
  ghost function Trail(a: CompactionAction, p: string, n: nat): string
    requires n <= |a.renames|
  {
    if n == 0 then p
    else if a.renames[n - 1].source == Trail(a, p, n - 1) then a.renames[n - 1].destination
    else Trail(a, p, n - 1)
  }

  lemma {:induction false} TrailClimbs(a: CompactionAction, rank: string -> int, p: string, n: nat)
    requires OneWay(a, rank) && n <= |a.renames|
    ensures Trail(a, p, n) != p ==> rank(p) < rank(Trail(a, p, n))
    ensures Trail(a, p, n) == p || exists i :: 0 <= i < n && a.renames[i].destination == Trail(a, p, n)
  {
    if n > 0 {
      TrailClimbs(a, rank, p, n - 1);
    }
  }

  lemma {:induction false} TrailLeaves(a: CompactionAction, rank: string -> int, p: string, i: nat, n: nat)
    requires OneWay(a, rank) && i < n <= |a.renames| && a.renames[i].source == p
    ensures rank(p) < rank(Trail(a, p, n))
  {
    if i < n - 1 {
      TrailLeaves(a, rank, p, i, n - 1);
    } else {
      TrailClimbs(a, rank, p, n - 1);
    }
  }

  /** The file renamed j-th stays put before and, if its destination was already served, after. */
  lemma {:induction false} TrailOfLate(a: CompactionAction, rank: string -> int, i: nat, j: nat, n: nat)
    requires OneWay(a, rank) && i < j < |a.renames| && BringsBack(a.renames[i], a.renames[j]) && n <= |a.renames|
    ensures Trail(a, a.renames[j].source, n) == if n <= j then a.renames[j].source else a.renames[j].destination
  {
    if n > 0 {
      TrailOfLate(a, rank, i, j, n - 1);
    }
  }

  lemma {:induction false} LoneFile(a: CompactionAction, p: string, v: Content, n: nat)
    requires n <= |a.renames|
    ensures AppliedAll(map[p := v], Ops(a)[..n]) == map[Trail(a, p, n) := v]
  {
    if n > 0 {
      LoneFile(a, p, v, n - 1);
      OneMoreOp(map[p := v], Ops(a), n - 1);
    }
  }

  lemma {:induction false} RemovesAnother(p: string, v: Content, q: string)
    requires q != p
    ensures Applied(map[p := v], Remove(q)) == map[p := v]
  {
  }

  lemma {:induction false} DeletesMiss(a: CompactionAction, fs: Files, p: string, v: Content, n: nat)
    requires |a.renames| <= n <= |Ops(a)| && p !in a.deletes
    requires AppliedAll(fs, Ops(a)[..|a.renames|]) == map[p := v]
    ensures AppliedAll(fs, Ops(a)[..n]) == map[p := v]
    decreases n
  {
    hide Ops, AppliedAll;
    if n > |a.renames| {
      DeletesMiss(a, fs, p, v, n - 1);
      OneMoreOp(fs, Ops(a), n - 1);
      OpAt(a, n - 1);
      RemovesAnother(p, v, a.deletes[n - 1 - |a.renames|]);
    }
  }

  lemma {:induction false} LoneFileExecuted(a: CompactionAction, p: string, v: Content)
    requires Trail(a, p, |a.renames|) !in a.deletes
    ensures Executed(map[p := v], a) == map[Trail(a, p, |a.renames|) := v]
  {
    LoneFile(a, p, v, |a.renames|);
    DeletesMiss(a, map[p := v], Trail(a, p, |a.renames|), v, |Ops(a)|);
    assert Ops(a)[..|Ops(a)|] == Ops(a);
  }

  /** Of one-way actions exactly the safely ordered ones survive every crash. */
  lemma {:induction false} ReplayableExactly(a: CompactionAction, rank: string -> int)
    requires OneWay(a, rank)
    ensures Replayable(a) <==> SafeOrder(a)
  {
    if SafeOrder(a) {
      SafeIsReplayable(a);
    } else {
      var i, j :| 0 <= i < j < |a.renames| && BringsBack(a.renames[i], a.renames[j]);
      UnsafeFails(a, rank, i, j);
    }
  }

  lemma {:induction false} UnsafeFails(a: CompactionAction, rank: string -> int, i: nat, j: nat)
    requires OneWay(a, rank) && i < j < |a.renames| && BringsBack(a.renames[i], a.renames[j])
    ensures !Replayable(a)
  {
    var c, b := a.renames[j].source, a.renames[i].source;
    var n, v: Content := |a.renames|, [];
    TrailOfLate(a, rank, i, j, n);
    LoneFileExecuted(a, c, v);
    TrailClimbs(a, rank, b, n);
    TrailLeaves(a, rank, b, i, n);
    LoneFileExecuted(a, b, v);
    var fs: Files := map[c := v];
    assert Ops(a)[..|Ops(a)|] == Ops(a);
    assert AppliedAll(fs, Ops(a)[..|Ops(a)|]) == map[b := v];
    assert Trail(a, b, n) != b;
    assert b in map[b := v] && b !in map[Trail(a, b, n) := v];
  }

  /** One file, the action a -> b, c -> a, and a crash at the very end: the replay moves the file on. */
  lemma {:induction false} LateArrivalIsLost()
    ensures !Replayable(CompactionAction([FileRename("a", "b"), FileRename("c", "a")], []))
  {
    var a := CompactionAction([FileRename("a", "b"), FileRename("c", "a")], []);
    var rank: string -> int := p => if p == "b" then 2 else if p == "a" then 1 else 0;
    assert BringsBack(a.renames[0], a.renames[1]);
    ReplayableExactly(a, rank);
  }

  /** Renames that run in a circle can survive every crash although one brings a source back. */
  lemma {:induction false} SwapSurvives()
    ensures var a := CompactionAction([FileRename("a", "b"), FileRename("b", "a")], []); Replayable(a) && !SafeOrder(a)
  {
    var a := CompactionAction([FileRename("a", "b"), FileRename("b", "a")], []);
    assert BringsBack(a.renames[0], a.renames[1]);
    var x, y := Rename("a", "b"), Rename("b", "a");
    assert Ops(a) == [x, y];
    forall fs: Files, n | 0 <= n <= |Ops(a)|
      ensures Executed(AppliedAll(fs, Ops(a)[..n]), a) == Executed(fs, a)
    {
      TwoOps(fs, x, y);
      TwoOps(AppliedAll(fs, Ops(a)[..n]), x, y);
      assert Ops(a)[..0] == [] && Ops(a)[..1] == [x] && Ops(a)[..2] == [x, y];
      assert n == 0 || n == 1 || n == 2;
      SwapSettles(fs);
    }
  }

  lemma {:induction false} TwoOps(fs: Files, x: Op, y: Op)
    ensures AppliedAll(fs, [x]) == Applied(fs, x) && AppliedAll(fs, [x, y]) == Applied(Applied(fs, x), y)
  {
    assert [x, y][..1] == [x] && [x][..0] == [];
  }

  lemma {:induction false} SwapSettles(fs: Files)
    ensures var x, y := Rename("a", "b"), Rename("b", "a");
            var once := Applied(fs, x);
            Applied(Applied(once, x), y) == Applied(once, y) &&
              Applied(Applied(Applied(once, y), x), y) == Applied(once, y)
  {
  }

  // ---------------------------------------------------------------- the whole directory

  datatype Disk = Disk(files: Files, actions: seq<ActionFile>)

  function Recovered(d: Disk): Disk
    decreases |d.actions|
  {
    if d.actions == [] then d
    else
      var f, rest := d.actions[0], d.actions[1..];
      match f
      case Readable(_, a) => Recovered(Disk(Executed(d.files, a), rest))
      case Unreadable(_) => var r := Recovered(Disk(d.files, rest)); Disk(r.files, [f] + r.actions)
  }

  /**
   The disk a crash leaves: some action files done and removed, unreadable ones passed
   over, and at most the next one partly executed.
   */
  ghost predicate CrashLeaves(d: Disk, d': Disk)
    decreases |d.actions|
  {
    d' == d ||
    (d.actions != [] &&
     var f, rest := d.actions[0], d.actions[1..];
     match f
     case Readable(_, a) =>
       || (exists n | 0 <= n <= |Ops(a)| :: d' == Disk(AppliedAll(d.files, Ops(a)[..n]), d.actions))
       || CrashLeaves(Disk(Executed(d.files, a), rest), d')
     case Unreadable(_) =>
       d'.actions != [] && d'.actions[0] == f && CrashLeaves(Disk(d.files, rest), Disk(d'.files, d'.actions[1..])))
  }

  ghost predicate AllSafe(actions: seq<ActionFile>) {
    forall f :: f in actions && f.Readable? ==> SafeOrder(f.action)
  }

  lemma {:induction false} CrashKeepsSafe(d: Disk, d': Disk)
    requires CrashLeaves(d, d') && AllSafe(d.actions)
    ensures AllSafe(d'.actions)
    decreases |d.actions|
  {
    if d' != d {
      var f, rest := d.actions[0], d.actions[1..];
      match f
      case Readable(_, a) =>
        if CrashLeaves(Disk(Executed(d.files, a), rest), d') {
          CrashKeepsSafe(Disk(Executed(d.files, a), rest), d');
        }
      case Unreadable(_) =>
        CrashKeepsSafe(Disk(d.files, rest), Disk(d'.files, d'.actions[1..]));
        assert d'.actions == [f] + d'.actions[1..];
    }
  }

  /** A crash does not change where recovery ends up. */
  lemma {:induction false} CrashIsForgotten(d: Disk, d': Disk)
    requires CrashLeaves(d, d') && AllSafe(d.actions)
    ensures Recovered(d') == Recovered(d)
    decreases |d.actions|
  {
    if d' != d {
      var f, rest := d.actions[0], d.actions[1..];
      match f
      case Readable(_, a) =>
        if CrashLeaves(Disk(Executed(d.files, a), rest), d') {
          CrashIsForgotten(Disk(Executed(d.files, a), rest), d');
        } else {
          var n :| 0 <= n <= |Ops(a)| && d' == Disk(AppliedAll(d.files, Ops(a)[..n]), d.actions);
          SafeIsReplayable(a);
        }
      case Unreadable(_) =>
        CrashIsForgotten(Disk(d.files, rest), Disk(d'.files, d'.actions[1..]));
    }
  }

  /** Each disk of the history is what a crash left of the one before. */
  ghost predicate History(ds: seq<Disk>) {
    ds != [] && forall i :: 0 < i < |ds| ==> CrashLeaves(ds[i - 1], ds[i])
  }

  /** Any number of crashes at any points, then a full recovery, equal one uninterrupted execution. */
  lemma {:induction false} CrashesAreForgotten(ds: seq<Disk>)
    requires History(ds) && AllSafe(ds[0].actions)
    ensures Recovered(ds[|ds| - 1]) == Recovered(ds[0]) && AllSafe(ds[|ds| - 1].actions)
  {
    if |ds| > 1 {
      CrashesAreForgotten(ds[..|ds| - 1]);
      CrashKeepsSafe(ds[|ds| - 2], ds[|ds| - 1]);
      CrashIsForgotten(ds[|ds| - 2], ds[|ds| - 1]);
    }
  }

  // ---------------------------------------------------------------- a recovery under way

  /** The disk with passed-over action files put back in front. */
  ghost function Behind(kept: seq<ActionFile>, d: Disk): Disk {
    Disk(d.files, kept + d.actions)
  }

  /** From d, with the unreadable files in kept passed over, what is left to do is d'. */
  ghost predicate Onward(d: Disk, kept: seq<ActionFile>, d': Disk) {
    && (forall e :: CrashLeaves(d', e) ==> CrashLeaves(d, Behind(kept, e)))
    && Recovered(d) == Behind(kept, Recovered(d'))
  }

  lemma {:induction false} OnwardStart(d: Disk)
    ensures Onward(d, [], d)
  {
    hide CrashLeaves, Recovered;
    forall e: Disk ensures Behind([], e) == e {
      assert [] + e.actions == e.actions;
    }
  }

  /** One iteration of the recovery loop: next is left to do, more is passed over. */
  ghost predicate Iterates(now: Disk, more: seq<ActionFile>, next: Disk) {
    now.actions != [] && next.actions == now.actions[1..] &&
    match now.actions[0]
    case Readable(_, a) => more == [] && next.files == Executed(now.files, a)
    case Unreadable(_) => more == [now.actions[0]] && next.files == now.files
  }

  lemma {:induction false} CrashLater(now: Disk, more: seq<ActionFile>, next: Disk, e: Disk)
    requires Iterates(now, more, next) && CrashLeaves(next, e)
    ensures CrashLeaves(now, Behind(more, e))
  {
    assert next == Disk(next.files, now.actions[1..]);
    assert Behind(more, e).actions[|more|..] == e.actions;
    assert more == [] ==> Behind(more, e) == e;
  }

  lemma {:induction false} RecoveredLater(now: Disk, more: seq<ActionFile>, next: Disk)
    requires Iterates(now, more, next)
    ensures Recovered(now) == Behind(more, Recovered(next))
  {
    assert next == Disk(next.files, now.actions[1..]);
    assert [] + Recovered(next).actions == Recovered(next).actions;
  }

  /** The power fails while the first action file left to do is executed. */
  lemma {:induction false} CrashInside(d: Disk, kept: seq<ActionFile>, now: Disk, n: nat)
    requires Onward(d, kept, now) && now.actions != [] && now.actions[0].Readable? && n <= |Ops(now.actions[0].action)|
    ensures CrashLeaves(d, Disk(AppliedAll(now.files, Ops(now.actions[0].action)[..n]), kept + now.actions))
  {
    hide Ops;
    var e := Disk(AppliedAll(now.files, Ops(now.actions[0].action)[..n]), now.actions);
    assert CrashLeaves(now, e);
    assert CrashLeaves(d, Behind(kept, e));
  }

  lemma {:induction false} BehindTwice(kept: seq<ActionFile>, more: seq<ActionFile>, e: Disk)
    ensures Behind(kept + more, e) == Behind(kept, Behind(more, e))
  {
    assert kept + more + e.actions == kept + (more + e.actions);
  }

  lemma {:induction false} OnwardStep(d: Disk, kept: seq<ActionFile>, now: Disk, more: seq<ActionFile>, next: Disk)
    requires Onward(d, kept, now) && Iterates(now, more, next)
    ensures Onward(d, kept + more, next)
  {
    hide CrashLeaves, Recovered, Iterates, Behind;
    forall e | CrashLeaves(next, e) ensures CrashLeaves(d, Behind(kept + more, e)) {
      CrashLater(now, more, next, e);
      BehindTwice(kept, more, e);
    }
    RecoveredLater(now, more, next);
    BehindTwice(kept, more, Recovered(next));
  }

  /** Recovery leaves only action files it cannot read, and recovering again changes nothing. */
  lemma {:induction false} RecoveredIsSettled(d: Disk)
    ensures forall f :: f in Recovered(d).actions ==> f.Unreadable? && f in d.actions
    ensures Recovered(Recovered(d)) == Recovered(d)
    decreases |d.actions|
  {
    if d.actions != [] {
      var f, rest := d.actions[0], d.actions[1..];
      match f
      case Readable(_, a) => RecoveredIsSettled(Disk(Executed(d.files, a), rest));
      case Unreadable(_) =>
        RecoveredIsSettled(Disk(d.files, rest));
        var r := Recovered(Disk(d.files, rest));
        assert ([f] + r.actions)[1..] == r.actions;
    }
  }
}
