/** Execution and recovery of compaction actions on a file system that may fail or stop at any operation. */
module CompactionStorage {
  import opened Compaction
  import opened CompactionFaults

  /** A file operation works, fails without effect, or the machine stops before it. */
  datatype Fate = Works | Errs | Dies

  ghost predicate NoErrors(fates: nat -> Fate, n: nat) {
    forall t: nat :: t < n ==> !fates(t).Errs?
  }

  /** The operation goes through: the machine stays up, and a failing call is never made on a missing file. */
  ghost predicate Survives(fs: Files, op: Op, fate: Fate) {
    !fate.Dies? && (fate.Errs? ==> match op case Rename(s, _) => s !in fs case Remove(p) => p !in fs)
  }

  /** The first n operations, at the times from start on, go through. */
  ghost predicate AllSurvive(fs: Files, ops: seq<Op>, n: nat, fates: nat -> Fate, start: nat)
    requires n <= |ops|
  {
    forall i: nat :: i < n ==> Survives(AppliedAll(fs, ops[..i]), ops[i], fates(start + i))
  }

  class Storage {
    var files: Files
    var actions: seq<ActionFile>

    constructor (d: Disk)
      ensures View() == d
    {
      files, actions := d.files, d.actions;
    }

    ghost function View(): Disk
      reads this
    {
      Disk(files, actions)
    }

    /** The renames, then the deletes; done says how many operations were performed. */
    method ExecuteCompactionAction(a: CompactionAction, fates: nat -> Fate, start: nat)
      returns (done: nat, status: Fate, clock: nat)
      modifies this`files
      ensures done <= |Ops(a)| && files == AppliedAll(old(files), Ops(a)[..done])
      ensures status.Works? <==> done == |Ops(a)|
      ensures AllSurvive(old(files), Ops(a), done, fates, start)
      ensures clock == start + done + (if status.Works? then 0 else 1)
      ensures !status.Works? ==> fates(clock - 1) == status && !Survives(files, Ops(a)[done], status)
    {
      hide AppliedAll, Ops;
      done, clock := 0, start;
      assert files == AppliedAll(old(files), Ops(a)[..0]) by { NoOps(files, Ops(a)); }
      while done < |a.renames|
        invariant done <= |a.renames| && clock == start + done
        invariant files == AppliedAll(old(files), Ops(a)[..done])
        invariant AllSurvive(old(files), Ops(a), done, fates, start)
      {
        var r, fate := a.renames[done], fates(clock);
        clock := clock + 1;
        if fate.Dies? {
          return done, Dies, clock;
        }
        OneMoreOp(old(files), Ops(a), done);
        OpAt(a, done);
        if r.source in files {
          if fate.Errs? {
            return done, Errs, clock;
          }
          files := (files - {r.source})[r.destination := files[r.source]];
        }
        done := done + 1;
      }
      while done < |Ops(a)|
        invariant |a.renames| <= done <= |Ops(a)| && clock == start + done
        invariant files == AppliedAll(old(files), Ops(a)[..done])
        invariant AllSurvive(old(files), Ops(a), done, fates, start)
      {
        var d, fate := a.deletes[done - |a.renames|], fates(clock);
        clock := clock + 1;
        if fate.Dies? {
          return done, Dies, clock;
        }
        OneMoreOp(old(files), Ops(a), done);
        OpAt(a, done);
        if d in files {
          if fate.Errs? {
            return done, Errs, clock;
          }
          files := files - {d};
        }
        done := done + 1;
      }
      status := Works;
    }

    /** Executes one action and then removes its file; the status tells how far that went. */
    method Replay(f: ActionFile, fates: nat -> Fate, start: nat) returns (done: nat, status: Fate, clock: nat)
      requires f.Readable?
      modifies this`files
      ensures done <= |Ops(f.action)| && files == AppliedAll(old(files), Ops(f.action)[..done])
      ensures AllSurvive(old(files), Ops(f.action), done, fates, start)
      ensures clock == start + done + 1 && fates(clock - 1) == status
      ensures forall t: nat :: start <= t < clock - 1 ==> !fates(t).Dies?
      ensures done < |Ops(f.action)| ==> !status.Works? && !Survives(files, Ops(f.action)[done], status)
    {
      done, status, clock := ExecuteCompactionAction(f.action, fates, start);
      forall t: nat | start <= t < start + done ensures !fates(t).Dies? {
        assert Survives(AppliedAll(old(files), Ops(f.action)[..t - start]), Ops(f.action)[t - start], fates(t));
      }
      if status.Works? {
        status, clock := fates(clock), clock + 1;
      }
    }

    /** One iteration of a recovery over todo, with kept left behind. */
    method Visit(fates: nat -> Fate, start: nat, kept: seq<ActionFile>, todo: seq<ActionFile>, ghost d: Disk)
      returns (died: bool, clock: nat, left: seq<ActionFile>)
      requires todo != [] && actions == kept + todo && UnderWay(d, kept, Disk(files, todo), NoErrors(fates, start))
      modifies this
      ensures !died ==> actions == left + todo[1..] && UnderWay(d, left, Disk(files, todo[1..]), NoErrors(fates, clock))
      ensures died ==> TurnLeaves(d, View()) && (NoErrors(fates, clock) ==> CrashLeaves(d, View()))
      ensures clock >= start && (died ==> clock > start && fates(clock - 1).Dies?)
      ensures forall t: nat :: start <= t < clock && fates(t).Dies? ==> died && t == clock - 1
    {
      hide CrashLeaves, Recovered, TurnLeaves, AppliedAll, Ops, UnderWay, NoErrors;
      ghost var before, ok := Disk(files, todo), NoErrors(fates, start);
      var f := todo[0];
      died, clock, left := false, start, kept + [f];
      Regroup(kept, todo);
      if f.Unreadable? {
        PassedOver(d, kept, before, ok);
        return;
      }
      var done, status, now := Replay(f, fates, start);
      Earlier(fates, start, now, status);
      clock := now;
      if status.Dies? {
        Halted(d, kept, before, ok, done);
        died := true;
        return;
      }
      Replayed(d, kept, before, ok, done, status, Disk(files, todo[1..]));
      WeakerOk(d, kept + Kept(f, status), Disk(files, todo[1..]), ok && !status.Errs?, NoErrors(fates, clock));
      if status.Works? {
        actions, left := kept + todo[1..], kept;
      }
    }

    /** Replays every readable action file in order, removing each after its execution. */
    method RecoverCompactionActions(fates: nat -> Fate) returns (died: bool, clock: nat)
      modifies this
      ensures TurnLeaves(old(View()), View())
      ensures died <==> exists t: nat :: t < clock && fates(t).Dies?
      ensures NoErrors(fates, clock) ==>
                if died then CrashLeaves(old(View()), View()) else View() == Recovered(old(View()))
    {
      hide CrashLeaves, Recovered, TurnLeaves, UnderWay, NoErrors;
      var todo, kept: seq<ActionFile> := actions, [];
      ghost var d := View();
      clock := 0;
      assert [] + actions == actions;
      UnderWayStart(d, NoErrors(fates, 0));
      while |todo| > 0
        invariant actions == kept + todo && UnderWay(d, kept, Disk(files, todo), NoErrors(fates, clock))
        invariant forall t: nat :: t < clock ==> !fates(t).Dies?
        decreases |todo|
      {
        died, clock, kept := Visit(fates, clock, kept, todo, d);
        if died {
          return;
        }
        todo := todo[1..];
      }
      died := false;
      AllDone(d, kept, Disk(files, todo), NoErrors(fates, clock));
    }

    /** Start-up after start-up, each cut short or not, and a last one that is not. */
    method StartUntilDone(starts: seq<nat -> Fate>) returns (ghost after: seq<Disk>)
      requires AllSafe(actions)
      modifies this
      ensures |after| == |starts| + 1 && after[0] == old(View()) && View() == Recovered(after[|starts|])
      ensures forall i :: 0 <= i < |starts| ==> TurnLeaves(after[i], after[i + 1])
      ensures (forall i, t: nat :: 0 <= i < |starts| ==> !starts[i](t).Errs?) ==> View() == Recovered(old(View()))
      ensures AllCommute(old(actions)) ==> View() == Recovered(old(View()))
    {
      after := [View()];
      for i := 0 to |starts|
        invariant |after| == i + 1 && after[0] == old(View()) && after[i] == View()
        invariant forall j :: 0 <= j < i ==> TurnLeaves(after[j], after[j + 1])
        invariant AllSafe(actions) && (AllCommute(old(actions)) ==> AllCommute(actions))
        invariant (forall i, t: nat :: 0 <= i < |starts| ==> !starts[i](t).Errs?) || AllCommute(old(actions)) ==>
                    Recovered(View()) == Recovered(old(View()))
      {
        ghost var d := View();
        var died, clock := RecoverCompactionActions(starts[i]);
        TurnKeeps(d, View());
        if AllCommute(d.actions) {
          TurnIsForgotten(d, View());
        }
        if NoErrors(starts[i], clock) {
          if died {
            CrashIsForgotten(d, View());
          } else {
            RecoveredIsSettled(d);
          }
        }
        after := after + [View()];
      }
      var _, _ := RecoverCompactionActions(_ => Works);
    }
  }

  // ---------------------------------------------------------------- a start-up under way

  /** From d, with kept left behind, what is left to do is now; ok says that nothing failed so far. */
  ghost predicate UnderWay(d: Disk, kept: seq<ActionFile>, now: Disk, ok: bool) {
    Ahead(d, kept, now) && (ok ==> Onward(d, kept, now))
  }

  /** What a replay with this status leaves of an action file. */
  ghost function Kept(f: ActionFile, status: Fate): seq<ActionFile> {
    if status.Works? then [] else [f]
  }

  lemma {:induction false} Earlier(fates: nat -> Fate, clock: nat, now: nat, status: Fate)
    requires clock < now && (!status.Works? ==> fates(now - 1) == status)
    ensures NoErrors(fates, now) ==> NoErrors(fates, clock) && !status.Errs?
  {
  }

  lemma {:induction false} Regroup(kept: seq<ActionFile>, todo: seq<ActionFile>)
    requires todo != []
    ensures kept + todo == kept + [todo[0]] + todo[1..] && kept + [] == kept
  {
  }

  lemma {:induction false} UnderWayStart(d: Disk, ok: bool)
    ensures UnderWay(d, [], d, ok)
  {
    OnwardStart(d);
    AheadStart(d);
  }

  lemma {:induction false} WeakerOk(d: Disk, kept: seq<ActionFile>, now: Disk, ok: bool, ok': bool)
    requires UnderWay(d, kept, now, ok) && (ok' ==> ok)
    ensures UnderWay(d, kept, now, ok')
  {
  }

  lemma {:induction false} Halted(d: Disk, kept: seq<ActionFile>, now: Disk, ok: bool, n: nat)
    requires UnderWay(d, kept, now, ok) && now.actions != [] && now.actions[0].Readable?
    requires n <= |Ops(now.actions[0].action)|
    ensures var e := Disk(AppliedAll(now.files, Ops(now.actions[0].action)[..n]), kept + now.actions);
            TurnLeaves(d, e) && (ok ==> CrashLeaves(d, e))
  {
    hide Ahead, Onward, TurnLeaves, CrashLeaves, AppliedAll, Ops;
    AheadStop(d, kept, now, n);
    if ok {
      CrashInside(d, kept, now, n);
    }
  }

  lemma {:induction false} Replayed(d: Disk, kept: seq<ActionFile>, now: Disk, ok: bool, n: nat, status: Fate,
                                    next: Disk)
    requires UnderWay(d, kept, now, ok) && now.actions != [] && now.actions[0].Readable?
    requires next.actions == now.actions[1..]
    requires n <= |Ops(now.actions[0].action)| && next.files == AppliedAll(now.files, Ops(now.actions[0].action)[..n])
    requires status.Works? ==> n == |Ops(now.actions[0].action)|
    requires !status.Dies?
    ensures UnderWay(d, kept + Kept(now.actions[0], status), next, ok && !status.Errs?)
  {
    hide Ahead, Onward, AppliedAll, Ops;
    AheadStep(d, kept, now, n, Kept(now.actions[0], status), next);
    if ok && status.Works? {
      Executes(d, kept, now, next);
    }
  }

  lemma {:induction false} PassedOver(d: Disk, kept: seq<ActionFile>, now: Disk, ok: bool)
    requires UnderWay(d, kept, now, ok) && now.actions != [] && now.actions[0].Unreadable?
    ensures UnderWay(d, kept + [now.actions[0]], Disk(now.files, now.actions[1..]), ok)
  {
    hide Ahead, Onward;
    AheadStep(d, kept, now, 0, [now.actions[0]], Disk(now.files, now.actions[1..]));
    if ok {
      OnwardStep(d, kept, now, [now.actions[0]], Disk(now.files, now.actions[1..]));
    }
  }

  /** The first action left to do was executed completely and its file removed. */
  lemma {:induction false} Executes(d: Disk, kept: seq<ActionFile>, now: Disk, next: Disk)
    requires Onward(d, kept, now) && now.actions != [] && now.actions[0].Readable? && next.actions == now.actions[1..]
    requires var ops := Ops(now.actions[0].action); next.files == AppliedAll(now.files, ops[..|ops|])
    ensures Onward(d, kept + [], next)
  {
    hide Onward;
    var ops := Ops(now.actions[0].action);
    assert ops[..|ops|] == ops;
    OnwardStep(d, kept, now, [], next);
  }

  lemma {:induction false} AllDone(d: Disk, kept: seq<ActionFile>, now: Disk, ok: bool)
    requires UnderWay(d, kept, now, ok) && now.actions == []
    ensures TurnLeaves(d, Disk(now.files, kept)) && (ok ==> Disk(now.files, kept) == Recovered(d))
    ensures kept + now.actions == kept
  {
    assert kept + [] == kept;
    assert Behind(kept, now) == Disk(now.files, kept);
    assert TurnLeaves(now, now) && Recovered(now) == now;
  }
}
