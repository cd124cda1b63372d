/**
 The object-store write-ahead log with one writer. Every store operation consults a
 fault oracle: it may succeed, report failure (whether or not it took effect), or
 crash the process (likewise). A crash loses the in-memory manifest.
 */
module S3Wal {
  import opened Common

  /** A log record; the payload stands for everything but the sequence number. */
  datatype Record = Record(seqId: nat, payload: int)

  datatype Key = ManifestKey | FragmentKey(start: nat)

  datatype Fragment = Fragment(seqStart: nat, seqEnd: nat, key: Key)

  datatype Manifest = Manifest(fragments: seq<Fragment>, headSeq: nat, cursorSeq: nat, version: nat)

  datatype Object = ManifestObject(m: Manifest) | FragmentObject(records: seq<Record>)

  /** What one store operation does. */
  datatype Outcome = Done | Failed(applied: bool) | Crashed(applied: bool) {
    predicate TookEffect() { Done? || applied }
  }

  /** Fragment i starts right after its predecessor. */
  ghost predicate Linked(fs: seq<Fragment>, i: int)
    requires 0 < i < |fs|
  {
    fs[i].seqStart == fs[i - 1].seqEnd + 1
  }

  ghost predicate FragmentOk(f: Fragment, head: nat) {
    1 <= f.seqStart <= f.seqEnd <= head && f.key == FragmentKey(f.seqStart)
  }

  ghost predicate Before(f: Fragment, g: Fragment) {
    f.seqEnd < g.seqStart
  }

  ghost predicate InOrder(fs: seq<Fragment>) {
    && (forall i :: 0 < i < |fs| ==> Linked(fs, i))
    && (forall i, j :: 0 <= i < j < |fs| ==> Before(fs[i], fs[j]))
  }

  /** Fragments are chained without gaps and end at the head. */
  ghost predicate Chained(m: Manifest) {
    var fs := m.fragments;
    && (forall i :: 0 <= i < |fs| ==> FragmentOk(fs[i], m.headSeq))
    && InOrder(fs)
    && (fs != [] ==> fs[|fs| - 1].seqEnd == m.headSeq)
  }

  /** The last sequence number before the first listed fragment. */
  ghost function Base(m: Manifest): int {
    if m.fragments == [] then m.headSeq else m.fragments[0].seqStart - 1
  }

  /** The stored object of f holds exactly its records, with the acknowledged contents where acknowledged. */
  ghost predicate Backed(f: Fragment, store: map<Key, Object>, acked: map<nat, Record>) {
    && f.key in store && store[f.key].FragmentObject?
    && var rs := store[f.key].records;
       && |rs| == f.seqEnd - f.seqStart + 1
       && forall i :: 0 <= i < |rs| ==>
            rs[i].seqId == f.seqStart + i && (rs[i].seqId in acked ==> acked[rs[i].seqId] == rs[i])
  }

  /** Whatever a reader at or above the highest requested cursor can need is there. */
  ghost predicate Sound(m: Manifest, store: map<Key, Object>, acked: map<nat, Record>, maxCursor: nat) {
    && Chained(m)
    && (Base(m) == 0 || Base(m) < maxCursor)
    && (forall i :: 0 <= i < |m.fragments| && m.fragments[i].seqEnd >= maxCursor ==>
        Backed(m.fragments[i], store, acked))
    && forall s :: s in acked ==> s <= m.headSeq
  }

  /** The in-memory manifest is ahead of the stored one, and lists all of its fragments a reader may still need. */
  ghost predicate Follows(stored: Manifest, live: Manifest, maxCursor: nat) {
    && stored.headSeq <= live.headSeq
    && forall f :: f in stored.fragments ==> f in live.fragments || f.seqEnd < maxCursor
  }

  ghost predicate LogOk(store: map<Key, Object>, manifest: Option<Manifest>, acked: map<nat, Record>, maxCursor: nat) {
    && (ManifestKey in store ==>
          store[ManifestKey].ManifestObject? && Sound(store[ManifestKey].m, store, acked, maxCursor))
    && (ManifestKey !in store ==> manifest.None? && acked == map[])
    && (manifest.Some? ==>
          Sound(manifest.value, store, acked, maxCursor) && Follows(store[ManifestKey].m, manifest.value, maxCursor))
  }

  // ---------------------------------------------------------------- what each store operation keeps

  /** Writing the next fragment disturbs nothing listed. */
  lemma {:induction false} PutFragmentSound(m: Manifest, store: map<Key, Object>, acked: map<nat, Record>,
                                            maxCursor: nat, start: nat, o: Object)
    requires Sound(m, store, acked, maxCursor) && m.headSeq < start
    ensures Sound(m, store[FragmentKey(start) := o], acked, maxCursor)
  {
  }

  lemma {:induction false} PutManifestSound(m: Manifest, store: map<Key, Object>, acked: map<nat, Record>,
                                            maxCursor: nat, o: Object)
    requires Sound(m, store, acked, maxCursor)
    ensures Sound(m, store[ManifestKey := o], acked, maxCursor)
  {
  }

  lemma {:induction false} DistinctStarts(m: Manifest, f: Fragment, g: Fragment)
    requires Chained(m) && f in m.fragments && g in m.fragments && f != g
    ensures f.key != g.key
  {
    var i :| 0 <= i < |m.fragments| && m.fragments[i] == f;
    var j :| 0 <= j < |m.fragments| && m.fragments[j] == g;
    assert FragmentOk(f, m.headSeq) && FragmentOk(g, m.headSeq);
    assert if i < j then Before(f, g) else Before(g, f);
  }

  /** Deleting a fragment below the cursor disturbs no reader at or above it. */
  lemma {:induction false} DeleteSound(live: Manifest, m: Manifest, store: map<Key, Object>, acked: map<nat, Record>,
                                       maxCursor: nat, f: Fragment)
    requires Chained(live) && Sound(m, store, acked, maxCursor)
    requires Follows(m, live, maxCursor) && f in live.fragments && f.seqEnd < maxCursor
    ensures Sound(m, store - {f.key}, acked, maxCursor)
  {
    forall i | 0 <= i < |m.fragments| && m.fragments[i].seqEnd >= maxCursor
      ensures Backed(m.fragments[i], store - {f.key}, acked)
    {
      var g := m.fragments[i];
      assert g in m.fragments;
      assert g in live.fragments;
      DistinctStarts(live, g, f);
    }
  }

  lemma {:induction false} HigherCursorSound(m: Manifest, store: map<Key, Object>, acked: map<nat, Record>,
                                             maxCursor: nat, higher: nat)
    requires Sound(m, store, acked, maxCursor) && maxCursor <= higher
    ensures Sound(m, store, acked, higher)
  {
  }

  /** The manifest after appending the fragment just written. */
  function Appended(m: Manifest, n: nat): Manifest
    requires n > 0
  {
    Manifest(m.fragments + [Fragment(m.headSeq + 1, m.headSeq + n, FragmentKey(m.headSeq + 1))],
             m.headSeq + n, m.cursorSeq, m.version + 1)
  }

  /** The records carry the payloads in order under consecutive numbers. */
  ghost predicate Carries(rs: seq<Record>, payloads: seq<int>, start: nat) {
    |rs| == |payloads| && forall i :: 0 <= i < |rs| ==> rs[i] == Record(start + i, payloads[i])
  }

  /** The manifest with one more fragment of n records. */
  ghost function Extended(m: Manifest, n: nat): Manifest {
    Manifest(m.fragments + [Fragment(m.headSeq + 1, m.headSeq + n, FragmentKey(m.headSeq + 1))],
             m.headSeq + n, m.cursorSeq, m.version + 1)
  }

  function Stamped(payloads: seq<int>, start: nat): (rs: seq<Record>)
    ensures |rs| == |payloads|
  {
    seq(|payloads|, i requires 0 <= i < |payloads| => Record(start + i, payloads[i]))
  }

  lemma {:induction false} AppendedSound(m: Manifest, store: map<Key, Object>, acked: map<nat, Record>, maxCursor: nat,
                                         payloads: seq<int>)
    requires Sound(m, store, acked, maxCursor) && |payloads| > 0
    requires FragmentKey(m.headSeq + 1) in store
    requires store[FragmentKey(m.headSeq + 1)] == FragmentObject(Stamped(payloads, m.headSeq + 1))
    ensures Sound(Appended(m, |payloads|), store, acked, maxCursor)
  {
    AppendedChained(m, |payloads|);
    hide Chained;
    var a := Appended(m, |payloads|);
    forall i | 0 <= i < |a.fragments| && a.fragments[i].seqEnd >= maxCursor
      ensures Backed(a.fragments[i], store, acked)
    {
      if i < |m.fragments| {
        assert a.fragments[i] == m.fragments[i];
      }
    }
  }

  lemma {:induction false} AppendedChained(m: Manifest, n: nat)
    requires Chained(m) && n > 0
    ensures Chained(Appended(m, n)) && (Base(Appended(m, n)) == Base(m))
  {
    var fs, gs := m.fragments, Appended(m, n).fragments;
    assert forall i :: 0 <= i < |fs| ==> gs[i] == fs[i];
    forall i | 0 < i < |gs| ensures Linked(gs, i) {
      if i < |fs| {
        assert Linked(fs, i);
      }
    }
    forall i, j | 0 <= i < j < |gs| ensures Before(gs[i], gs[j]) {
      assert FragmentOk(fs[i], m.headSeq);
      if j < |fs| {
        assert Before(fs[i], fs[j]);
      }
    }
    forall i | 0 <= i < |gs| ensures FragmentOk(gs[i], m.headSeq + n) {
      if i < |fs| {
        assert FragmentOk(fs[i], m.headSeq);
      }
    }
  }

  ghost function RecordAt(rs: seq<Record>, start: nat, s: nat): Record
    requires start <= s < start + |rs|
  {
    rs[s - start]
  }

  /** Acknowledging the records of the last fragment. */
  ghost function Acknowledge(acked: map<nat, Record>, rs: seq<Record>, start: nat): map<nat, Record> {
    acked + map s: nat | start <= s < start + |rs| :: RecordAt(rs, start, s)
  }

  lemma {:induction false} AckedUpTo(acked: map<nat, Record>, payloads: seq<int>, head: nat)
    requires forall s :: s in acked ==> s <= head
    ensures var now := Acknowledge(acked, Stamped(payloads, head + 1), head + 1);
            forall s :: s in now ==> s <= head + |payloads|
  {
  }

  lemma {:induction false} AcknowledgeSound(m: Manifest, store: map<Key, Object>, acked: map<nat, Record>,
                                            maxCursor: nat, payloads: seq<int>)
    requires |payloads| > 0 && Sound(Appended(m, |payloads|), store, acked, maxCursor)
    requires Chained(m)
    requires FragmentKey(m.headSeq + 1) in store
    requires store[FragmentKey(m.headSeq + 1)] == FragmentObject(Stamped(payloads, m.headSeq + 1))
    requires forall s :: s in acked ==> s <= m.headSeq
    ensures Sound(Appended(m, |payloads|), store, Acknowledge(acked, Stamped(payloads, m.headSeq + 1), m.headSeq + 1),
                  maxCursor)
  {
    var a := Appended(m, |payloads|);
    AckedUpTo(acked, payloads, m.headSeq);
    hide Acknowledge, Stamped, Backed, Chained;
    var acked' := Acknowledge(acked, Stamped(payloads, m.headSeq + 1), m.headSeq + 1);
    forall i | 0 <= i < |a.fragments| && a.fragments[i].seqEnd >= maxCursor
      ensures Backed(a.fragments[i], store, acked')
    {
      assert Backed(a.fragments[i], store, acked);
      StillBacked(m, store, acked, payloads, i);
    }
  }

  lemma {:induction false} StillBacked(m: Manifest, store: map<Key, Object>, acked: map<nat, Record>,
                                       payloads: seq<int>, i: nat)
    requires |payloads| > 0 && Chained(m) && i <= |m.fragments|
    requires Backed(Appended(m, |payloads|).fragments[i], store, acked)
    requires FragmentKey(m.headSeq + 1) in store
    requires store[FragmentKey(m.headSeq + 1)] == FragmentObject(Stamped(payloads, m.headSeq + 1))
    ensures Backed(Appended(m, |payloads|).fragments[i], store,
                   Acknowledge(acked, Stamped(payloads, m.headSeq + 1), m.headSeq + 1))
  {
    var f := Appended(m, |payloads|).fragments[i];
    hide Backed, Acknowledge, Stamped;
    if i < |m.fragments| {
      assert f == m.fragments[i] && FragmentOk(m.fragments[i], m.headSeq);
      BackedBelow(f, store, acked, Stamped(payloads, m.headSeq + 1), m.headSeq + 1);
    } else {
      BackedNew(f, store, acked, Stamped(payloads, m.headSeq + 1));
    }
  }

  /** A fragment backs the acknowledgement of its own records. */
  lemma {:induction false} BackedNew(f: Fragment, store: map<Key, Object>, acked: map<nat, Record>, rs: seq<Record>)
    requires Backed(f, store, acked) && store[f.key].records == rs && f.seqEnd - f.seqStart + 1 == |rs|
    ensures Backed(f, store, Acknowledge(acked, rs, f.seqStart))
  {
    hide Acknowledge;
    var acked' := Acknowledge(acked, rs, f.seqStart);
    forall i | 0 <= i < |rs| ensures rs[i].seqId in acked' && acked'[rs[i].seqId] == rs[i] {
      AcknowledgedAt(acked, rs, f.seqStart, i);
    }
  }

  lemma {:induction false} AcknowledgedAt(acked: map<nat, Record>, rs: seq<Record>, start: nat, i: nat)
    requires i < |rs|
    ensures start + i in Acknowledge(acked, rs, start) && Acknowledge(acked, rs, start)[start + i] == rs[i]
  {
    assert RecordAt(rs, start, start + i) == rs[i];
  }

  /** Acknowledging later records does not disturb a fragment. */
  lemma {:induction false} BackedBelow(f: Fragment, store: map<Key, Object>, acked: map<nat, Record>, rs: seq<Record>,
                                       start: nat)
    requires Backed(f, store, acked) && f.seqEnd < start
    ensures Backed(f, store, Acknowledge(acked, rs, start))
  {
  }

  /** The manifest without the first j fragments, which all lie below the cursor. */
  function Trimmed(m: Manifest, j: nat, cursor: nat): Manifest
    requires j <= |m.fragments|
  {
    Manifest(m.fragments[j..], m.headSeq, cursor, m.version + 1)
  }

  lemma {:induction false} TrimmedChained(m: Manifest, j: nat, cursor: nat)
    requires Chained(m) && j <= |m.fragments|
    ensures Chained(Trimmed(m, j, cursor))
  {
    var fs, gs := m.fragments, m.fragments[j..];
    SuffixInOrder(fs, j);
    hide FragmentOk, InOrder;
    forall i | 0 <= i < |gs| ensures FragmentOk(gs[i], m.headSeq) {
      assert FragmentOk(fs[j + i], m.headSeq);
    }
  }

  lemma {:induction false} SuffixInOrder(fs: seq<Fragment>, j: nat)
    requires InOrder(fs) && j <= |fs|
    ensures InOrder(fs[j..])
  {
    hide Linked, Before;
    forall i, k | 0 <= i < k < |fs[j..]| ensures Before(fs[j..][i], fs[j..][k]) {
      assert Before(fs[j + i], fs[j + k]);
    }
    forall i | 0 < i < |fs[j..]| ensures Linked(fs[j..], i) {
      SuffixLinked(fs, j, i);
    }
  }

  lemma {:induction false} TrimmedBase(m: Manifest, j: nat, cursor: nat)
    requires Chained(m) && j <= |m.fragments|
    ensures j > 0 ==> Base(Trimmed(m, j, cursor)) == m.fragments[j - 1].seqEnd
  {
    if 0 < j < |m.fragments| {
      assert Linked(m.fragments, j);
    }
  }

  lemma {:induction false} SuffixLinked(fs: seq<Fragment>, j: nat, i: nat)
    requires j + i < |fs|
    ensures i > 0 ==> (Linked(fs[j..], i) <==> Linked(fs, j + i))
  {
  }

  lemma {:induction false} TrimmedSound(m: Manifest, store: map<Key, Object>, acked: map<nat, Record>, maxCursor: nat,
                                        j: nat, cursor: nat)
    requires Sound(m, store, acked, maxCursor) && j <= |m.fragments|
    requires forall i :: 0 <= i < j ==> m.fragments[i].seqEnd < maxCursor
    ensures Sound(Trimmed(m, j, cursor), store, acked, maxCursor)
  {
    TrimmedChained(m, j, cursor);
    TrimmedBase(m, j, cursor);
    hide Chained, Backed;
    var t := Trimmed(m, j, cursor);
    forall i | 0 <= i < |t.fragments| && t.fragments[i].seqEnd >= maxCursor
      ensures Backed(t.fragments[i], store, acked)
    {
      assert t.fragments[i] == m.fragments[j + i];
    }
  }

  lemma {:induction false} FollowsAppended(stored: Manifest, m: Manifest, maxCursor: nat, n: nat)
    requires Follows(stored, m, maxCursor) && n > 0
    ensures Follows(stored, Appended(m, n), maxCursor)
  {
  }

  lemma {:induction false} SoundFacts(m: Manifest, store: map<Key, Object>, acked: map<nat, Record>, maxCursor: nat)
    requires Sound(m, store, acked, maxCursor)
    ensures Chained(m) && forall s :: s in acked ==> s <= m.headSeq
  {
  }

  // ---------------------------------------------------------------- a reader's copy of the manifest

  /** The manifest a reader copied and what was acknowledged at that moment. */
  datatype Copy = Copy(m: Manifest, acked: map<nat, Record>)

  /** The copy still leads a sufficiently late reader to everything it lists. */
  ghost predicate CopyOk(c: Copy, store: map<Key, Object>, live: Manifest, maxCursor: nat) {
    Sound(c.m, store, c.acked, maxCursor) && Follows(c.m, live, maxCursor)
  }

  ghost predicate ReadingOk(reading: Option<Copy>, store: map<Key, Object>, manifest: Option<Manifest>,
                            maxCursor: nat) {
    reading.Some? && manifest.Some? ==> CopyOk(reading.value, store, manifest.value, maxCursor)
  }

  lemma {:induction false} FreshCopy(m: Manifest, store: map<Key, Object>, acked: map<nat, Record>, maxCursor: nat)
    requires Sound(m, store, acked, maxCursor)
    ensures CopyOk(Copy(m, acked), store, m, maxCursor)
  {
  }

  lemma {:induction false} CopyPutFragment(c: Copy, store: map<Key, Object>, live: Manifest, maxCursor: nat, start: nat,
                                           o: Object)
    requires CopyOk(c, store, live, maxCursor) && start > live.headSeq
    ensures CopyOk(c, store[FragmentKey(start) := o], live, maxCursor)
  {
    PutFragmentSound(c.m, store, c.acked, maxCursor, start, o);
  }

  lemma {:induction false} CopyPutManifest(c: Copy, store: map<Key, Object>, live: Manifest, maxCursor: nat, o: Object)
    requires CopyOk(c, store, live, maxCursor)
    ensures CopyOk(c, store[ManifestKey := o], live, maxCursor)
  {
    PutManifestSound(c.m, store, c.acked, maxCursor, o);
  }

  lemma {:induction false} CopyHigherCursor(c: Copy, store: map<Key, Object>, live: Manifest, maxCursor: nat,
                                            higher: nat)
    requires CopyOk(c, store, live, maxCursor) && maxCursor <= higher
    ensures CopyOk(c, store, live, higher)
  {
    HigherCursorSound(c.m, store, c.acked, maxCursor, higher);
  }

  lemma {:induction false} CopyDelete(c: Copy, store: map<Key, Object>, live: Manifest, maxCursor: nat, f: Fragment)
    requires CopyOk(c, store, live, maxCursor) && Chained(live) && f in live.fragments && f.seqEnd < maxCursor
    ensures CopyOk(c, store - {f.key}, live, maxCursor)
  {
    DeleteSound(live, c.m, store, c.acked, maxCursor, f);
  }

  datatype AppendResult = Acked(head: nat) | AppendFailed | AppendCrashed

  datatype Status = Ok | Error | Down

  /** What another goroutine may do. */
  datatype Call = DoAppend(payloads: seq<int>) | DoAdvance(cursor: nat)

  datatype ReadResult = Records(rs: seq<Record>) | ReadFailed

  class S3WAL {
    var store: map<Key, Object>
    var manifest: Option<Manifest>
    var ops: nat
    const faults: nat -> Outcome

    /** Every record whose append was acknowledged. */
    ghost var acked: map<nat, Record>
    /** The highest cursor any caller ever asked for. */
    ghost var maxCursor: nat
    /** What an unfinished read copied. */
    ghost var reading: Option<Copy>

    ghost predicate Valid()
      reads this
    {
      LogOk(store, manifest, acked, maxCursor) && ReadingOk(reading, store, manifest, maxCursor)
    }

    /** An empty store and no running process. */
    constructor (faults: nat -> Outcome)
      ensures Valid() && manifest.None? && acked == map[] && maxCursor == 0 && store == map[]
      ensures this.faults == faults
    {
      store, manifest, ops, acked, maxCursor, reading := map[], None, 0, map[], 0, None;
      this.faults := faults;
    }

    method Put(key: Key, o: Object) returns (out: Outcome)
      modifies this`store, this`ops
      ensures out == faults(old(ops)) && ops == old(ops) + 1
      ensures store == if out.TookEffect() then old(store)[key := o] else old(store)
    {
      out := faults(ops);
      ops := ops + 1;
      if out.TookEffect() {
        store := store[key := o];
      }
    }

    method Remove(key: Key) returns (out: Outcome)
      modifies this`store, this`ops
      ensures out == faults(old(ops)) && ops == old(ops) + 1
      ensures store == if out.TookEffect() then old(store) - {key} else old(store)
    {
      out := faults(ops);
      ops := ops + 1;
      if out.TookEffect() {
        store := store - {key};
      }
    }

    /** The process dies between calls. */
    method Crash()
      requires Valid()
      modifies this`manifest
      ensures Valid() && manifest.None?
    {
      manifest := None;
    }

    /** Starts the process: loads the manifest, or creates one when the store has none. */
    method Open() returns (status: Status)
      requires Valid() && manifest.None?
      modifies this`store, this`ops, this`manifest, this`reading
      ensures Valid() && reading.None?
      ensures status.Ok? <==> manifest.Some?
      ensures old(ManifestKey in store) ==> store == old(store)
      ensures status.Ok? ==> ManifestKey in store && store[ManifestKey] == ManifestObject(manifest.value)
      ensures status.Ok? && old(ManifestKey !in store) ==> manifest.value == Manifest([], 0, 0, 1)
      ensures status.Ok? <==>
                faults(old(ops)).Done? && (old(ManifestKey in store) || faults(old(ops) + 1).Done?)
      ensures ops > old(ops) && (status.Down? <==> faults(ops - 1).Crashed?)
    {
      reading := None;
      var got := faults(ops);
      ops := ops + 1;
      if !got.Done? {
        return if got.Crashed? then Down else Error;
      }
      if ManifestKey in store {
        manifest := Some(store[ManifestKey].m);
        return Ok;
      }
      var empty := Manifest([], 0, 0, 1);
      var out := Put(ManifestKey, ManifestObject(empty));
      if out.Done? {
        manifest := Some(empty);
        status := Ok;
      } else {
        status := if out.Crashed? then Down else Error;
      }
    }

    static lemma {:induction false} FollowsItself(m: Manifest, maxCursor: nat)
      ensures Follows(m, m, maxCursor)
    {
    }

    /** Writes the in-memory manifest. */
    method WriteManifest() returns (out: Outcome)
      requires manifest.Some? && ManifestKey in store && store[ManifestKey].ManifestObject?
      requires Sound(store[ManifestKey].m, store, acked, maxCursor) && Sound(manifest.value, store, acked, maxCursor)
      requires Follows(store[ManifestKey].m, manifest.value, maxCursor)
      requires ReadingOk(reading, store, manifest, maxCursor)
      modifies this`store, this`ops, this`manifest
      ensures Valid() && ManifestKey in store && ops == old(ops) + 1 && out == faults(old(ops))
      ensures manifest == if out.Crashed? then None else old(manifest)
      ensures store == if out.TookEffect()
                       then old(store)[ManifestKey := ManifestObject(old(manifest.value))]
                       else old(store)
    {
      ghost var m := manifest.value;
      PutManifestSound(m, store, acked, maxCursor, ManifestObject(m));
      if reading.Some? {
        CopyPutManifest(reading.value, store, m, maxCursor, ManifestObject(m));
      }
      hide Sound, Follows, CopyOk;
      FollowsItself(m, maxCursor);
      out := Put(ManifestKey, ManifestObject(manifest.value));
      if out.Crashed? {
        manifest := None;
      }
    }

    /** Lists the stored fragment in the manifest, writes the manifest and acknowledges. */
    method Commit(payloads: seq<int>) returns (r: AppendResult)
      requires Valid() && manifest.Some? && payloads != []
      requires FragmentKey(manifest.value.headSeq + 1) in store
      requires store[FragmentKey(manifest.value.headSeq + 1)] ==
               FragmentObject(Stamped(payloads, manifest.value.headSeq + 1))
      modifies this
      ensures Valid() && maxCursor == old(maxCursor) && reading == old(reading) && ops == old(ops) + 1
      ensures manifest == if faults(old(ops)).Crashed? then None else Some(Extended(old(manifest.value), |payloads|))
      ensures store == if faults(old(ops)).TookEffect()
                       then old(store)[ManifestKey := ManifestObject(Extended(old(manifest.value), |payloads|))]
                       else old(store)
      ensures match faults(old(ops))
              case Done => r == Acked(old(manifest.value.headSeq) + |payloads|)
              case Failed(_) => r == AppendFailed
              case Crashed(_) => r == AppendCrashed
      ensures forall s :: s in acked <==>
                s in old(acked) || (r.Acked? && 0 < s - old(manifest.value.headSeq) <= |payloads|)
      ensures forall s :: s in old(acked) ==> acked[s] == old(acked)[s]
      ensures r.Acked? ==> forall i: nat :: i < |payloads| ==>
                var n := old(manifest.value.headSeq) + 1 + i; acked[n] == Record(n, payloads[i])
    {
      hide Sound, Follows, Chained, Acknowledge, CopyOk;
      var m := manifest.value;
      ghost var start, before := m.headSeq + 1, acked;
      AckedBelow(m);
      AppendedSound(m, store, acked, maxCursor, payloads);
      FollowsAppended(store[ManifestKey].m, m, maxCursor, |payloads|);
      SoundFacts(m, store, acked, maxCursor);
      CopyAppended(m, |payloads|);
      manifest := Some(Appended(m, |payloads|));
      var out := WriteManifest();
      if out.Done? {
        AcknowledgeOk(m, payloads);
        acked := Acknowledge(acked, Stamped(payloads, start), start);
        AcknowledgedExactly(before, payloads, start);
        r := Acked(m.headSeq + |payloads|);
      } else {
        r := if out.Crashed? then AppendCrashed else AppendFailed;
      }
    }

    /** Appends records as one fragment; acknowledged only once both writes are reported done. */
    method Append(payloads: seq<int>) returns (r: AppendResult)
      requires Valid() && manifest.Some?
      modifies this
      ensures Valid() && maxCursor == old(maxCursor) && reading == old(reading)
      ensures r.AppendCrashed? <==> manifest.None?
      ensures r.Acked? ==> manifest.value.headSeq == r.head == old(manifest.value.headSeq) + |payloads|
      ensures payloads == [] ==> r.Acked? && manifest == old(manifest) && store == old(store) && ops == old(ops)
      ensures payloads != [] ==> ops == old(ops) + (if faults(old(ops)).Done? then 2 else 1)
      ensures payloads != [] ==> (r.Acked? <==> faults(old(ops)).Done? && faults(old(ops) + 1).Done?)
      ensures payloads != [] ==>
                (r.AppendCrashed? <==>
                 faults(old(ops)).Crashed? || (faults(old(ops)).Done? && faults(old(ops) + 1).Crashed?))
      ensures forall s :: s in acked <==>
                s in old(acked) || (r.Acked? && 0 < s - old(manifest.value.headSeq) <= |payloads|)
      ensures forall s :: s in old(acked) ==> acked[s] == old(acked)[s]
      ensures r.Acked? ==> forall i: nat :: i < |payloads| ==>
                var n := old(manifest.value.headSeq) + 1 + i; acked[n] == Record(n, payloads[i])
      ensures payloads != [] && faults(old(ops)).TookEffect() ==>
                && var key := FragmentKey(old(manifest.value.headSeq) + 1);
                && key in store && store[key].FragmentObject?
                && Carries(store[key].records, payloads, old(manifest.value.headSeq) + 1)
      ensures payloads != [] && faults(old(ops)).Done? && manifest.Some? ==>
                manifest.value == Extended(old(manifest.value), |payloads|)
      ensures payloads != [] && faults(old(ops)).Done? && faults(old(ops) + 1).TookEffect() ==>
                ManifestKey in store && store[ManifestKey] == ManifestObject(Extended(old(manifest.value), |payloads|))
      ensures manifest.Some? && !faults(old(ops)).Done? ==> manifest == old(manifest)
      ensures forall key :: key != ManifestKey && key != FragmentKey(old(manifest.value.headSeq) + 1) ==>
                (key in store <==> key in old(store)) && (key in store ==> store[key] == old(store)[key])
    {
      hide Sound, Follows, Chained, Acknowledge, CopyOk;
      if |payloads| == 0 {
        return Acked(manifest.value.headSeq);
      }
      var start := manifest.value.headSeq + 1;
      var o := FragmentObject(Stamped(payloads, start));
      PutFragmentOk(start, o);
      var out := Put(FragmentKey(start), o);
      if out.Crashed? {
        manifest := None;
        return AppendCrashed;
      }
      if out.Failed? {
        return AppendFailed;
      }
      r := Commit(payloads);
    }

    lemma {:induction false} AckedBelow(m: Manifest)
      requires Valid() && manifest == Some(m)
      ensures forall s :: s in acked ==> s <= m.headSeq
    {
    }

    static lemma {:induction false} AcknowledgedExactly(acked: map<nat, Record>, payloads: seq<int>, start: nat)
      requires forall s :: s in acked ==> s < start
      ensures var now := Acknowledge(acked, Stamped(payloads, start), start);
              && (forall s :: s in now <==> s in acked || start <= s < start + |payloads|)
              && (forall s :: s in acked ==> now[s] == acked[s])
              && forall i: nat :: i < |payloads| ==> var n := start + i; now[n] == Record(n, payloads[i])
    {
      forall i: nat | i < |payloads|
        ensures var n := start + i; Acknowledge(acked, Stamped(payloads, start), start)[n] == Record(n, payloads[i])
      {
        AcknowledgedAt(acked, Stamped(payloads, start), start, i);
      }
    }

    lemma {:induction false} PutFragmentOk(start: nat, o: Object)
      requires Valid() && manifest.Some? && start > manifest.value.headSeq
      ensures LogOk(store[FragmentKey(start) := o], manifest, acked, maxCursor)
      ensures ReadingOk(reading, store[FragmentKey(start) := o], manifest, maxCursor)
    {
      PutFragmentSound(manifest.value, store, acked, maxCursor, start, o);
      PutFragmentSound(store[ManifestKey].m, store, acked, maxCursor, start, o);
      if reading.Some? {
        CopyPutFragment(reading.value, store, manifest.value, maxCursor, start, o);
      }
    }

    lemma {:induction false} CopyAppended(m: Manifest, n: nat)
      requires ReadingOk(reading, store, Some(m), maxCursor) && n > 0
      ensures ReadingOk(reading, store, Some(Appended(m, n)), maxCursor)
    {
      if reading.Some? {
        FollowsAppended(reading.value.m, m, maxCursor, n);
      }
    }

    lemma {:induction false} AcknowledgeOk(m: Manifest, payloads: seq<int>)
      requires |payloads| > 0 && Chained(m) && Valid() && ManifestKey in store
      requires manifest == Some(Appended(m, |payloads|))
      requires store[ManifestKey] == ManifestObject(Appended(m, |payloads|))
      requires FragmentKey(m.headSeq + 1) in store
      requires store[FragmentKey(m.headSeq + 1)] == FragmentObject(Stamped(payloads, m.headSeq + 1))
      requires forall s :: s in acked ==> s <= m.headSeq
      ensures LogOk(store, manifest, Acknowledge(acked, Stamped(payloads, m.headSeq + 1), m.headSeq + 1), maxCursor)
    {
      AcknowledgeSound(m, store, acked, maxCursor, payloads);
    }

    /** Raising the highest requested cursor only weakens what readers may ask. */
    lemma {:induction false} RequestCursorOk(higher: nat)
      requires Valid() && maxCursor <= higher
      ensures LogOk(store, manifest, acked, higher) && ReadingOk(reading, store, manifest, higher)
    {
      if reading.Some? && manifest.Some? {
        CopyHigherCursor(reading.value, store, manifest.value, maxCursor, higher);
      }
      if ManifestKey in store {
        HigherCursorSound(store[ManifestKey].m, store, acked, maxCursor, higher);
      }
      if manifest.Some? {
        HigherCursorSound(manifest.value, store, acked, maxCursor, higher);
      }
    }

    lemma {:induction false} DeleteOk(f: Fragment)
      requires Valid() && manifest.Some? && f in manifest.value.fragments && f.seqEnd < maxCursor
      ensures LogOk(store - {f.key}, manifest, acked, maxCursor)
      ensures ReadingOk(reading, store - {f.key}, manifest, maxCursor)
    {
      if reading.Some? {
        CopyDelete(reading.value, store, manifest.value, maxCursor, f);
      }
      DeleteSound(manifest.value, store[ManifestKey].m, store, acked, maxCursor, f);
      DeleteSound(manifest.value, manifest.value, store, acked, maxCursor, f);
      var i :| 0 <= i < |manifest.value.fragments| && manifest.value.fragments[i] == f;
    }

    /** Of the first i fragments those from j on are kept: exactly the ones not below the cursor. */
    static ghost predicate Cut(m: Manifest, cursor: nat, j: nat, i: nat, remaining: seq<Fragment>) {
      && j <= i <= |m.fragments| && remaining == m.fragments[j..i]
      && forall k :: 0 <= k < i ==> (k < j <==> m.fragments[k].seqEnd < cursor)
    }

    static lemma {:induction false} CutNext(m: Manifest, cursor: nat, j: nat, i: nat, remaining: seq<Fragment>)
      requires Chained(m) && i < |m.fragments| && Cut(m, cursor, j, i, remaining)
      ensures m.fragments[i].seqEnd >= cursor ==> Cut(m, cursor, j, i + 1, remaining + [m.fragments[i]])
      ensures m.fragments[i].seqEnd < cursor ==> Cut(m, cursor, i + 1, i + 1, remaining)
    {
      EndsAscend(m, j, i);
      hide Chained;
      if m.fragments[i].seqEnd >= cursor {
        assert m.fragments[j..i + 1] == m.fragments[j..i] + [m.fragments[i]];
      } else {
        assert j == i && remaining == [];
      }
    }

    static lemma {:induction false} EndsAscend(m: Manifest, j: nat, i: nat)
      requires Chained(m) && j <= i < |m.fragments|
      ensures j < i ==> m.fragments[j].seqEnd < m.fragments[i].seqEnd
    {
      assert FragmentOk(m.fragments[i], m.headSeq);
      assert j < i ==> Before(m.fragments[j], m.fragments[i]);
    }

    /** Deletes the object of a fragment below every requested cursor. */
    method RemoveFragment(f: Fragment) returns (out: Outcome)
      requires Valid() && manifest.Some? && f in manifest.value.fragments && f.seqEnd < maxCursor
      modifies this`store, this`ops, this`manifest
      ensures Valid() && manifest == if out.Crashed? then None else old(manifest)
      ensures out == faults(old(ops)) && ops == old(ops) + 1
      ensures store == if out.TookEffect() then old(store) - {f.key} else old(store)
    {
      DeleteOk(f);
      hide Sound, Follows, CopyOk;
      out := Remove(f.key);
      if out.Crashed? {
        manifest := None;
      }
    }

    /** Deletes the objects of all fragments below the cursor; the rest are a suffix of the list. */
    method DeleteBelow(cursor: nat) returns (crashed: bool, ghost j: nat, remaining: seq<Fragment>)
      requires Valid() && manifest.Some? && cursor <= maxCursor
      modifies this`store, this`ops, this`manifest
      ensures Valid() && manifest == if crashed then None else old(manifest)
      ensures crashed ==> ops > old(ops) && faults(ops - 1).Crashed?
      ensures !crashed ==>
                && j <= |manifest.value.fragments| && ops == old(ops) + j
                && store == Deleted(old(store), manifest.value.fragments, old(ops), j)
                && Cut(manifest.value, cursor, j, |manifest.value.fragments|, remaining)
    {
      var m := manifest.value;
      ghost var objects, first := store, ops;
      ChainOf(m);
      hide LogOk, ReadingOk, Chained, S3WAL.Deleting;
      crashed, remaining, j := false, [], 0;
      NothingDeleted(m, cursor, objects, first);
      for i := 0 to |m.fragments|
        invariant Valid() && manifest == Some(m) && Deleting(m, cursor, j, i, remaining, objects, store, first, ops)
      {
        DeletingNext(m, cursor, j, i, remaining, objects, store, first, ops);
        if m.fragments[i].seqEnd >= cursor {
          remaining := remaining + [m.fragments[i]];
        } else {
          var out := RemoveFragment(m.fragments[i]);
          if out.Crashed? {
            return true, j, [];
          }
          j := i + 1;
        }
      }
      DeletingDone(m, cursor, j, remaining, objects, store, first, ops);
    }

    /**
     The first i fragments were looked at: those below the cursor were deleted, one operation
     each, without a crash.
     */
    ghost predicate Deleting(m: Manifest, cursor: nat, j: nat, i: nat, remaining: seq<Fragment>,
                             objects: map<Key, Object>, now: map<Key, Object>, first: nat, n: nat)
    {
      Cut(m, cursor, j, i, remaining) && n == first + j && now == Deleted(objects, m.fragments, first, j)
    }

    lemma {:induction false} NothingDeleted(m: Manifest, cursor: nat, objects: map<Key, Object>, first: nat)
      ensures Deleting(m, cursor, 0, 0, [], objects, objects, first, first)
    {
    }

    lemma {:induction false} DeletingNext(m: Manifest, cursor: nat, j: nat, i: nat, remaining: seq<Fragment>,
                                          objects: map<Key, Object>, now: map<Key, Object>, first: nat, n: nat)
      requires Chained(m) && i < |m.fragments| && Deleting(m, cursor, j, i, remaining, objects, now, first, n)
      ensures m.fragments[i].seqEnd >= cursor ==>
                Deleting(m, cursor, j, i + 1, remaining + [m.fragments[i]], objects, now, first, n)
      ensures m.fragments[i].seqEnd < cursor ==>
                var later := if faults(n).TookEffect() then now - {m.fragments[i].key} else now;
                Deleting(m, cursor, i + 1, i + 1, remaining, objects, later, first, n + 1)
    {
      CutNext(m, cursor, j, i, remaining);
      CutContiguous(m, cursor, j, i, remaining);
      hide Chained, S3WAL.Cut;
    }

    lemma {:induction false} DeletingDone(m: Manifest, cursor: nat, j: nat, remaining: seq<Fragment>,
                                          objects: map<Key, Object>, now: map<Key, Object>, first: nat, n: nat)
      requires Deleting(m, cursor, j, |m.fragments|, remaining, objects, now, first, n)
      ensures j <= |m.fragments| && n == first + j && now == Deleted(objects, m.fragments, first, j)
      ensures Cut(m, cursor, j, |m.fragments|, remaining)
    {
    }

    /** The store after the objects of the first n fragments were deleted, where a delete took effect. */
    ghost function Deleted(objects: map<Key, Object>, fs: seq<Fragment>, first: nat, n: nat): map<Key, Object>
      requires n <= |fs|
    {
      if n == 0 then objects
      else
        var before := Deleted(objects, fs, first, n - 1);
        if faults(first + n - 1).TookEffect() then before - {fs[n - 1].key} else before
    }

    /** As long as fragments are below the cursor none is kept. */
    static lemma {:induction false} CutContiguous(m: Manifest, cursor: nat, j: nat, i: nat, remaining: seq<Fragment>)
      requires Chained(m) && i < |m.fragments| && Cut(m, cursor, j, i, remaining)
      ensures m.fragments[i].seqEnd < cursor ==> j == i
    {
      EndsAscend(m, j, i);
    }

    lemma {:induction false} ChainOf(m: Manifest)
      requires Valid() && manifest == Some(m)
      ensures Chained(m)
    {
    }

    lemma {:induction false} FollowsTrimmed(stored: Manifest, m: Manifest, j: nat, cursor: nat)
      requires Follows(stored, m, maxCursor) && j <= |m.fragments|
      requires forall i :: 0 <= i < j ==> m.fragments[i].seqEnd < maxCursor
      ensures Follows(stored, Trimmed(m, j, cursor), maxCursor)
    {
      var t := Trimmed(m, j, cursor);
      forall f | f in stored.fragments ensures f in t.fragments || f.seqEnd < maxCursor {
        if f.seqEnd >= maxCursor {
          var i :| 0 <= i < |m.fragments| && m.fragments[i] == f;
          assert t.fragments[i - j] == f;
        }
      }
    }

    lemma {:induction false} CopyTrimmed(m: Manifest, j: nat, cursor: nat)
      requires ReadingOk(reading, store, Some(m), maxCursor) && j <= |m.fragments|
      requires forall i :: 0 <= i < j ==> m.fragments[i].seqEnd < maxCursor
      ensures ReadingOk(reading, store, Some(Trimmed(m, j, cursor)), maxCursor)
    {
      if reading.Some? {
        FollowsTrimmed(reading.value.m, m, j, cursor);
      }
    }

    static lemma {:induction false} CutMeans(m: Manifest, cursor: nat, j: nat, remaining: seq<Fragment>)
      requires Cut(m, cursor, j, |m.fragments|, remaining)
      ensures j <= |m.fragments| && remaining == m.fragments[j..]
      ensures forall k :: 0 <= k < |m.fragments| ==> (k < j <==> m.fragments[k].seqEnd < cursor)
    {
      assert m.fragments[j..|m.fragments|] == m.fragments[j..];
    }

    /** Replaces the manifest by one without the deleted fragments and writes it. */
    method CommitTrim(m: Manifest, cursor: nat, ghost j: nat, remaining: seq<Fragment>) returns (status: Status)
      requires Valid() && manifest == Some(m) && cursor <= maxCursor && j <= |m.fragments|
      requires remaining == m.fragments[j..]
      requires forall k :: 0 <= k < |m.fragments| ==> (k < j <==> m.fragments[k].seqEnd < cursor)
      modifies this`store, this`ops, this`manifest
      ensures Valid() && ops == old(ops) + 1
      ensures var written := Manifest(remaining, m.headSeq, cursor, m.version + 1);
              && manifest == (if faults(old(ops)).Crashed? then None else Some(written))
              && store == if faults(old(ops)).TookEffect() then old(store)[ManifestKey := ManifestObject(written)]
                          else old(store)
      ensures match faults(old(ops))
              case Done => status == Ok
              case Failed(_) => status == Error
              case Crashed(_) => status == Down
    {
      hide Sound, Follows, CopyOk;
      TrimmedSound(m, store, acked, maxCursor, j, cursor);
      FollowsTrimmed(store[ManifestKey].m, m, j, cursor);
      CopyTrimmed(m, j, cursor);
      manifest := Some(Manifest(remaining, m.headSeq, cursor, m.version + 1));
      var out := WriteManifest();
      status := if out.Done? then Ok else if out.Crashed? then Down else Error;
    }

    /** Moves the cursor: objects below it are deleted first, the manifest is written last. */
    method AdvanceCursor(cursor: nat) returns (status: Status)
      requires Valid() && manifest.Some?
      modifies this
      ensures Valid() && acked == old(acked) && reading == old(reading) && ops >= old(ops)
      ensures maxCursor == if cursor > old(maxCursor) then cursor else old(maxCursor)
      ensures status.Down? <==> manifest.None?
      ensures manifest.Some? ==> manifest.value.headSeq == old(manifest.value.headSeq)
      ensures cursor <= old(manifest.value.cursorSeq) ==>
                status.Ok? && manifest == old(manifest) && store == old(store) && ops == old(ops)
      ensures cursor > old(manifest.value.cursorSeq) ==>
                && ops > old(ops) && (status.Down? <==> faults(ops - 1).Crashed?)
                && (status.Ok? <==> faults(ops - 1).Done? && manifest.Some?)
      ensures cursor > old(manifest.value.cursorSeq) && manifest.Some? ==>
                && var fs, j := old(manifest.value.fragments), ops - old(ops) - 1;
                && 0 <= j <= |fs| && (forall k :: 0 <= k < |fs| ==> (k < j <==> fs[k].seqEnd < cursor))
                && manifest.value == Manifest(fs[j..], old(manifest.value.headSeq), cursor,
                                              old(manifest.value.version) + 1)
                && store == var objects := Deleted(old(store), fs, old(ops), j);
                            if faults(ops - 1).TookEffect() then objects[ManifestKey := ManifestObject(manifest.value)]
                            else objects
    {
      hide LogOk, ReadingOk, S3WAL.Cut, S3WAL.Deleted;
      if cursor > maxCursor {
        RequestCursorOk(cursor);
        maxCursor := cursor;
      }
      if cursor <= manifest.value.cursorSeq {
        return Ok;
      }
      var m := manifest.value;
      var crashed, j, remaining := DeleteBelow(cursor);
      if crashed {
        return Down;
      }
      CutMeans(m, cursor, j, remaining);
      status := CommitTrim(m, cursor, j, remaining);
    }

    // ---------------------------------------------------------------- reading

    /** rs are numbered from first, with acknowledged contents where acknowledged. */
    static ghost predicate Numbered(rs: seq<Record>, first: int, acked: map<nat, Record>) {
      forall i :: 0 <= i < |rs| ==> rs[i].seqId == first + i && (rs[i].seqId in acked ==> acked[rs[i].seqId] == rs[i])
    }

    /** rs are the records after+1 .. last in order, with acknowledged contents where acknowledged. */
    static ghost predicate Complete(rs: seq<Record>, after: int, last: int, acked: map<nat, Record>) {
      |rs| == (if last > after then last - after else 0) && Numbered(rs, after + 1, acked)
    }

    /** The records numbered above the given number. */
    static ghost function After(rs: seq<Record>, after: nat): seq<Record> {
      if rs == [] then []
      else
        var n := |rs| - 1;
        After(rs[..n], after) + if rs[n].seqId > after then [rs[n]] else []
    }

    static lemma {:induction false} AfterConsecutive(rs: seq<Record>, start: nat, after: nat, acked: map<nat, Record>)
      requires Numbered(rs, start, acked)
      ensures After(rs, after) == rs[Clamp(after + 1 - start, |rs|)..]
    {
      if rs != [] {
        var n := |rs| - 1;
        assert rs[n].seqId == start + n;
        AfterConsecutive(rs[..n], start, after, acked);
        if start + n > after {
          Snoc(rs, Clamp(after + 1 - start, n));
        } else {
          assert After(rs, after) == After(rs[..n], after) + [];
        }
      }
    }

    static lemma {:induction false} Snoc(rs: seq<Record>, k: nat)
      requires k < |rs|
      ensures rs[k..] == rs[..|rs| - 1][k..] + [rs[|rs| - 1]]
    {
    }

    static function Clamp(x: int, n: nat): (k: nat)
      ensures k <= n
    {
      if x < 0 then 0 else if x > n then n else x
    }

    static method FilterAfter(rs: seq<Record>, after: nat) returns (r: seq<Record>)
      ensures r == After(rs, after)
    {
      r := [];
      for i := 0 to |rs|
        invariant r == After(rs[..i], after)
      {
        assert rs[..i + 1][..i] == rs[..i];
        if rs[i].seqId > after {
          r := r + [rs[i]];
        }
      }
      assert rs[..|rs|] == rs;
    }

    /** Reading one more fragment of the chain extends a complete read. */
    static lemma {:induction false} ExtendRead(rs: seq<Record>, after: nat, f: Fragment, store: map<Key, Object>,
                                               acked: map<nat, Record>)
      requires 1 <= f.seqStart <= f.seqEnd && f.seqEnd > after && Backed(f, store, acked)
      requires Complete(rs, after, f.seqStart - 1, acked)
      ensures Complete(rs + After(store[f.key].records, after), after, f.seqEnd, acked)
    {
      var o := store[f.key].records;
      BackedNumbered(f, store, acked);
      hide *;
      AfterConsecutive(o, f.seqStart, after, acked);
      ExtendNumbered(rs, o, after, f.seqStart, f.seqEnd, acked);
    }

    static lemma {:induction false} ExtendNumbered(rs: seq<Record>, o: seq<Record>, after: nat, start: nat, end: nat,
                                                   acked: map<nat, Record>)
      requires Numbered(o, start, acked) && |o| == end - start + 1 && 1 <= start && after < end
      requires Complete(rs, after, start - 1, acked)
      ensures Complete(rs + o[Clamp(after + 1 - start, |o|)..], after, end, acked)
    {
      hide S3WAL.Numbered;
      var k := Clamp(after + 1 - start, |o|);
      assert after + 1 + |rs| == start + k;
      NumberedSuffix(o, start, acked, k);
      NumberedConcat(rs, o[k..], after + 1, acked);
    }

    static lemma {:induction false} BackedNumbered(f: Fragment, store: map<Key, Object>, acked: map<nat, Record>)
      requires Backed(f, store, acked)
      ensures Numbered(store[f.key].records, f.seqStart, acked) && |store[f.key].records| == f.seqEnd - f.seqStart + 1
    {
    }

    static lemma {:induction false} NumberedSuffix(rs: seq<Record>, first: int, acked: map<nat, Record>, k: nat)
      requires Numbered(rs, first, acked) && k <= |rs|
      ensures Numbered(rs[k..], first + k, acked)
    {
    }

    static lemma {:induction false} NumberedConcat(a: seq<Record>, b: seq<Record>, first: int, acked: map<nat, Record>)
      requires Numbered(a, first, acked) && Numbered(b, first + |a|, acked)
      ensures Numbered(a + b, first, acked)
    {
    }

    /** How far the first i fragments reach. */
    static ghost function Reach(m: Manifest, i: nat): int
      requires i <= |m.fragments|
    {
      if i == 0 then Base(m) else m.fragments[i - 1].seqEnd
    }

    /** What the calls ask to append, and the highest cursor they ask for. */
    static ghost function Asked(calls: seq<Call>): nat {
      if calls == [] then 0
      else Asked(calls[..|calls| - 1]) + match calls[|calls| - 1] case DoAppend(ps) => |ps| case DoAdvance(_) => 0
    }

    static ghost function AskedCursor(cursor: nat, calls: seq<Call>): nat {
      if calls == [] then cursor
      else
        var before := AskedCursor(cursor, calls[..|calls| - 1]);
        match calls[|calls| - 1] case DoAppend(_) => before case DoAdvance(c) => if c > before then c else before
    }

    method Serve(call: Call)
      requires Valid() && manifest.Some?
      modifies this
      ensures Valid() && reading == old(reading) && maxCursor >= old(maxCursor) && ops >= old(ops)
      ensures (forall n :: old(ops) <= n < ops ==> faults(n).Done?) ==>
                && manifest.Some?
                && manifest.value.headSeq == old(manifest.value.headSeq) +
                     (match call case DoAppend(ps) => |ps| case DoAdvance(_) => 0)
                && maxCursor == match call case DoAppend(_) => old(maxCursor)
                                           case DoAdvance(c) => if c > old(maxCursor) then c else old(maxCursor)
    {
      hide LogOk, ReadingOk, Acknowledge, Stamped, Extended, S3WAL.Deleted;
      match call {
        case DoAppend(payloads) => var _ := Append(payloads);
        case DoAdvance(cursor) => var _ := AdvanceCursor(cursor);
      }
    }

    /** What all calls before the fetches of the first n fragments ask to append. */
    static ghost function AskedBefore(m: Manifest, after: nat, calls: nat -> seq<Call>, n: nat): nat
      requires n <= |m.fragments|
    {
      if n == 0 then 0
      else AskedBefore(m, after, calls, n - 1) + if m.fragments[n - 1].seqEnd > after then Asked(calls(n - 1)) else 0
    }

    /**
     Calls of other goroutines that get the lock while a read is under way, until one of them
     takes the process down.
     */
    method Interleave(calls: seq<Call>)
      requires Valid() && manifest.Some?
      modifies this
      ensures Valid() && reading == old(reading) && maxCursor >= old(maxCursor) && ops >= old(ops)
      ensures (forall n :: old(ops) <= n < ops ==> faults(n).Done?) ==>
                && manifest.Some? && manifest.value.headSeq == old(manifest.value.headSeq) + Asked(calls)
                && maxCursor == AskedCursor(old(maxCursor), calls)
    {
      hide LogOk, ReadingOk, Acknowledge, Stamped, Extended, S3WAL.Deleted;
      ghost var first := ops;
      for i := 0 to |calls|
        invariant Valid() && reading == old(reading) && maxCursor >= old(maxCursor) && ops >= first
        invariant (forall n :: first <= n < ops ==> faults(n).Done?) ==>
                    && manifest.Some? && manifest.value.headSeq == old(manifest.value.headSeq) + Asked(calls[..i])
                    && maxCursor == AskedCursor(old(maxCursor), calls[..i])
      {
        assert calls[..i + 1][..i] == calls[..i];
        if manifest.Some? {
          Serve(calls[i]);
        }
      }
      assert calls[..|calls|] == calls;
    }

    /** Fetches fragment i of the copied manifest and keeps its records after the given number. */
    method Fetch(m: Manifest, i: nat, after: nat, all: seq<Record>, ghost known: map<nat, Record>)
      returns (r: ReadResult)
      requires Valid() && manifest.Some? && reading == Some(Copy(m, known)) && i < |m.fragments|
      requires m.fragments[i].seqEnd > after
      requires after + 1 >= maxCursor ==> Complete(all, after, Reach(m, i), known)
      modifies this`ops
      ensures Valid() && ops == old(ops) + 1
      ensures after + 1 >= maxCursor && r.Records? ==> Complete(r.rs, after, Reach(m, i + 1), known)
      ensures after + 1 >= maxCursor && r.ReadFailed? ==> !faults(ops - 1).Done?
      ensures r == if faults(old(ops)).Done? && m.fragments[i].key in store && store[m.fragments[i].key].FragmentObject?
                   then Records(all + After(store[m.fragments[i].key].records, after)) else ReadFailed
    {
      var f := m.fragments[i];
      var got := faults(ops);
      ops := ops + 1;
      if !got.Done? {
        assert !faults(ops - 1).Done?;
        return ReadFailed;
      }
      NeededIsBacked(Copy(m, known), i, after);
      if f.key !in store || !store[f.key].FragmentObject? {
        return ReadFailed;
      }
      hide After, Backed, S3WAL.Complete;
      var later := FilterAfter(store[f.key].records, after);
      if after + 1 >= maxCursor {
        assert i > 0 ==> Linked(m.fragments, i);
        ExtendRead(all, after, f, store, known);
      }
      r := Records(all + later);
    }

    /** The locked beginning of a read: the manifest is copied. */
    method TakeCopy(after: nat) returns (m: Manifest)
      requires Valid() && manifest.Some?
      modifies this`reading
      ensures Valid() && m == manifest.value && reading == Some(Copy(m, acked))
      ensures after + 1 >= maxCursor ==> Complete([], after, Reach(m, 0), acked)
    {
      m := manifest.value;
      FreshCopy(m, store, acked, maxCursor);
      reading := Some(Copy(m, acked));
      BaseReached(Copy(m, acked), after);
    }

    /**
     Reads everything after the given number. The fragment list is copied once; before
     each fetch any calls of others may run. If no cursor beyond the read position was
     requested by the end, the read is complete up to the head at the copy, and it fails only
     when the process is down or its last store operation, the fetch, failed.
     */
    method ReadSince(after: nat, calls: nat -> seq<Call>) returns (r: ReadResult)
      requires Valid() && manifest.Some?
      modifies this
      ensures Valid()
      ensures after + 1 >= maxCursor && r.Records? ==> Complete(r.rs, after, old(manifest.value.headSeq), old(acked))
      ensures after + 1 >= maxCursor && r.ReadFailed? ==> manifest.None? || (ops > old(ops) && !faults(ops - 1).Done?)
      ensures r.Records? && (forall n :: old(ops) <= n < ops ==> faults(n).Done?) ==>
                manifest.Some? && manifest.value.headSeq ==
                  old(manifest.value.headSeq) + AskedBefore(old(manifest.value), after, calls,
                                                            |old(manifest.value.fragments)|)
    {
      hide LogOk, ReadingOk, S3WAL.Complete, S3WAL.Reach;
      var m := TakeCopy(after);
      ghost var known := acked;
      var all: seq<Record> := [];
      for i := 0 to |m.fragments|
        invariant Valid() && manifest.Some? && reading == Some(Copy(m, known)) && ops >= old(ops)
        invariant after + 1 >= maxCursor ==> Complete(all, after, Reach(m, i), known)
        invariant (forall n :: old(ops) <= n < ops ==> faults(n).Done?) ==>
                    manifest.value.headSeq == old(manifest.value.headSeq) + AskedBefore(m, after, calls, i)
      {
        if m.fragments[i].seqEnd > after {
          Interleave(calls(i));
          if manifest.None? {
            return ReadFailed;
          }
          var got := Fetch(m, i, after, all, known);
          if got.ReadFailed? {
            return ReadFailed;
          }
          all := got.rs;
        } else {
          SkipFragment(m, i, after, all, known);
        }
      }
      ReachesHead(Copy(m, known));
      r := Records(all);
    }

    lemma {:induction false} SkipFragment(m: Manifest, i: nat, after: nat, all: seq<Record>, known: map<nat, Record>)
      requires Valid() && manifest.Some? && reading == Some(Copy(m, known)) && i < |m.fragments|
      requires m.fragments[i].seqEnd <= after
      ensures Complete(all, after, Reach(m, i), known) ==> Complete(all, after, Reach(m, i + 1), known)
    {
      assert i > 0 ==> Linked(m.fragments, i);
      assert FragmentOk(m.fragments[i], m.headSeq);
    }

    lemma {:induction false} ReachesHead(c: Copy)
      requires Valid() && manifest.Some? && reading == Some(c)
      ensures Reach(c.m, |c.m.fragments|) == c.m.headSeq
    {
    }

    lemma {:induction false} BaseReached(c: Copy, after: nat)
      requires manifest.Some? && CopyOk(c, store, manifest.value, maxCursor)
      ensures after + 1 >= maxCursor ==> Complete([], after, Base(c.m), c.acked)
    {
    }

    /** A fragment a sufficiently late reader needs has its object, whatever happened since the copy. */
    lemma {:induction false} NeededIsBacked(c: Copy, i: nat, after: nat)
      requires Valid() && manifest.Some? && reading == Some(c) && i < |c.m.fragments| && c.m.fragments[i].seqEnd > after
      ensures 1 <= c.m.fragments[i].seqStart <= c.m.fragments[i].seqEnd && (i > 0 ==> Linked(c.m.fragments, i))
      ensures after + 1 >= maxCursor ==>
                && Backed(c.m.fragments[i], store, c.acked)
                && c.m.fragments[i].key in store && store[c.m.fragments[i].key].FragmentObject?
    {
      assert FragmentOk(c.m.fragments[i], c.m.headSeq);
    }

    /** A complete read contains every record acknowledged before it that it should. */
    lemma {:induction false} AcknowledgedIsRead(rs: seq<Record>, after: nat, s: nat)
      requires Valid() && manifest.Some? && Complete(rs, after, manifest.value.headSeq, acked)
      requires s in acked && s > after
      ensures s - after - 1 < |rs| && rs[s - after - 1] == acked[s]
    {
      assert s <= manifest.value.headSeq;
    }
  }
}
