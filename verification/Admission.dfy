/**
 The per-prefix admission controller. Each critical section of Acquire and Release,
 the receive that wakes a waiter, and the cancellation path are atomic steps that may
 interleave arbitrarily. Waiter channels are numbered in order of creation; a token
 is a slot sent to a channel and not yet received.
 */
module Admission {
  datatype Proc = Idle | Waiting(prefix: string, ch: nat) | Holding(prefix: string)

  datatype State = State(inFlight: map<string, int>, queues: map<string, seq<nat>>, tokens: set<nat>,
                         procs: map<nat, Proc>, nextCh: nat)

  const START := State(map[], map[], {}, map[], 0)

  function InFlight(s: State, p: string): int {
    if p in s.inFlight then s.inFlight[p] else 0
  }

  function Queue(s: State, p: string): seq<nat> {
    if p in s.queues then s.queues[p] else []
  }

  function ProcIn(procs: map<nat, Proc>, pid: nat): Proc {
    if pid in procs then procs[pid] else Idle
  }

  function ProcOf(s: State, pid: nat): Proc {
    ProcIn(s.procs, pid)
  }

  /** inFlight[p]-- with the entry deleted at zero. */
  function Decremented(inFlight: map<string, int>, p: string): map<string, int> {
    var n := (if p in inFlight then inFlight[p] else 0) - 1;
    if n == 0 then inFlight - {p} else inFlight[p := n]
  }

  /** The queue with the first occurrence of a channel cut out. */
  function WithoutChannel(q: seq<nat>, ch: nat): seq<nat> {
    if q == [] then [] else if q[0] == ch then q[1..] else [q[0]] + WithoutChannel(q[1..], ch)
  }

  function Dequeued(queues: map<string, seq<nat>>, p: string, ch: nat): map<string, seq<nat>> {
    if p in queues && ch in queues[p] then queues[p := WithoutChannel(queues[p], ch)] else queues
  }

  datatype Action = Acquire(pid: nat, prefix: string) | Wake(pid: nat) | Cancel(pid: nat) | Release(pid: nat)

  predicate Enabled(s: State, a: Action) {
    match a
    case Acquire(pid, _) => ProcOf(s, pid).Idle?
    case Wake(pid) => ProcOf(s, pid).Waiting? && ProcOf(s, pid).ch in s.tokens
    case Cancel(pid) => ProcOf(s, pid).Waiting?
    case Release(pid) => ProcOf(s, pid).Holding?
  }

  function Step(max: int, s: State, a: Action): State
    requires Enabled(s, a)
  {
    match a
    case Acquire(pid, p) =>
      if InFlight(s, p) < max then
        s.(inFlight := s.inFlight[p := InFlight(s, p) + 1], procs := s.procs[pid := Holding(p)])
      else
        s.(queues := s.queues[p := Queue(s, p) + [s.nextCh]],
           procs := s.procs[pid := Waiting(p, s.nextCh)], nextCh := s.nextCh + 1)
    case Wake(pid) =>
      var w := ProcOf(s, pid);
      s.(tokens := s.tokens - {w.ch}, procs := s.procs[pid := Holding(w.prefix)])
    case Cancel(pid) =>
      var w := ProcOf(s, pid);
      s.(queues := Dequeued(s.queues, w.prefix, w.ch), tokens := s.tokens - {w.ch}, procs := s.procs[pid := Idle],
         inFlight := if w.ch in s.tokens then Decremented(s.inFlight, w.prefix) else s.inFlight)
    case Release(pid) =>
      var p := ProcOf(s, pid).prefix;
      var q := Queue(s, p);
      if |q| > 0 then
        s.(queues := s.queues[p := q[1..]], tokens := s.tokens + {q[0]}, procs := s.procs[pid := Idle])
      else
        s.(inFlight := Decremented(s.inFlight, p), procs := s.procs[pid := Idle])
  }

  // ---------------------------------------------------------------- the controller

  /** The shared state that the steps update under the lock. */
  class AdmissionController {
    const maxPerPrefix: int
    var inFlight: map<string, int>
    var waitQueues: map<string, seq<nat>>
    var buffered: set<nat>
    var made: nat

    constructor (maxPerPrefix: int)
      ensures this.maxPerPrefix == maxPerPrefix && View(map[]) == START
    {
      this.maxPerPrefix := maxPerPrefix;
      inFlight, waitQueues, buffered, made := map[], map[], {}, 0;
    }

    ghost function View(procs: map<nat, Proc>): State
      reads this
    {
      State(inFlight, waitQueues, buffered, procs, made)
    }

    /** The locked part of Acquire: a slot at once, or a channel to wait on. */
    method AcquireLocked(p: string, ghost procs: map<nat, Proc>, ghost pid: nat) returns (granted: bool, ch: nat)
      requires ProcIn(procs, pid).Idle?
      modifies this
      ensures granted <==> InFlight(old(View(procs)), p) < maxPerPrefix
      ensures View(procs[pid := if granted then Holding(p) else Waiting(p, ch)])
           == Step(maxPerPrefix, old(View(procs)), Acquire(pid, p))
    {
      var n := if p in inFlight then inFlight[p] else 0;
      ch := made;
      if n < maxPerPrefix {
        inFlight := inFlight[p := n + 1];
        return true, ch;
      }
      made := made + 1;
      var q := if p in waitQueues then waitQueues[p] else [];
      waitQueues := waitQueues[p := q + [ch]];
      granted := false;
    }

    /** The receive that ends a successful wait. */
    method Receive(p: string, ch: nat, ghost procs: map<nat, Proc>, ghost pid: nat)
      requires ProcIn(procs, pid) == Waiting(p, ch) && ch in buffered
      modifies this
      ensures View(procs[pid := Holding(p)]) == Step(maxPerPrefix, old(View(procs)), Wake(pid))
    {
      buffered := buffered - {ch};
    }

    /** The locked part of the cancellation path. */
    method CancelLocked(p: string, ch: nat, ghost procs: map<nat, Proc>, ghost pid: nat)
      requires ProcIn(procs, pid) == Waiting(p, ch)
      modifies this
      ensures View(procs[pid := Idle]) == Step(maxPerPrefix, old(View(procs)), Cancel(pid))
    {
      var q := if p in waitQueues then waitQueues[p] else [];
      var i := 0;
      while i < |q| && q[i] != ch
        invariant 0 <= i <= |q|
        invariant ch !in q[..i]
      {
        i := i + 1;
      }
      CutAt(q, ch, i);
      if i < |q| {
        waitQueues := waitQueues[p := q[..i] + q[i + 1..]];
      }
      if ch in buffered {
        buffered := buffered - {ch};
        Decrement(p);
      }
      assert buffered == old(buffered) - {ch};
    }

    method Decrement(p: string)
      modifies this`inFlight
      ensures inFlight == Decremented(old(inFlight), p)
    {
      var n := (if p in inFlight then inFlight[p] else 0) - 1;
      inFlight := inFlight[p := n];
      if n == 0 {
        inFlight := inFlight - {p};
      }
    }

    method Release(ghost procs: map<nat, Proc>, ghost pid: nat, p: string)
      requires ProcIn(procs, pid) == Holding(p)
      modifies this
      ensures View(procs[pid := Idle]) == Step(maxPerPrefix, old(View(procs)), Action.Release(pid))
    {
      var q := if p in waitQueues then waitQueues[p] else [];
      if |q| > 0 {
        waitQueues := waitQueues[p := q[1..]];
        buffered := buffered + {q[0]};
      } else {
        Decrement(p);
      }
    }
  }

  lemma {:induction false} CutAt(q: seq<nat>, ch: nat, i: nat)
    requires i <= |q| && ch !in q[..i]
    requires i < |q| ==> q[i] == ch
    ensures i < |q| <==> ch in q
    ensures i < |q| ==> WithoutChannel(q, ch) == q[..i] + q[i + 1..]
  {
    if i > 0 {
      assert q[0] in q[..i];
      assert q[1..][..i - 1] == q[..i][1..];
      CutAt(q[1..], ch, i - 1);
      if i < |q| {
        assert q[..i] + q[i + 1..] == [q[0]] + (q[1..][..i - 1] + q[1..][i..]);
      }
    }
  }

  // ---------------------------------------------------------------- the invariant

  /** The process has a slot for the prefix: it holds it, or it was handed one it has not received. */
  ghost predicate Occupies(s: State, pid: nat, p: string) {
    ProcOf(s, pid) == Holding(p) ||
      (ProcOf(s, pid).Waiting? && ProcOf(s, pid).prefix == p && ProcOf(s, pid).ch in s.tokens)
  }

  ghost function Slots(s: State, p: string): set<nat> {
    set pid | pid in s.procs && Occupies(s, pid, p)
  }

  ghost predicate SlotsOk(max: int, s: State) {
    forall p :: CountOk(max, s, p)
  }

  ghost predicate CountOk(max: int, s: State, p: string) {
    && InFlight(s, p) == |Slots(s, p)|
    && InFlight(s, p) <= (if max < 0 then 0 else max)
    && (p in s.inFlight ==> s.inFlight[p] != 0)
  }

  ghost predicate Increasing(q: seq<nat>) {
    forall i, j :: 0 <= i < j < |q| ==> q[i] < q[j]
  }

  ghost predicate WaitsOn(s: State, pid: nat, p: string, ch: nat) {
    ProcOf(s, pid) == Waiting(p, ch)
  }

  ghost predicate ChannelsOk(s: State) {
    && (forall pid: nat, p, ch: nat :: WaitsOn(s, pid, p, ch) ==> ch < s.nextCh)
    && (forall pid: nat, p, ch: nat, pid': nat, p' :: WaitsOn(s, pid, p, ch) && WaitsOn(s, pid', p', ch) ==>
        pid == pid')
    && (forall ch: nat :: ch in s.tokens ==> exists pid: nat, p :: WaitsOn(s, pid, p, ch))
  }

  /** Somebody waits on the channel for a slot that was not sent yet. */
  ghost predicate Queued(s: State, p: string, ch: nat) {
    ch !in s.tokens && exists pid: nat :: WaitsOn(s, pid, p, ch)
  }

  ghost predicate QueueOk(s: State, p: string) {
    Increasing(Queue(s, p)) && forall ch: nat :: ch in Queue(s, p) <==> Queued(s, p, ch)
  }

  ghost predicate QueuesOk(s: State) {
    forall p :: QueueOk(s, p)
  }

  ghost predicate Inv(max: int, s: State) {
    SlotsOk(max, s) && ChannelsOk(s) && QueuesOk(s)
  }

  lemma {:induction false} StartOk(max: int)
    ensures Inv(max, START)
  {
    assert forall p :: Slots(START, p) == {};
  }

  lemma {:induction false} WithoutChannelOk(q: seq<nat>, ch: nat)
    requires Increasing(q)
    ensures Increasing(WithoutChannel(q, ch))
    ensures forall x :: x in WithoutChannel(q, ch) <==> x in q && x != ch
  {
    if q != [] {
      assert q == [q[0]] + q[1..];
      WithoutChannelOk(q[1..], ch);
      var r := WithoutChannel(q[1..], ch);
      forall i | 0 <= i < |r| ensures q[0] < r[i] {
        assert r[i] in q[1..];
      }
    }
  }

  // ---------------------------------------------------------------- channels

  /** The channel of a new waiter is fresh. */
  lemma {:induction false} FreshChannel(s: State)
    requires ChannelsOk(s)
    ensures s.nextCh !in s.tokens
  {
  }

  lemma {:induction false} ChannelsKept(max: int, s: State, a: Action)
    requires ChannelsOk(s) && QueuesOk(s) && Enabled(s, a)
    ensures ChannelsOk(Step(max, s, a))
  {
    var s' := Step(max, s, a);
    hide QueuesOk, QueueOk, Slots;
    match a
    case Acquire(pid, p) =>
      WaitsAfter(max, s, a);
      FreshChannel(s);
      TokensOwned(s, s', pid);
    case Wake(pid) =>
      WaitsAfter(max, s, a);
      TokensOwned(s, s', pid);
    case Cancel(pid) =>
      WaitsAfter(max, s, a);
      TokensOwned(s, s', pid);
    case Release(pid) =>
      WaitsAfter(max, s, a);
      ReleasedToken(max, s, pid);
      TokensOwned(s, s', pid);
  }

  ghost function Actor(a: Action): nat {
    a.pid
  }

  /** Only the acting process changes what it waits on. */
  lemma {:induction false} WaitsAfter(max: int, s: State, a: Action)
    requires Enabled(s, a)
    ensures forall x: nat, p, ch: nat :: x != Actor(a) ==>
              (WaitsOn(Step(max, s, a), x, p, ch) <==> WaitsOn(s, x, p, ch))
    ensures forall p, ch: nat :: WaitsOn(Step(max, s, a), Actor(a), p, ch)
                 <==> a.Acquire? && InFlight(s, a.prefix) >= max && p == a.prefix && ch == s.nextCh
  {
  }

  /** A token sent by a release goes to a process that waits on the released prefix. */
  lemma {:induction false} ReleasedToken(max: int, s: State, pid: nat)
    requires QueuesOk(s) && ProcOf(s, pid).Holding?
    ensures Queue(s, ProcOf(s, pid).prefix) != [] ==>
      Queued(s, ProcOf(s, pid).prefix, Queue(s, ProcOf(s, pid).prefix)[0])
  {
    var p := ProcOf(s, pid).prefix;
    assert QueueOk(s, p);
    if Queue(s, p) != [] {
      assert Queue(s, p)[0] in Queue(s, p);
    }
  }

  /** Tokens stay owned when each survivor's owner is not the acting process. */
  lemma {:induction false} TokensOwned(s: State, s': State, pid: nat)
    requires forall x: nat, p, ch: nat :: x != pid && WaitsOn(s, x, p, ch) ==> WaitsOn(s', x, p, ch)
    requires forall ch: nat :: ch in s'.tokens ==> exists x: nat, p :: x != pid && WaitsOn(s, x, p, ch)
    ensures forall ch: nat :: ch in s'.tokens ==> exists x: nat, p :: WaitsOn(s', x, p, ch)
  {
    forall ch: nat | ch in s'.tokens
      ensures exists x: nat, p :: WaitsOn(s', x, p, ch)
    {
      var x: nat, p :| x != pid && WaitsOn(s, x, p, ch);
      assert WaitsOn(s', x, p, ch);
    }
  }

  // ---------------------------------------------------------------- queues

  lemma {:induction false} QueuesKept(max: int, s: State, a: Action)
    requires ChannelsOk(s) && QueuesOk(s) && Enabled(s, a)
    ensures QueuesOk(Step(max, s, a))
  {
    hide QueueOk, ChannelsOk, Step, Queued;
    forall r ensures QueueOk(Step(max, s, a), r) {
      assert QueueOk(s, r);
      match a
      case Acquire(pid, p) => QueueAfterAcquire(max, s, pid, p, r);
      case Wake(pid) => QueueAfterWake(max, s, pid, r);
      case Cancel(pid) => QueueAfterCancel(max, s, pid, r);
      case Release(pid) => QueueAfterRelease(max, s, pid, r);
    }
  }

  /** What is queued follows the processes other than one whose channel is taken care of apart. */
  lemma {:induction false} QueuedElsewhere(s: State, s': State, pid: nat, r: string, ch: nat)
    requires forall x: nat, p, c: nat :: x != pid ==> (WaitsOn(s', x, p, c) <==> WaitsOn(s, x, p, c))
    requires !WaitsOn(s, pid, r, ch) && !WaitsOn(s', pid, r, ch) && (ch in s.tokens <==> ch in s'.tokens)
    ensures Queued(s', r, ch) <==> Queued(s, r, ch)
  {
    hide WaitsOn;
  }

  lemma {:induction false} QueueAfterAcquire(max: int, s: State, pid: nat, p: string, r: string)
    requires ChannelsOk(s) && QueueOk(s, r) && Enabled(s, Acquire(pid, p))
    ensures QueueOk(Step(max, s, Acquire(pid, p)), r)
  {
    var s' := Step(max, s, Acquire(pid, p));
    var joins := InFlight(s, p) >= max && r == p;
    FreshChannel(s);
    WaitsAfter(max, s, Acquire(pid, p));
    assert joins ==> WaitsOn(s', pid, r, s.nextCh);
    assert Queue(s', r) == if joins then Queue(s, r) + [s.nextCh] else Queue(s, r);
    assert !Queued(s, r, s.nextCh);
    forall ch: nat | ch in Queue(s, r) ensures ch < s.nextCh {
      assert Queued(s, r, ch);
    }
    AppendIncreases(Queue(s, r), s.nextCh);
    hide ChannelsOk, Step;
    forall ch: nat ensures Queued(s', r, ch) <==> Queued(s, r, ch) || (joins && ch == s.nextCh) {
      if !(joins && ch == s.nextCh) {
        QueuedElsewhere(s, s', pid, r, ch);
      }
    }
  }

  lemma {:induction false} AppendIncreases(q: seq<nat>, n: nat)
    requires Increasing(q) && forall ch: nat :: ch in q ==> ch < n
    ensures Increasing(q + [n])
  {
    forall i | 0 <= i < |q| ensures q[i] < n {
      assert q[i] in q;
    }
  }

  lemma {:induction false} QueueAfterWake(max: int, s: State, pid: nat, r: string)
    requires ChannelsOk(s) && QueueOk(s, r) && Enabled(s, Wake(pid))
    ensures QueueOk(Step(max, s, Wake(pid)), r)
  {
    var s' := Step(max, s, Wake(pid));
    var w := ProcOf(s, pid);
    WaitsAfter(max, s, Wake(pid));
    forall ch: nat ensures Queued(s', r, ch) <==> Queued(s, r, ch) {
      OnlyOwnerWaits(s, pid);
      if ch != w.ch {
        QueuedElsewhere(s, s', pid, r, ch);
      }
    }
  }

  /** Nobody else waits on the channel of a waiting process. */
  lemma {:induction false} OnlyOwnerWaits(s: State, pid: nat)
    requires ChannelsOk(s) && ProcOf(s, pid).Waiting?
    ensures forall x: nat, p :: WaitsOn(s, x, p, ProcOf(s, pid).ch) <==> x == pid && p == ProcOf(s, pid).prefix
  {
    assert WaitsOn(s, pid, ProcOf(s, pid).prefix, ProcOf(s, pid).ch);
  }

  lemma {:induction false} QueueAfterCancel(max: int, s: State, pid: nat, r: string)
    requires ChannelsOk(s) && QueueOk(s, r) && Enabled(s, Cancel(pid))
    ensures QueueOk(Step(max, s, Cancel(pid)), r)
  {
    var s' := Step(max, s, Cancel(pid));
    var w := ProcOf(s, pid);
    WaitsAfter(max, s, Cancel(pid));
    OnlyOwnerWaits(s, pid);
    WithoutChannelOk(Queue(s, r), w.ch);
    forall ch: nat ensures Queued(s', r, ch) <==> Queued(s, r, ch) && ch != w.ch {
      if ch != w.ch {
        QueuedElsewhere(s, s', pid, r, ch);
      }
    }
    assert r != w.prefix ==> w.ch !in Queue(s, r);
  }

  lemma {:induction false} QueueAfterRelease(max: int, s: State, pid: nat, r: string)
    requires ChannelsOk(s) && QueuesOk(s) && Enabled(s, Release(pid))
    ensures QueueOk(Step(max, s, Release(pid)), r)
  {
    var s' := Step(max, s, Release(pid));
    var p := ProcOf(s, pid).prefix;
    var q := Queue(s, p);
    WaitsAfter(max, s, Release(pid));
    ReleasedToken(max, s, pid);
    if q != [] {
      forall ch: nat ensures Queued(s', r, ch) <==> Queued(s, r, ch) && ch != q[0] {
        if ch != q[0] {
          QueuedElsewhere(s, s', pid, r, ch);
        }
      }
      QueuedOnce(s, p, r, q[0]);
      assert QueueOk(s, r) && QueueOk(s, p);
      assert r == p ==> forall ch: nat :: ch in q[1..] <==> ch in q && ch != q[0] by { TailOfIncreasing(q); }
    } else {
      forall ch: nat ensures Queued(s', r, ch) <==> Queued(s, r, ch) {
        QueuedElsewhere(s, s', pid, r, ch);
      }
      assert QueueOk(s, r);
    }
  }

  /** A channel is queued for one prefix only. */
  lemma {:induction false} QueuedOnce(s: State, p: string, r: string, ch: nat)
    requires ChannelsOk(s) && Queued(s, p, ch)
    ensures Queued(s, r, ch) ==> p == r
  {
    var x: nat :| WaitsOn(s, x, p, ch);
    OnlyOwnerWaits(s, x);
  }

  lemma {:induction false} TailOfIncreasing(q: seq<nat>)
    requires Increasing(q) && q != []
    ensures Increasing(q[1..])
    ensures forall ch :: ch in q[1..] <==> ch in q && ch != q[0]
  {
    assert q == [q[0]] + q[1..];
  }

  // ---------------------------------------------------------------- slots

  lemma {:induction false} SlotsKept(max: int, s: State, a: Action)
    requires Inv(max, s) && Enabled(s, a)
    ensures SlotsOk(max, Step(max, s, a))
  {
    hide QueueOk, ChannelsOk, Step, CountOk, Slots;
    forall r ensures CountOk(max, Step(max, s, a), r) {
      assert CountOk(max, s, r);
      match a
      case Acquire(pid, p) => CountAfterAcquire(max, s, pid, p, r);
      case Wake(pid) => CountAfterWake(max, s, pid, r);
      case Cancel(pid) => CountAfterCancel(max, s, pid, r);
      case Release(pid) => CountAfterRelease(max, s, pid, r);
    }
  }

  /** When one process changes, the slots change by that process at most. */
  lemma {:induction false} SlotsBut(s: State, s': State, pid: nat, r: string)
    requires forall x: nat :: x != pid ==> (Occupies(s', x, r) <==> Occupies(s, x, r))
    ensures Slots(s', r) == if Occupies(s', pid, r) then Slots(s, r) + {pid} else Slots(s, r) - {pid}
    ensures pid in Slots(s, r) <==> Occupies(s, pid, r)
    ensures |Slots(s', r)| == |Slots(s, r)| +
              (if Occupies(s', pid, r) then 1 else 0) - (if Occupies(s, pid, r) then 1 else 0)
  {
    SlotsMember(s, r);
    SlotsMember(s', r);
    hide Slots, Occupies;
    assert Slots(s', r) == if Occupies(s', pid, r) then Slots(s, r) + {pid} else Slots(s, r) - {pid};
  }

  lemma {:induction false} SlotsMember(s: State, r: string)
    ensures forall x: nat :: x in Slots(s, r) <==> Occupies(s, x, r)
  {
  }

  lemma {:induction false} CountAfterAcquire(max: int, s: State, pid: nat, p: string, r: string)
    requires CountOk(max, s, r) && ChannelsOk(s) && Enabled(s, Acquire(pid, p))
    ensures CountOk(max, Step(max, s, Acquire(pid, p)), r)
  {
    var s' := Step(max, s, Acquire(pid, p));
    OccupiesAfterAcquire(max, s, pid, p, r);
    hide ChannelsOk, Slots, Occupies;
    SlotsBut(s, s', pid, r);
  }

  lemma {:induction false} OccupiesAfterAcquire(max: int, s: State, pid: nat, p: string, r: string)
    requires ChannelsOk(s) && Enabled(s, Acquire(pid, p))
    ensures var s' := Step(max, s, Acquire(pid, p));
            && (forall x: nat :: x != pid ==> (Occupies(s', x, r) <==> Occupies(s, x, r)))
            && !Occupies(s, pid, r) && (Occupies(s', pid, r) <==> r == p && InFlight(s, p) < max)
  {
    FreshChannel(s);
    hide ChannelsOk;
  }

  lemma {:induction false} CountAfterWake(max: int, s: State, pid: nat, r: string)
    requires CountOk(max, s, r) && ChannelsOk(s) && Enabled(s, Wake(pid))
    ensures CountOk(max, Step(max, s, Wake(pid)), r)
  {
    var s' := Step(max, s, Wake(pid));
    OthersKeepTokens(s, s', pid, r);
    hide ChannelsOk, Slots;
    SlotsBut(s, s', pid, r);
  }

  /** Taking a waiter's token away does not touch the slots of others. */
  lemma {:induction false} OthersKeepTokens(s: State, s': State, pid: nat, r: string)
    requires ChannelsOk(s) && ProcOf(s, pid).Waiting?
    requires s'.tokens == s.tokens - {ProcOf(s, pid).ch}
    requires s'.procs == s.procs[pid := ProcOf(s', pid)]
    ensures forall x: nat :: x != pid ==> (Occupies(s', x, r) <==> Occupies(s, x, r))
  {
    OnlyOwnerWaits(s, pid);
    hide ChannelsOk;
    forall x: nat | x != pid ensures Occupies(s', x, r) <==> Occupies(s, x, r) {
      assert ProcOf(s', x) == ProcOf(s, x);
      if ProcOf(s, x).Waiting? {
        assert WaitsOn(s, x, ProcOf(s, x).prefix, ProcOf(s, x).ch);
      }
    }
  }

  lemma {:induction false} CountAfterCancel(max: int, s: State, pid: nat, r: string)
    requires CountOk(max, s, r) && ChannelsOk(s) && Enabled(s, Cancel(pid))
    ensures CountOk(max, Step(max, s, Cancel(pid)), r)
  {
    var s' := Step(max, s, Cancel(pid));
    OthersKeepTokens(s, s', pid, r);
    hide ChannelsOk, Slots, Dequeued;
    SlotsBut(s, s', pid, r);
  }

  lemma {:induction false} CountAfterRelease(max: int, s: State, pid: nat, r: string)
    requires CountOk(max, s, r) && ChannelsOk(s) && QueuesOk(s) && Enabled(s, Release(pid))
    ensures CountOk(max, Step(max, s, Release(pid)), r)
  {
    var s' := Step(max, s, Release(pid));
    var p := ProcOf(s, pid).prefix;
    var q := Queue(s, p);
    ReleasedToken(max, s, pid);
    if q == [] {
      assert forall x: nat :: x != pid ==> (Occupies(s', x, r) <==> Occupies(s, x, r));
      SlotsBut(s, s', pid, r);
    } else {
      var w: nat :| WaitsOn(s, w, p, q[0]);
      SlotMoves(max, s, pid, w, r);
    }
  }

  lemma {:induction false} SlotMoves(max: int, s: State, pid: nat, w: nat, r: string)
    requires CountOk(max, s, r) && ChannelsOk(s) && ProcOf(s, pid).Holding? && Queue(s, ProcOf(s, pid).prefix) != []
    requires WaitsOn(s, w, ProcOf(s, pid).prefix, Queue(s, ProcOf(s, pid).prefix)[0])
    requires Queue(s, ProcOf(s, pid).prefix)[0] !in s.tokens
    ensures CountOk(max, Step(max, s, Release(pid)), r)
  {
    var p := ProcOf(s, pid).prefix;
    SlotsAfterHandOver(max, s, pid, w, r);
    hide Slots, Occupies, ChannelsOk, WaitsOn;
    if r == p {
      SwapKeepsSize(Slots(s, r), pid, w);
    }
  }

  /** Handing a slot over replaces its holder by the waiter. */
  lemma {:induction false} SlotsAfterHandOver(max: int, s: State, pid: nat, w: nat, r: string)
    requires ChannelsOk(s) && ProcOf(s, pid).Holding? && Queue(s, ProcOf(s, pid).prefix) != []
    requires WaitsOn(s, w, ProcOf(s, pid).prefix, Queue(s, ProcOf(s, pid).prefix)[0])
    requires Queue(s, ProcOf(s, pid).prefix)[0] !in s.tokens
    ensures var s', p := Step(max, s, Release(pid)), ProcOf(s, pid).prefix;
            && Slots(s', r) == (if r == p then Slots(s, r) - {pid} + {w} else Slots(s, r))
            && (r == p ==> pid in Slots(s, r) && w !in Slots(s, r))
  {
    var s' := Step(max, s, Release(pid));
    forall x: nat
      ensures x in Slots(s', r) <==>
              x in (if r == ProcOf(s, pid).prefix then Slots(s, r) - {pid} + {w} else Slots(s, r))
    {
      OccupiesAfterHandOver(max, s, pid, w, r, x);
    }
  }

  lemma {:induction false} OccupiesAfterHandOver(max: int, s: State, pid: nat, w: nat, r: string, x: nat)
    requires ChannelsOk(s) && ProcOf(s, pid).Holding? && Queue(s, ProcOf(s, pid).prefix) != []
    requires WaitsOn(s, w, ProcOf(s, pid).prefix, Queue(s, ProcOf(s, pid).prefix)[0])
    requires Queue(s, ProcOf(s, pid).prefix)[0] !in s.tokens
    ensures Occupies(Step(max, s, Release(pid)), x, r) <==>
              if x == pid then false else if x == w then r == ProcOf(s, pid).prefix else Occupies(s, x, r)
  {
    OnlyOwnerWaits(s, w);
    hide ChannelsOk;
    if ProcOf(s, x).Waiting? {
      assert WaitsOn(s, x, ProcOf(s, x).prefix, ProcOf(s, x).ch);
    }
  }

  lemma {:induction false} SwapKeepsSize(a: set<nat>, x: nat, y: nat)
    requires x in a && y !in a
    ensures |a - {x} + {y}| == |a|
  {
  }

  lemma {:induction false} StepKeepsInv(max: int, s: State, a: Action)
    requires Inv(max, s) && Enabled(s, a)
    ensures Inv(max, Step(max, s, a))
  {
    ChannelsKept(max, s, a);
    QueuesKept(max, s, a);
    SlotsKept(max, s, a);
  }

  // ---------------------------------------------------------------- whole runs

  ghost predicate Legal(max: int, s: State, run: seq<Action>)
    decreases |run|
  {
    run == [] || (Enabled(s, run[0]) && Legal(max, Step(max, s, run[0]), run[1..]))
  }

  ghost function After(max: int, s: State, run: seq<Action>): State
    requires Legal(max, s, run)
    decreases |run|
  {
    if run == [] then s else After(max, Step(max, s, run[0]), run[1..])
  }

  /** Slots are conserved and bounded over every interleaving. */
  lemma {:induction false} RunKeepsInv(max: int, s: State, run: seq<Action>)
    requires Inv(max, s) && Legal(max, s, run)
    ensures Inv(max, After(max, s, run))
    decreases |run|
  {
    if run != [] {
      StepKeepsInv(max, s, run[0]);
      RunKeepsInv(max, Step(max, s, run[0]), run[1..]);
    }
  }

  ghost function Holders(s: State, p: string): set<nat> {
    set pid | pid in s.procs && s.procs[pid] == Holding(p)
  }

  /** Waiters whose slot was sent but not yet received. */
  ghost function Handed(s: State, p: string): set<nat> {
    set pid | pid in s.procs && s.procs[pid].Waiting? && s.procs[pid].prefix == p && s.procs[pid].ch in s.tokens
  }

  lemma {:induction false} SlotAccounting(max: int, run: seq<Action>, p: string)
    requires Legal(max, START, run)
    ensures var s := After(max, START, run);
            InFlight(s, p) == |Holders(s, p)| + |Handed(s, p)| && InFlight(s, p) <= if max < 0 then 0 else max
  {
    StartOk(max);
    RunKeepsInv(max, START, run);
    var s := After(max, START, run);
    assert CountOk(max, s, p);
    assert Slots(s, p) == Holders(s, p) + Handed(s, p);
    assert Holders(s, p) !! Handed(s, p);
  }

  lemma {:induction false} NobodyQueued(s: State, p: string)
    requires QueueOk(s, p)
    ensures Queue(s, p) != [] ==> exists pid: nat :: WaitsOn(s, pid, p, Queue(s, p)[0])
  {
    if Queue(s, p) != [] {
      assert Queue(s, p)[0] in Queue(s, p);
    }
  }

  /** When every caller has returned its slot or given up, nothing is left behind. */
  lemma {:induction false} NoSlotLeaks(max: int, run: seq<Action>)
    requires Legal(max, START, run)
    requires forall pid: nat :: ProcOf(After(max, START, run), pid).Idle?
    ensures var s := After(max, START, run);
            s.inFlight == map[] && s.tokens == {} && forall p :: Queue(s, p) == []
  {
    StartOk(max);
    RunKeepsInv(max, START, run);
    var s := After(max, START, run);
    forall p ensures p !in s.inFlight && Queue(s, p) == [] {
      assert CountOk(max, s, p);
      assert Slots(s, p) == {};
      assert QueueOk(s, p);
      NobodyQueued(s, p);
    }
    assert s.inFlight.Keys == {};
  }

  // ---------------------------------------------------------------- first in, first out

  /** The channels handed a slot for a prefix during a run, in order. */
  ghost function Grants(max: int, s: State, run: seq<Action>, p: string): seq<nat>
    requires Legal(max, s, run)
    decreases |run|
  {
    if run == [] then []
    else
      var rest := Grants(max, Step(max, s, run[0]), run[1..], p);
      if Grants?(s, run[0], p) then [Queue(s, p)[0]] + rest else rest
  }

  ghost predicate Grants?(s: State, a: Action, p: string)
    requires Enabled(s, a)
  {
    a.Release? && ProcOf(s, a.pid).prefix == p && Queue(s, p) != []
  }

  /** Whoever is queued for the prefix, or may still queue, comes after channel b. */
  ghost predicate AllAfter(s: State, p: string, b: int) {
    b < s.nextCh && forall ch: nat :: ch in Queue(s, p) ==> b < ch
  }

  lemma {:induction false} AllAfterStep(max: int, s: State, a: Action, p: string, b: int)
    requires Inv(max, s) && Enabled(s, a) && AllAfter(s, p, b)
    ensures AllAfter(Step(max, s, a), p, if Grants?(s, a, p) then Queue(s, p)[0] else b)
    ensures Grants?(s, a, p) ==> Queue(s, p)[0] > b
  {
    hide SlotsOk;
    assert QueueOk(s, p);
    if a.Release? {
      ReleasedToken(max, s, a.pid);
      if Grants?(s, a, p) {
        TailOfIncreasing(Queue(s, p));
        assert Queue(s, p)[0] in Queue(s, p);
      }
    } else if a.Cancel? {
      WithoutChannelOk(Queue(s, p), ProcOf(s, a.pid).ch);
    }
  }

  /** Slots are handed over in the order of arrival. */
  lemma {:induction false} GrantsAreFifo(max: int, s: State, run: seq<Action>, p: string, b: int)
    requires Inv(max, s) && Legal(max, s, run) && AllAfter(s, p, b)
    ensures Increasing(Grants(max, s, run, p))
    ensures forall i :: 0 <= i < |Grants(max, s, run, p)| ==> b < Grants(max, s, run, p)[i]
    decreases |run|
  {
    if run != [] {
      hide Inv, Step;
      var c := if Grants?(s, run[0], p) then Queue(s, p)[0] else b;
      AllAfterStep(max, s, run[0], p, b);
      StepKeepsInv(max, s, run[0]);
      GrantsAreFifo(max, Step(max, s, run[0]), run[1..], p, c);
    }
  }

  /** The waiter handed a slot is the longest waiting one that has not been handed one. */
  lemma {:induction false} OldestIsServed(max: int, s: State, pid: nat, ch: nat)
    requires Inv(max, s) && ProcOf(s, pid).Holding? && Queued(s, ProcOf(s, pid).prefix, ch)
    ensures Queue(s, ProcOf(s, pid).prefix) != [] && Queue(s, ProcOf(s, pid).prefix)[0] <= ch
    ensures var s' := Step(max, s, Release(pid)); s'.tokens - s.tokens == {Queue(s, ProcOf(s, pid).prefix)[0]}
  {
    var p := ProcOf(s, pid).prefix;
    assert QueueOk(s, p);
    assert ch in Queue(s, p);
    ReleasedToken(max, s, pid);
  }

  // ---------------------------------------------------------------- nobody barges

  /** A waiter is queued only while all slots of its prefix are taken. */
  ghost predicate Busy(max: int, s: State) {
    forall p :: BusyAt(max, s, p)
  }

  ghost predicate BusyAt(max: int, s: State, p: string) {
    Queue(s, p) != [] ==> InFlight(s, p) >= max
  }

  /** A waiter gives up after a slot was sent to it, while others still wait. */
  ghost predicate Strands(max: int, s: State, a: Action)
    requires Enabled(s, a)
  {
    a.Cancel? && ProcOf(s, a.pid).ch in s.tokens && Queue(s, ProcOf(s, a.pid).prefix) != []
  }

  lemma {:induction false} BusyExactly(max: int, s: State, a: Action)
    requires Inv(max, s) && Enabled(s, a) && Busy(max, s)
    ensures Busy(max, Step(max, s, a)) <==> !Strands(max, s, a)
  {
    var s' := Step(max, s, a);
    if Strands(max, s, a) {
      StrandedQueue(max, s, a);
    } else {
      forall p ensures BusyAt(max, s', p) {
        assert BusyAt(max, s, p) && CountOk(max, s, p) && QueueOk(s, p);
        if a.Cancel? {
          WithoutChannelOk(Queue(s, p), ProcOf(s, a.pid).ch);
        }
      }
    }
  }

  lemma {:induction false} StrandedQueue(max: int, s: State, a: Action)
    requires Inv(max, s) && Enabled(s, a) && Strands(max, s, a)
    ensures !BusyAt(max, Step(max, s, a), ProcOf(s, a.pid).prefix)
  {
    var w := ProcOf(s, a.pid);
    assert CountOk(max, s, w.prefix);
    assert a.pid in Slots(s, w.prefix);
    assert QueueOk(s, w.prefix);
    assert w.ch !in Queue(s, w.prefix);
  }

  ghost predicate NeverStrands(max: int, s: State, run: seq<Action>)
    requires Legal(max, s, run)
    decreases |run|
  {
    run == [] || (!Strands(max, s, run[0]) && NeverStrands(max, Step(max, s, run[0]), run[1..]))
  }

  /**
   In runs where no handed slot is cancelled over a non-empty queue, waiters wait only
   on a full prefix, so the fast path never overtakes anybody.
   */
  lemma {:induction false} NobodyBarges(max: int, s: State, run: seq<Action>)
    requires Inv(max, s) && Busy(max, s) && Legal(max, s, run) && NeverStrands(max, s, run)
    ensures Busy(max, After(max, s, run))
    ensures forall p :: InFlight(After(max, s, run), p) < max ==> Queue(After(max, s, run), p) == []
    decreases |run|
  {
    if run != [] {
      hide Inv, Step;
      BusyExactly(max, s, run[0]);
      StepKeepsInv(max, s, run[0]);
      NobodyBarges(max, Step(max, s, run[0]), run[1..]);
    }
    var t := After(max, s, run);
    forall p ensures InFlight(t, p) < max ==> Queue(t, p) == [] {
      assert BusyAt(max, t, p);
    }
  }

  /**
   One slot: process 0 holds it, 1 and 2 queue, 0 hands it to 1, and 1 gives up.
   Process 2 is left waiting although nobody holds a slot of its prefix.
   */
  lemma {:induction false} StrandedWaiter()
    ensures var run := [Acquire(0, "p"), Acquire(1, "p"), Acquire(2, "p"), Release(0), Cancel(1)];
            && Legal(1, START, run)
            && var s := After(1, START, run);
               InFlight(s, "p") == 0 && Queue(s, "p") == [1] && Holders(s, "p") == {} && Handed(s, "p") == {}
  {
    var a, b, c, d, e := Acquire(0, "p"), Acquire(1, "p"), Acquire(2, "p"), Release(0), Cancel(1);
    var s3 := State(map["p" := 1], map["p" := [0, 1]], {},
                    map[0 := Holding("p"), 1 := Waiting("p", 0), 2 := Waiting("p", 1)], 2);
    ThreeArrive(a, b, c, s3);
    var s4 := Step(1, s3, d);
    assert s4 == State(map["p" := 1], map["p" := [1]], {0}, map[0 := Idle, 1 := Waiting("p", 0), 2 := Waiting("p", 1)],
                       2);
    var s5 := Step(1, s4, e);
    assert s5 == State(map[], map["p" := [1]], {}, map[0 := Idle, 1 := Idle, 2 := Waiting("p", 1)], 2);
    OneMore(1, s4, e, []);
    OneMore(1, s3, d, [e]);
    var s1 := Step(1, START, a);
    var s2 := Step(1, s1, b);
    OneMore(1, s2, c, [d, e]);
    OneMore(1, s1, b, [c, d, e]);
    OneMore(1, START, a, [b, c, d, e]);
    assert [a] + ([b] + ([c] + ([d] + ([e] + [])))) == [a, b, c, d, e];
  }

  lemma {:induction false} ThreeArrive(a: Action, b: Action, c: Action, s3: State)
    requires a == Acquire(0, "p") && b == Acquire(1, "p") && c == Acquire(2, "p")
    requires s3 == State(map["p" := 1], map["p" := [0, 1]], {},
                         map[0 := Holding("p"), 1 := Waiting("p", 0), 2 := Waiting("p", 1)], 2)
    ensures Enabled(START, a) && Enabled(Step(1, START, a), b) && Enabled(Step(1, Step(1, START, a), b), c)
    ensures Step(1, Step(1, Step(1, START, a), b), c) == s3
  {
    var s1 := Step(1, START, a);
    assert s1 == State(map["p" := 1], map[], {}, map[0 := Holding("p")], 0);
    var s2 := Step(1, s1, b);
    assert Queue(s1, "p") + [0] == [0];
    assert s2 == State(map["p" := 1], map["p" := [0]], {}, map[0 := Holding("p"), 1 := Waiting("p", 0)], 1);
    assert Queue(s2, "p") + [1] == [0, 1];
  }

  lemma {:induction false} OneMore(max: int, s: State, a: Action, rest: seq<Action>)
    requires Enabled(s, a) && Legal(max, Step(max, s, a), rest)
    ensures Legal(max, s, [a] + rest) && After(max, s, [a] + rest) == After(max, Step(max, s, a), rest)
  {
    assert ([a] + rest)[0] == a && ([a] + rest)[1..] == rest;
  }
}
