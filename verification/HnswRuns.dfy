/**
 What other goroutines do to an HNSW index between two locked sections of one. A drain
 takes the buffer under one lock and inserts the batch under another; in between the batch
 is in flight: neither buffered nor in the graph. Several drains may be under way at once.
 */
module HnswRuns {
  import opened Common
  import opened HnswGraph
  import opened Hnsw
  import opened HnswSmall
  import opened Visited

  /** The live contents, the buffer, and the batches of the drains under way. */
  datatype World = World(live: map<nat, Vec>, dirty: seq<Pending>, flight: seq<seq<Pending>>)

  /** The locked sections of inserts, deletes and drains; `which` names the drain under way. */
  datatype Action =
    | DoInsert(id: nat, vector: Vec)
    | DoDelete(id: nat)
    | DoTake
    | DoApply(which: nat, levels: nat -> nat)

  ghost function Next(dim: nat, w: World, a: Action): World {
    match a
    case DoInsert(id, vector) => if |vector| == dim then w.(dirty := w.dirty + [Pending(id, vector)]) else w
    case DoDelete(id) => w.(live := w.live - {id})
    case DoTake => if w.dirty == [] then w else w.(dirty := [], flight := w.flight + [w.dirty])
    case DoApply(i, _) =>
      if i < |w.flight| then w.(live := ApplyAll(w.live, w.flight[i]), flight := Without(w.flight, i)) else w
  }

  ghost function After(dim: nat, w: World, actions: seq<Action>): World {
    if actions == [] then w else Next(dim, After(dim, w, actions[..|actions| - 1]), actions[|actions| - 1])
  }

  function Without<T>(s: seq<T>, i: nat): seq<T>
    requires i < |s|
  {
    s[..i] + s[i + 1..]
  }

  ghost predicate FlightOk(flight: seq<seq<Pending>>, dim: nat) {
    forall b, p :: b in flight && p in b ==> |p.vector| == dim
  }

  ghost function WorldOf(h: HNSWIndex, flight: seq<seq<Pending>>): World
    requires h.VectorsOk() && h.IdsOk()
    reads h
  {
    World(h.Live(), h.dirty, flight)
  }

  /** Runs the locked sections of others, in any order. */
  method Interleave(h: HNSWIndex, flight0: seq<seq<Pending>>, actions: seq<Action>, vt: VisitedTracker)
    returns (flight: seq<seq<Pending>>)
    requires h.Valid() && vt.Valid() && FlightOk(flight0, h.dim)
    modifies h, vt
    ensures h.Valid() && vt.Valid() && FlightOk(flight, h.dim)
    ensures WorldOf(h, flight) == After(h.dim, old(WorldOf(h, flight0)), actions)
    ensures |old(h.nodes)| <= |h.nodes|
    ensures old(Coherent(h.Graph())) && |h.nodes| <= 2 * h.m + 1 ==> Coherent(h.Graph())
  {
    hide Coherent, HNSWIndex.Graph;
    hide HNSWIndex.IdsOk, HNSWIndex.VectorsOk, HNSWIndex.Live, HNSWIndex.EntryOk, GraphOk, ApplyAll, FlightOk;
    flight := flight0;
    for t := 0 to |actions|
      invariant h.Valid() && vt.Valid() && FlightOk(flight, h.dim)
      invariant WorldOf(h, flight) == After(h.dim, old(WorldOf(h, flight0)), actions[..t])
      invariant |old(h.nodes)| <= |h.nodes|
      invariant old(Coherent(h.Graph())) && |h.nodes| <= 2 * h.m + 1 ==> Coherent(h.Graph())
    {
      assert actions[..t + 1][..t] == actions[..t];
      flight := Perform(h, flight, actions[t], vt);
    }
    assert actions[..|actions|] == actions;
  }

  method Perform(h: HNSWIndex, flight0: seq<seq<Pending>>, a: Action, vt: VisitedTracker)
    returns (flight: seq<seq<Pending>>)
    requires h.Valid() && vt.Valid() && FlightOk(flight0, h.dim)
    modifies h, vt
    ensures h.Valid() && vt.Valid() && FlightOk(flight, h.dim)
    ensures WorldOf(h, flight) == Next(h.dim, old(WorldOf(h, flight0)), a)
    ensures |old(h.nodes)| <= |h.nodes|
    ensures old(Coherent(h.Graph())) && |h.nodes| <= 2 * h.m + 1 ==> Coherent(h.Graph())
  {
    hide Coherent;
    hide HNSWIndex.IdsOk, HNSWIndex.VectorsOk, HNSWIndex.Live, HNSWIndex.EntryOk, GraphOk, ApplyAll;
    flight := flight0;
    match a
    case DoInsert(id, vector) => var _ := h.Insert(id, vector);
    case DoDelete(id) => var _ := h.Delete(id);
    case DoTake =>
      var batch := h.TakeBatch();
      if batch != [] {
        flight := flight + [batch];
      }
    case DoApply(i, levels) =>
      if i < |flight| {
        ghost var live := h.Live();
        var _, history := h.ApplyBatch(flight[i], levels, vt);
        BatchGrows(h.distFn, history, h.deleted, live, flight[i], levels, h.efConstruction, h.m, |flight[i]|);
        if Coherent(history[0]) && |h.nodes| <= 2 * h.m + 1 {
          BatchKeepsCoherent(h.distFn, history, h.deleted, live, flight[i], levels, h.efConstruction, h.m, |flight[i]|);
        }
        flight := Without(flight, i);
      }
  }

  // ---------------------------------------------------------------- applying batches

  ghost function BatchIds(b: seq<Pending>): set<nat> {
    set p | p in b :: p.id
  }

  /** What a batch alone would insert. */
  ghost function Firsts(b: seq<Pending>): map<nat, Vec> {
    ApplyAll(map[], b)
  }

  /** Live ids keep their vectors, the others get the first one of the batch. */
  lemma {:induction false} ApplyAllIs(live: map<nat, Vec>, b: seq<Pending>)
    ensures ApplyAll(live, b) == Firsts(b) + live
    ensures Firsts(b).Keys == BatchIds(b)
  {
    if b != [] {
      var n := |b| - 1;
      ApplyAllIs(live, b[..n]);
      OneMoreId(b[..n], b[n]);
      assert b == b[..n] + [b[n]];
      hide BatchIds;
      InsertedUnder(Firsts(b[..n]), live, b[n]);
    }
  }

  lemma {:induction false} InsertedUnder(f: map<nat, Vec>, live: map<nat, Vec>, p: Pending)
    ensures p.id !in live ==> (f + live)[p.id := p.vector] == f[p.id := p.vector] + live
    ensures p.id in live ==> f[p.id := p.vector] + live == f + live
  {
  }

  lemma {:induction false} OneMoreId(b: seq<Pending>, p: Pending)
    ensures BatchIds(b + [p]) == BatchIds(b) + {p.id}
  {
    assert forall x :: x in b + [p] <==> x in b || x == p;
  }

  lemma {:induction false} ApplyAllAppend(live: map<nat, Vec>, a: seq<Pending>, b: seq<Pending>)
    ensures ApplyAll(ApplyAll(live, a), b) == ApplyAll(live, a + b)
  {
    if b == [] {
      assert a + b == a;
    } else {
      var n := |b| - 1;
      ApplyAllAppend(live, a, b[..n]);
      assert (a + b)[..|a + b| - 1] == a + b[..n];
    }
  }

  /** Two batches can be applied in either order exactly when they agree on the ids they share. */
  lemma {:induction false} OrderMattersExactly(a: seq<Pending>, b: seq<Pending>)
    ensures (forall live :: ApplyAll(ApplyAll(live, a), b) == ApplyAll(ApplyAll(live, b), a)) <==>
            Agree(Firsts(a), Firsts(b))
  {
    ApplyAllIs(map[], a);
    ApplyAllIs(map[], b);
    hide ApplyAll, Firsts, BatchIds;
    forall live
      ensures Agree(Firsts(a), Firsts(b)) ==> ApplyAll(ApplyAll(live, a), b) == ApplyAll(ApplyAll(live, b), a)
    {
      BothOrders(live, a, b);
      UnionsAgree(Firsts(a), Firsts(b), live);
    }
    BothOrders(map[], a, b);
    UnionsAgree(Firsts(a), Firsts(b), map[]);
  }

  ghost predicate Agree(f: map<nat, Vec>, g: map<nat, Vec>) {
    forall id :: id in f && id in g ==> f[id] == g[id]
  }

  lemma {:induction false} UnionsAgree(f: map<nat, Vec>, g: map<nat, Vec>, m: map<nat, Vec>)
    ensures Agree(f, g) ==> g + (f + m) == f + (g + m)
    ensures m == map[] && g + (f + m) == f + (g + m) ==> Agree(f, g)
  {
    if m == map[] && g + (f + m) == f + (g + m) {
      forall id | id in f && id in g ensures f[id] == g[id] {
        assert (g + (f + m))[id] == f[id];
      }
    }
  }

  lemma {:induction false} BothOrders(live: map<nat, Vec>, a: seq<Pending>, b: seq<Pending>)
    ensures ApplyAll(ApplyAll(live, a), b) == Firsts(b) + (Firsts(a) + live)
    ensures ApplyAll(ApplyAll(live, b), a) == Firsts(a) + (Firsts(b) + live)
  {
    ApplyAllIs(live, a);
    ApplyAllIs(live, b);
    ApplyAllIs(ApplyAll(live, a), b);
    ApplyAllIs(ApplyAll(live, b), a);
  }

  // ---------------------------------------------------------------- where an id is

  ghost predicate NoDelete(actions: seq<Action>, id: nat) {
    forall i :: 0 <= i < |actions| ==> actions[i] != DoDelete(id)
  }

  /** Action n inserts a batch that holds the id. */
  ghost predicate AppliesAt(dim: nat, w: World, actions: seq<Action>, n: nat, id: nat)
    requires n < |actions|
  {
    var flight := After(dim, w, actions[..n]).flight;
    actions[n].DoApply? && actions[n].which < |flight| && id in BatchIds(flight[actions[n].which])
  }

  /** The id was live and stayed so, or some batch that holds it was inserted and it was not deleted since. */
  ghost predicate StaysOrArrives(dim: nat, w: World, actions: seq<Action>, id: nat) {
    || (id in w.live && NoDelete(actions, id))
    || exists n :: 0 <= n < |actions| && AppliesAt(dim, w, actions, n, id) && NoDelete(actions[n + 1..], id)
  }

  lemma {:induction false} LiveExactly(dim: nat, w: World, actions: seq<Action>, id: nat)
    ensures id in After(dim, w, actions).live <==> StaysOrArrives(dim, w, actions, id)
  {
    if actions != [] {
      var n := |actions| - 1;
      LiveExactly(dim, w, actions[..n], id);
      LiveStep(dim, After(dim, w, actions[..n]), actions[n], id);
      OneMoreAction(dim, w, actions, id);
    }
  }

  lemma {:induction false} LiveStep(dim: nat, w: World, a: Action, id: nat)
    ensures id in Next(dim, w, a).live <==>
              || (a.DoApply? && a.which < |w.flight| && id in BatchIds(w.flight[a.which]))
              || (id in w.live && a != DoDelete(id))
  {
    if a.DoApply? && a.which < |w.flight| {
      ApplyAllIs(w.live, w.flight[a.which]);
    }
  }

  lemma {:induction false} OneMoreAction(dim: nat, w: World, actions: seq<Action>, id: nat)
    requires actions != []
    ensures var n := |actions| - 1;
            StaysOrArrives(dim, w, actions, id) <==>
              || AppliesAt(dim, w, actions, n, id)
              || (StaysOrArrives(dim, w, actions[..n], id) && actions[n] != DoDelete(id))
  {
    var n := |actions| - 1;
    var before := actions[..n];
    hide After;
    forall i | 0 <= i < n
      ensures AppliesAt(dim, w, actions, i, id) <==> AppliesAt(dim, w, before, i, id)
      ensures NoDelete(actions[i + 1..], id) <==> NoDelete(before[i + 1..], id) && actions[n] != DoDelete(id)
    {
      assert before[..i] == actions[..i];
      assert actions[i + 1..] == before[i + 1..] + [actions[n]];
      NoDeleteAppend(before[i + 1..], actions[n], id);
    }
    assert actions == before + [actions[n]];
    NoDeleteAppend(before, actions[n], id);
    hide AppliesAt;
    if AppliesAt(dim, w, actions, n, id) {
      assert NoDelete(actions[n + 1..], id);
    }
  }

  lemma {:induction false} NoDeleteAppend(s: seq<Action>, a: Action, id: nat)
    ensures NoDelete(s + [a], id) <==> NoDelete(s, id) && a != DoDelete(id)
  {
    assert (s + [a])[|s|] == a;
    forall i | 0 <= i < |s| ensures (s + [a])[i] == s[i] {}
  }

  // ---------------------------------------------------------------- what a query sees

  ghost function FlightIds(flight: seq<seq<Pending>>): set<nat> {
    set b, p | b in flight && p in b :: p.id
  }

  /** Every id that was inserted and is live, buffered or in flight. */
  ghost function Present(w: World): set<nat> {
    w.live.Keys + BatchIds(w.dirty) + FlightIds(w.flight)
  }

  /** What a query can answer with: the buffer as it copied it, and the graph as it finds it later. */
  ghost function Seen(dim: nat, w: World, actions: seq<Action>): set<nat> {
    BatchIds(w.dirty) + After(dim, w, actions).live.Keys
  }

  /** An id no one deletes is missed exactly if it was only in flight and no batch that holds it arrived. */
  lemma {:induction false} MissedExactly(dim: nat, w: World, actions: seq<Action>, id: nat)
    requires id in Present(w) && NoDelete(actions, id)
    ensures id !in Seen(dim, w, actions) <==>
              && id in FlightIds(w.flight) && id !in w.live && id !in BatchIds(w.dirty)
              && forall n :: 0 <= n < |actions| ==> !AppliesAt(dim, w, actions, n, id)
  {
    LiveExactly(dim, w, actions, id);
    forall n | 0 <= n < |actions| && AppliesAt(dim, w, actions, n, id) ensures NoDelete(actions[n + 1..], id) {}
  }

  /** Nothing is missed whatever happens in between if and only if nothing is only in flight. */
  lemma {:induction false} NothingMissedExactly(dim: nat, w: World)
    ensures (forall actions, id :: id in Present(w) && NoDelete(actions, id) ==> id in Seen(dim, w, actions)) <==>
            FlightIds(w.flight) <= w.live.Keys + BatchIds(w.dirty)
  {
    hide Present, Seen;
    if FlightIds(w.flight) <= w.live.Keys + BatchIds(w.dirty) {
      forall actions, id | id in Present(w) && NoDelete(actions, id) ensures id in Seen(dim, w, actions) {
        MissedExactly(dim, w, actions, id);
      }
    } else {
      var id :| id in FlightIds(w.flight) && id !in w.live.Keys + BatchIds(w.dirty);
      assert NoDelete([], id);
      InFlightIsPresent(w, id);
      MissedExactly(dim, w, [], id);
    }
  }

  lemma {:induction false} InFlightIsPresent(w: World, id: nat)
    ensures id in FlightIds(w.flight) ==> id in Present(w)
  {
  }

  /** Ids are not lost: without deletes every present id stays present. */
  lemma {:induction false} PresentStays(dim: nat, w: World, actions: seq<Action>, id: nat)
    requires id in Present(w) && NoDelete(actions, id)
    ensures id in Present(After(dim, w, actions))
  {
    if actions != [] {
      var n := |actions| - 1;
      assert actions == actions[..n] + [actions[n]];
      NoDeleteAppend(actions[..n], actions[n], id);
      PresentStays(dim, w, actions[..n], id);
      StepKeepsPresent(dim, After(dim, w, actions[..n]), actions[n], id);
    }
  }

  lemma {:induction false} StepKeepsPresent(dim: nat, w: World, a: Action, id: nat)
    requires id in Present(w) && a != DoDelete(id)
    ensures id in Present(Next(dim, w, a))
  {
    LiveStep(dim, w, a, id);
    hide ApplyAll;
    var w' := Next(dim, w, a);
    if id in BatchIds(w.dirty) {
      var p :| p in w.dirty && p.id == id;
      assert p in w'.dirty || w.dirty in w'.flight;
    } else if id in FlightIds(w.flight) {
      var b, p :| b in w.flight && p in b && p.id == id;
      if a.DoApply? && a.which < |w.flight| {
        WithoutMembers(w.flight, a.which, b);
      }
      assert b in w'.flight || id in w'.live;
    }
  }

  lemma {:induction false} WithoutMembers<T>(s: seq<T>, i: nat, x: T)
    requires i < |s| && x in s
    ensures x in Without(s, i) || x == s[i]
  {
    var j :| 0 <= j < |s| && s[j] == x;
    if j < i {
      assert Without(s, i)[j] == x;
    } else if j > i {
      assert Without(s, i)[j - 1] == x;
    }
  }

  // ---------------------------------------------------------------- ids that are buffered and live

  /** No id is in the list twice, and none is live. */
  ghost predicate IsNew(copied: seq<Pending>, live: map<nat, Vec>) {
    && (forall i, j :: 0 <= i < j < |copied| ==> copied[i].id != copied[j].id)
    && forall i :: 0 <= i < |copied| ==> copied[i].id !in live
  }

  /**
   A buffer that was new when it was copied is new to the graph found later exactly if no
   batch with one of its ids arrived in between and stayed.
   */
  lemma {:induction false} StillNewExactly(dim: nat, w: World, actions: seq<Action>)
    requires IsNew(w.dirty, w.live)
    ensures IsNew(w.dirty, After(dim, w, actions).live) <==>
            forall i, n :: 0 <= i < |w.dirty| && 0 <= n < |actions| && AppliesAt(dim, w, actions, n, w.dirty[i].id) ==>
              !NoDelete(actions[n + 1..], w.dirty[i].id)
  {
    hide After, AppliesAt, NoDelete;
    forall i | 0 <= i < |w.dirty|
      ensures w.dirty[i].id in After(dim, w, actions).live <==> StaysOrArrives(dim, w, actions, w.dirty[i].id)
    {
      LiveExactly(dim, w, actions, w.dirty[i].id);
    }
  }

  /** One whole drain in between makes every copied id live, so a buffer with any entry is not new any more. */
  lemma {:induction false} DrainInBetween(dim: nat, w: World, levels: nat -> nat)
    ensures var w' := After(dim, w, [DoTake, DoApply(|w.flight|, levels)]);
            w' == World(ApplyAll(w.live, w.dirty), [], w.flight) && (IsNew(w.dirty, w'.live) <==> w.dirty == [])
  {
    ApplyAllIs(w.live, w.dirty);
    ApplyNothing(w.live);
    hide ApplyAll;
    var actions := [DoTake, DoApply(|w.flight|, levels)];
    var taken := Next(dim, w, DoTake);
    TwoActions(dim, w, actions);
    if w.dirty != [] {
      assert Without(taken.flight, |w.flight|) == w.flight;
      assert w.dirty[0] in w.dirty && w.dirty[0].id in BatchIds(w.dirty);
      assert w.dirty[0].id in ApplyAll(w.live, w.dirty);
    }
  }

  lemma {:induction false} TwoActions(dim: nat, w: World, actions: seq<Action>)
    requires |actions| == 2
    ensures After(dim, w, actions) == Next(dim, Next(dim, w, actions[0]), actions[1])
  {
    assert actions[..1][..0] == [];
    assert After(dim, w, actions[..1][..0]) == w;
    assert After(dim, w, actions[..1]) == Next(dim, w, actions[0]);
  }

  /** A delete does not look at the buffer: after the next drain the id is live if and only if it was buffered. */
  lemma {:induction false} DeletedComesBack(dim: nat, w: World, id: nat, levels: nat -> nat)
    ensures var w' := After(dim, w, [DoDelete(id), DoTake, DoApply(|w.flight|, levels)]);
            id in w'.live <==> id in BatchIds(w.dirty)
  {
    var actions := [DoDelete(id), DoTake, DoApply(|w.flight|, levels)];
    var deleted := w.(live := w.live - {id});
    var rest := [DoTake, DoApply(|w.flight|, levels)];
    AfterFirst(dim, w, actions);
    assert actions[1..] == rest;
    DrainInBetween(dim, deleted, levels);
    ApplyAllIs(deleted.live, w.dirty);
  }

  lemma {:induction false} AfterFirst(dim: nat, w: World, actions: seq<Action>)
    requires actions != []
    ensures After(dim, w, actions) == After(dim, Next(dim, w, actions[0]), actions[1..])
  {
    hide Next;
    var n := |actions| - 1;
    if n > 0 {
      AfterFirst(dim, w, actions[..n]);
      assert actions[..n][1..] == actions[1..][..n - 1];
    } else {
      assert actions[..0] == [] && actions[1..] == [];
    }
  }

  // ---------------------------------------------------------------- the order of drains

  ghost function Flat(flight: seq<seq<Pending>>): seq<Pending> {
    if flight == [] then [] else flight[0] + Flat(flight[1..])
  }

  /** The contents once the drains under way and one more are through, oldest first. */
  ghost function Settled(w: World): map<nat, Vec> {
    ApplyAll(w.live, Flat(w.flight) + w.dirty)
  }

  /** What a run inserts, in order. */
  ghost function Inserted(dim: nat, actions: seq<Action>): seq<Pending> {
    if actions == [] then []
    else
      var n := |actions| - 1;
      Inserted(dim, actions[..n]) +
      if actions[n].DoInsert? && |actions[n].vector| == dim then [Pending(actions[n].id, actions[n].vector)] else []
  }

  ghost predicate OldestFirst(actions: seq<Action>) {
    forall i :: 0 <= i < |actions| ==> !actions[i].DoDelete? && (actions[i].DoApply? ==> actions[i].which == 0)
  }

  /** While drains finish in the order they began, the first insert of an id wins, wherever its batch is. */
  lemma {:induction false} FirstInsertWins(dim: nat, w: World, actions: seq<Action>)
    requires OldestFirst(actions)
    ensures Settled(After(dim, w, actions)) == ApplyAll(Settled(w), Inserted(dim, actions))
  {
    if actions != [] {
      var n := |actions| - 1;
      FirstInsertWins(dim, w, actions[..n]);
      var before := After(dim, w, actions[..n]);
      hide After, ApplyAll;
      SettledStep(dim, before, actions[n]);
      ApplyAllAppend(Settled(w), Inserted(dim, actions[..n]), Inserted(dim, actions)[|Inserted(dim, actions[..n])|..]);
      ApplyNothing(Settled(w));
    }
  }

  lemma {:induction false} ApplyNothing(live: map<nat, Vec>)
    ensures ApplyAll(live, []) == live
  {
  }

  lemma {:induction false} SettledStep(dim: nat, w: World, a: Action)
    requires !a.DoDelete? && (a.DoApply? ==> a.which == 0)
    ensures Settled(Next(dim, w, a)) ==
              if a.DoInsert? && |a.vector| == dim then ApplyAll(Settled(w), [Pending(a.id, a.vector)]) else Settled(w)
  {
    var w' := Next(dim, w, a);
    match a
    case DoInsert(id, vector) =>
      if |vector| == dim {
        ApplyAllAppend(w.live, Flat(w.flight) + w.dirty, [Pending(id, vector)]);
        assert Flat(w.flight) + w.dirty + [Pending(id, vector)] == Flat(w.flight) + (w.dirty + [Pending(id, vector)]);
      }
    case DoTake =>
      FlatAppend(w.flight, w.dirty);
      assert Flat(w.flight) + w.dirty + [] == Flat(w.flight) + w.dirty;
    case DoApply(_, _) =>
      if w.flight != [] {
        assert Without(w.flight, 0) == w.flight[1..];
        ApplyAllAppend(w.live, w.flight[0], Flat(w.flight[1..]) + w.dirty);
        assert w.flight[0] + (Flat(w.flight[1..]) + w.dirty) == Flat(w.flight) + w.dirty;
      }
  }

  lemma {:induction false} FlatAppend(flight: seq<seq<Pending>>, b: seq<Pending>)
    ensures Flat(flight + [b]) == Flat(flight) + b
  {
    if flight == [] {
      assert [b][1..] == [];
    } else {
      FlatAppend(flight[1..], b);
      assert (flight + [b])[1..] == flight[1..] + [b];
    }
  }
}
