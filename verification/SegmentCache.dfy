/** The LRU segment cache that admits a key on its second Put. Both lists run from most to least recent. */
module SegmentCache {
  import opened Common

  type Bytes = seq<bv8>

  const MAX_SEEN_KEYS: nat := 100000

  // ---------------------------------------------------------------- recency lists

  /** The list with a key taken out. */
  function Without(s: seq<string>, key: string): seq<string> {
    if s == [] then [] else if s[0] == key then Without(s[1..], key) else [s[0]] + Without(s[1..], key)
  }

  lemma {:induction false} WithoutIs(s: seq<string>, key: string)
    ensures forall x :: x in Without(s, key) <==> x in s && x != key
    ensures NoRepeats(s) ==> NoRepeats(Without(s, key))
    ensures |Without(s, key)| <= |s| && (key in s ==> |Without(s, key)| < |s|)
  {
    if s != [] {
      WithoutIs(s[1..], key);
      assert s == [s[0]] + s[1..];
      if NoRepeats(s) {
        assert NoRepeats(s[1..]);
        assert s[0] !in s[1..];
      }
    }
  }

  /** Bytes held by the keys of a list. */
  ghost function Sum(entries: map<string, Bytes>, s: seq<string>): nat
    requires forall x :: x in s ==> x in entries
  {
    if s == [] then 0 else |entries[s[0]]| + Sum(entries, s[1..])
  }

  lemma {:induction false} SumLast(entries: map<string, Bytes>, s: seq<string>)
    requires s != [] && forall x :: x in s ==> x in entries
    ensures Sum(entries, s) == Sum(entries, s[..|s| - 1]) + |entries[s[|s| - 1]]|
  {
    if |s| > 1 {
      SumLast(entries, s[1..]);
      assert s[1..][..|s| - 2] == s[..|s| - 1][1..];
    }
  }

  lemma {:induction false} SumFrame(a: map<string, Bytes>, b: map<string, Bytes>, s: seq<string>)
    requires forall x :: x in s ==> x in a && x in b && a[x] == b[x]
    ensures Sum(a, s) == Sum(b, s)
  {
    if s != [] {
      SumFrame(a, b, s[1..]);
    }
  }

  lemma {:induction false} SumWithout(entries: map<string, Bytes>, s: seq<string>, key: string)
    requires NoRepeats(s) && key in s && forall x :: x in s ==> x in entries
    ensures (forall x :: x in Without(s, key) ==> x in entries)
    ensures Sum(entries, Without(s, key)) == Sum(entries, s) - |entries[key]|
  {
    WithoutIs(s, key);
    if s[0] == key {
      assert key !in s[1..];
      Untouched(s[1..], key);
    } else {
      assert s == [s[0]] + s[1..];
      SumWithout(entries, s[1..], key);
      WithoutIs(s[1..], key);
      assert ([s[0]] + Without(s[1..], key))[1..] == Without(s[1..], key);
    }
  }

  lemma {:induction false} Untouched(s: seq<string>, key: string)
    requires key !in s
    ensures Without(s, key) == s
  {
    if s != [] {
      Untouched(s[1..], key);
    }
  }

  /** Taking a key out closes the gap and leaves the order of the others alone. */
  lemma {:induction false} WithoutKeepsOrder(front: seq<string>, key: string, back: seq<string>)
    requires key !in front && key !in back
    ensures Without(front + [key] + back, key) == front + back
  {
    if front == [] {
      assert ([key] + back)[1..] == back;
      assert front + [key] + back == [key] + back;
      Untouched(back, key);
    } else {
      assert (front + [key] + back)[1..] == front[1..] + [key] + back;
      WithoutKeepsOrder(front[1..], key, back);
    }
  }

  ghost predicate Submap(a: map<string, Bytes>, b: map<string, Bytes>) {
    forall x :: x in a ==> x in b && a[x] == b[x]
  }

  lemma {:induction false} SubmapOfAll(a: map<string, Bytes>)
    ensures Submap(a, a)
  {
  }

  lemma {:induction false} SubmapMinus(a: map<string, Bytes>, b: map<string, Bytes>, key: string)
    requires Submap(a, b)
    ensures Submap(a - {key}, b)
  {
  }

  /** Keeping more than the k most recent entries leaves no room for size more bytes. */
  ghost predicate NoRoomBeyond(entries: map<string, Bytes>, lru: seq<string>, k: nat, size: nat, max: int) {
    && (forall x :: x in lru ==> x in entries)
    && forall n :: k < n <= |lru| ==> Sum(entries, lru[..n]) + size > max
  }

  /** Entries and recency list are in bijection and bytes is their exact size. */
  ghost predicate Ledger(entries: map<string, Bytes>, lru: seq<string>, bytes: int) {
    NoRepeats(lru) && (forall x :: x in lru <==> x in entries) && bytes == Sum(entries, lru)
  }

  lemma {:induction false} LedgerRemoved(entries: map<string, Bytes>, lru: seq<string>, bytes: int, key: string)
    requires Ledger(entries, lru, bytes) && key in entries
    ensures Ledger(entries - {key}, Without(lru, key), bytes - |entries[key]|)
  {
    WithoutIs(lru, key);
    SumWithout(entries, lru, key);
    SumFrame(entries, entries - {key}, Without(lru, key));
  }

  lemma {:induction false} LedgerPushed(entries: map<string, Bytes>, lru: seq<string>, bytes: int, key: string,
                                        value: Bytes)
    requires Ledger(entries, lru, bytes) && key !in entries
    ensures Ledger(entries[key := value], [key] + lru, bytes + |value|)
  {
    SumFrame(entries, entries[key := value], lru);
    assert ([key] + lru)[1..] == lru;
  }

  lemma {:induction false} LedgerReplaced(entries: map<string, Bytes>, lru: seq<string>, bytes: int, key: string,
                                          value: Bytes)
    requires Ledger(entries, lru, bytes) && key in entries
    ensures Ledger(entries[key := value], [key] + Without(lru, key), bytes - |entries[key]| + |value|)
  {
    hide Ledger;
    LedgerRemoved(entries, lru, bytes, key);
    LedgerPushed(entries - {key}, Without(lru, key), bytes - |entries[key]|, key, value);
    assert (entries - {key})[key := value] == entries[key := value];
  }

  lemma {:induction false} LedgerPopped(entries: map<string, Bytes>, lru: seq<string>, bytes: int)
    requires Ledger(entries, lru, bytes) && lru != []
    ensures lru[|lru| - 1] in entries
    ensures Ledger(entries - {lru[|lru| - 1]}, lru[..|lru| - 1], bytes - |entries[lru[|lru| - 1]]|)
  {
    var n := |lru| - 1;
    var key := lru[n];
    SumLast(entries, lru);
    assert forall x :: x in lru <==> x in lru[..n] || x == key by { assert lru == lru[..n] + [key]; }
    assert key !in lru[..n];
    SumFrame(entries, entries - {key}, lru[..n]);
  }

  lemma {:induction false} OneLess(entries: map<string, Bytes>, was: map<string, Bytes>, all: seq<string>, k: nat,
                                   bytes: int, size: nat, max: int)
    requires 0 < k <= |all| && Submap(entries, was) && NoRoomBeyond(was, all, k, size, max)
    requires Ledger(entries, all[..k], bytes) && bytes + size > max
    ensures NoRoomBeyond(was, all, k - 1, size, max)
  {
    SumFrame(entries, was, all[..k]);
  }

  lemma {:induction false} AllKept(entries: map<string, Bytes>, lru: seq<string>, bytes: int, size: nat, max: int)
    requires Ledger(entries, lru, bytes)
    ensures NoRoomBeyond(entries, lru, |lru|, size, max)
  {
  }

  lemma {:induction false} LedgerKeys(entries: map<string, Bytes>, lru: seq<string>, bytes: int, key: string)
    requires Ledger(entries, lru, bytes)
    ensures key in lru <==> key in entries
  {
  }

  // ---------------------------------------------------------------- the cache

  class SegmentCache {
    const maxBytes: int
    var entries: map<string, Bytes>
    var lru: seq<string>
    var currentBytes: int
    var seenFilter: set<string>
    var seenLRU: seq<string>
    /** The value of the latest Put of each key. */
    ghost var latest: map<string, Bytes>

    /** Entries and recency list are in bijection and the byte counter is their exact size. */
    ghost predicate CacheOk()
      reads this
    {
      && Ledger(entries, lru, currentBytes)
      && forall x :: x in entries ==> x in latest && entries[x] == latest[x]
    }

    ghost predicate SeenOk()
      reads this
    {
      && NoRepeats(seenLRU) && (forall x :: x in seenLRU <==> x in seenFilter)
      && |seenLRU| <= MAX_SEEN_KEYS
      && forall x :: x in seenFilter ==> x !in entries
    }

    ghost predicate Valid()
      reads this
    {
      CacheOk() && SeenOk()
    }

    ghost predicate Bounded()
      reads this
    {
      currentBytes <= maxBytes
    }

    constructor (maxBytes: int)
      ensures Valid() && this.maxBytes == maxBytes && entries == map[] && latest == map[] && seenFilter == {}
    {
      this.maxBytes := maxBytes;
      entries, lru, currentBytes, seenFilter, seenLRU, latest := map[], [], 0, {}, [], map[];
    }

    /** A hit is the value of the latest Put and becomes the most recent. */
    method Get(key: string) returns (found: bool, value: Bytes)
      requires Valid()
      modifies this`lru
      ensures Valid()
      ensures found <==> key in entries
      ensures found ==> key in latest && value == latest[key] && lru == [key] + Without(old(lru), key)
      ensures !found ==> lru == old(lru)
    {
      found, value := key in entries, [];
      if found {
        value := entries[key];
        MoveToFront(key);
      }
    }

    method MoveToFront(key: string)
      requires Valid() && key in entries
      modifies this`lru
      ensures Valid() && lru == [key] + Without(old(lru), key)
    {
      hide Ledger;
      LedgerReplaced(entries, lru, currentBytes, key, entries[key]);
      assert entries[key := entries[key]] == entries;
      lru := [key] + Without(lru, key);
    }

    /** Drops the least recent entry. */
    method EvictLRU()
      requires CacheOk() && lru != []
      modifies this`lru, this`currentBytes, this`entries
      ensures CacheOk()
      ensures lru == old(lru)[..|old(lru)| - 1] && entries == old(entries) - {old(lru)[|old(lru)| - 1]}
      ensures currentBytes == old(currentBytes) - |old(entries)[old(lru)[|old(lru)| - 1]]|
    {
      hide Ledger;
      LedgerPopped(entries, lru, currentBytes);
      var n := |lru| - 1;
      var key := lru[n];
      lru := lru[..n];
      currentBytes := currentBytes - |entries[key]|;
      entries := entries - {key};
    }

    /** Keeps the longest run of most recent entries that leaves room, nothing if none does. */
    method MakeRoom(size: nat)
      requires CacheOk()
      modifies this`lru, this`currentBytes, this`entries
      ensures CacheOk()
      ensures |lru| <= |old(lru)| && lru == old(lru)[..|lru|]
      ensures Submap(entries, old(entries))
      ensures lru == [] || currentBytes + size <= maxBytes
      ensures NoRoomBeyond(old(entries), old(lru), |lru|, size, maxBytes)
    {
      hide NoRoomBeyond, Ledger, Submap;
      ghost var was, all := entries, lru;
      SubmapOfAll(was);
      assert all[..|all|] == all;
      AllKept(entries, lru, currentBytes, size, maxBytes);
      while currentBytes + size > maxBytes && |lru| > 0
        invariant CacheOk()
        invariant |lru| <= |all| && lru == all[..|lru|]
        invariant Submap(entries, was)
        invariant NoRoomBeyond(was, all, |lru|, size, maxBytes)
        decreases |lru|
      {
        ghost var k, before := |lru|, entries;
        OneLess(entries, was, all, k, currentBytes, size, maxBytes);
        EvictLRU();
        SubmapMinus(before, was, all[k - 1]);
        assert all[..k][..k - 1] == all[..k - 1];
      }
    }

    /** Remembers a key seen once, forgetting the oldest when the filter is full. */
    method Remember(key: string)
      requires SeenOk() && key !in seenFilter && key !in entries
      modifies this`seenFilter, this`seenLRU
      ensures SeenOk() && key in seenFilter
      ensures seenLRU == [key] +
              (if |old(seenLRU)| < MAX_SEEN_KEYS then old(seenLRU) else old(seenLRU)[..MAX_SEEN_KEYS - 1])
    {
      if |seenLRU| >= MAX_SEEN_KEYS {
        var n := |seenLRU| - 1;
        assert seenLRU == seenLRU[..n] + [seenLRU[n]];
        seenFilter := seenFilter - {seenLRU[n]};
        seenLRU := seenLRU[..n];
      }
      seenFilter := seenFilter + {key};
      seenLRU := [key] + seenLRU;
    }

    method Forget(key: string)
      requires SeenOk()
      modifies this`seenFilter, this`seenLRU
      ensures SeenOk() && seenFilter == old(seenFilter) - {key} && seenLRU == Without(old(seenLRU), key)
    {
      WithoutIs(seenLRU, key);
      Untouched'(seenLRU, key);
      if key in seenFilter {
        seenLRU := Without(seenLRU, key);
        seenFilter := seenFilter - {key};
      }
    }

    static lemma {:induction false} Untouched'(s: seq<string>, key: string)
      ensures key !in s ==> Without(s, key) == s
    {
      if key !in s { Untouched(s, key); }
    }

    /** Replaces the value of a cached key. */
    method Update(key: string, value: Bytes)
      requires Valid() && key in entries
      modifies this
      ensures Valid() && latest == old(latest)[key := value] && seenLRU == old(seenLRU) && seenFilter == old(seenFilter)
      ensures entries == old(entries)[key := value] && lru == [key] + Without(old(lru), key)
      ensures currentBytes == old(currentBytes) - |old(entries[key])| + |value|
    {
      hide Ledger;
      LedgerReplaced(entries, lru, currentBytes, key, value);
      currentBytes := currentBytes - |entries[key]|;
      entries := entries[key := value];
      currentBytes := currentBytes + |value|;
      latest := latest[key := value];
      lru := [key] + Without(lru, key);
    }

    /** Adds an entry that fits at the front. */
    method Admit(key: string, value: Bytes)
      requires Valid() && key !in entries && key !in seenFilter
      modifies this
      ensures Valid() && latest == old(latest)[key := value] && seenLRU == old(seenLRU) && seenFilter == old(seenFilter)
      ensures entries == old(entries)[key := value] && lru == [key] + old(lru)
      ensures currentBytes == old(currentBytes) + |value|
    {
      hide Ledger;
      LedgerPushed(entries, lru, currentBytes, key, value);
      entries := entries[key := value];
      latest := latest[key := value];
      lru := [key] + lru;
      currentBytes := currentBytes + |value|;
    }

    /**
     A cached key is updated in place; an unseen one is only remembered; a seen one is
     admitted over the entries that still leave room, unless it alone is too large.
     */
    method Put(key: string, value: Bytes) returns (admitted: bool, ghost kept: nat)
      requires Valid()
      modifies this
      ensures Valid() && latest == old(latest)[key := value]
      ensures admitted <==> old(key in entries || (key in seenFilter && |value| <= maxBytes))
      ensures admitted <==> key in entries
      ensures old(key in entries) ==>
                entries == old(entries)[key := value] && lru == [key] + Without(old(lru), key) &&
                  seenLRU == old(seenLRU)
                && currentBytes == old(currentBytes) - old(|entries[key]|) + |value|
      ensures old(key !in entries && key !in seenFilter) ==>
                && entries == old(entries) && lru == old(lru)
                && seenLRU == [key] + old(seenLRU)[..(if |old(seenLRU)| < 100_000 then |old(seenLRU)| else 99_999)]
      ensures old(key !in entries && key in seenFilter) ==>
                && kept <= |old(lru)| && lru == (if admitted then [key] else []) + old(lru)[..kept]
                && NoRoomBeyond(old(entries), old(lru), kept, |value|, maxBytes)
                && seenLRU == Without(old(seenLRU), key)
      ensures old(Bounded()) && maxBytes >= 0 ==>
                (Bounded() <==> !(old(key in entries) && old(currentBytes) - old(|entries[key]|) + |value| > maxBytes))
      ensures old(Bounded()) && maxBytes >= 0 && old(key in entries ==> |value| <= |entries[key]|) ==> Bounded()
    {
      hide Ledger, NoRepeats, NoRoomBeyond;
      kept := 0;
      if key in entries {
        Update(key, value);
        return true, kept;
      }
      if key !in seenFilter {
        Remember(key);
        assert old(seenLRU)[..|old(seenLRU)|] == old(seenLRU);
        latest := latest[key := value];
        return false, kept;
      }
      Forget(key);
      MakeRoom(|value|);
      kept := |lru|;
      NothingLeft();
      if |value| > maxBytes {
        latest := latest[key := value];
        return false, kept;
      }
      Admit(key, value);
      admitted := true;
    }

    lemma {:induction false} NothingLeft()
      requires CacheOk()
      ensures lru == [] ==> currentBytes == 0
      ensures currentBytes >= 0
    {
    }

    method Remove(key: string)
      requires Valid()
      modifies this
      ensures Valid() && latest == old(latest)
      ensures entries == old(entries) - {key} && lru == Without(old(lru), key)
      ensures seenFilter == old(seenFilter) - {key} && seenLRU == Without(old(seenLRU), key)
      ensures currentBytes <= old(currentBytes)
    {
      hide Ledger;
      LedgerKeys(entries, lru, currentBytes, key);
      Untouched'(lru, key);
      if key in entries {
        LedgerRemoved(entries, lru, currentBytes, key);
        lru := Without(lru, key);
        currentBytes := currentBytes - |entries[key]|;
        entries := entries - {key};
      }
      Forget(key);
    }

    method Clear()
      requires Valid()
      modifies this
      ensures Valid() && latest == old(latest) && entries == map[] && seenFilter == {} && currentBytes == 0
    {
      entries, lru, currentBytes, seenFilter, seenLRU := map[], [], 0, {}, [];
    }
  }
}
