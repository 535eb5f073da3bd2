/**
 What the cache may forget: over any history of reads, stores and
 invalidations at non-decreasing times, an entry that was stored and neither
 invalidated nor found expired is missing only when at least `size` other keys
 were stored at its time or later. With distinct store times the cache is a
 queue of stores.
 */
module ResolverHistory {
  import opened Prelude
  import opened ResolverCache

  datatype Event = Get(k: Key) | Store(k: Key, t: Tenant) | Invalidate(pk: string)

  /** An event and its monotonic time. */
  datatype Timed = Timed(event: Event, at: int)

  function Next(es: seq<Entry>, e: Timed, size: nat, ttl: int): seq<Entry> {
    match e.event
    case Get(k) => AfterGet(es, k, e.at, ttl)
    case Store(k, t) => AfterSet(es, Entry(k, t, e.at), size)
    case Invalidate(pk) => AfterInvalidate(es, pk)
  }

  function Run(es: seq<Entry>, h: seq<Timed>, size: nat, ttl: int): seq<Entry>
    decreases |h|
  {
    if h == [] then es else Next(Run(es, h[..|h| - 1], size, ttl), h[|h| - 1], size, ttl)
  }

  ghost predicate Monotonic(h: seq<Timed>) {
    forall i, j :: 0 <= i < j < |h| ==> h[i].at <= h[j].at
  }

  // ---- What the history says, without the cache ----

  /** The last store of each key, unless the tenant was invalidated or a read found it expired since. */
  function Live(h: seq<Timed>, ttl: int): map<Key, Entry>
    decreases |h|
  {
    if h == [] then map[]
    else
      var live := Live(h[..|h| - 1], ttl);
      var e := h[|h| - 1];
      match e.event
      case Get(k) => if k in live && Expired(live[k], e.at, ttl) then live - {k} else live
      case Store(k, t) => live[k := Entry(k, t, e.at)]
      case Invalidate(pk) => map k | k in live && live[k].tenant.pk != pk :: live[k]
  }

  /** When each key was last stored, whatever happened to it since. */
  function StoredAt(h: seq<Timed>): map<Key, int>
    decreases |h|
  {
    if h == [] then map[]
    else
      var e := h[|h| - 1];
      if e.event.Store? then StoredAt(h[..|h| - 1])[e.event.k := e.at] else StoredAt(h[..|h| - 1])
  }

  /** The other keys stored at time `ts` or later. */
  function LaterKeys(stored: map<Key, int>, k: Key, ts: int): set<Key> {
    set k' | k' in stored && k' != k && stored[k'] >= ts
  }

  ghost predicate Inv(es: seq<Entry>, live: map<Key, Entry>, stored: map<Key, int>, now: int, size: nat) {
    && Distinct(es) && |es| <= size
    && (forall e :: e in es ==> e.key in live && live[e.key] == e)
    && (forall k :: k in live ==> live[k].key == k && k in stored && stored[k] == live[k].ts)
    && (forall k :: k in stored ==> stored[k] <= now)
    && (forall k :: k in live && live[k] !in es ==> |LaterKeys(stored, k, live[k].ts)| >= size)
  }

  lemma {:induction false} KeysOf(es: seq<Entry>) returns (ks: set<Key>)
    requires Distinct(es)
    ensures |ks| == |es| && forall k :: k in ks <==> exists e :: e in es && e.key == k
  {
    if es == [] {
      ks := {};
    } else {
      var rest := KeysOf(es[1..]);
      forall e | e in es[1..] ensures e.key != es[0].key {
        var i :| 0 <= i < |es[1..]| && es[1..][i] == e;
        assert es[i + 1] == e;
      }
      ks := rest + {es[0].key};
      assert forall e :: e in es <==> e == es[0] || e in es[1..];
    }
  }

  lemma Subset<T>(a: set<T>, b: set<T>)
    requires a <= b
    ensures |a| <= |b|
  {
    var rest := b - a;
    assert b == a + rest;
  }

  /** An eviction leaves at least `size` keys stored no earlier than the evicted one. */
  lemma EvictedHasSuccessors(es: seq<Entry>, live: map<Key, Entry>, stored: map<Key, int>, now: int, at: int, k: Key,
                             size: nat)
    requires Inv(es, live, stored, now, size) && now <= at && |es| == size && es != []
    requires forall e :: e in es ==> e.key != k
    ensures |LaterKeys(stored[k := at], Oldest(es).key, Oldest(es).ts)| >= size
  {
    var o := Oldest(es);
    var ks := KeysOf(es);
    var successors := ks - {o.key} + {k};
    assert |successors| == size;
    forall k' | k' in successors ensures k' in LaterKeys(stored[k := at], o.key, o.ts) {
      if k' != k {
        var e :| e in es && e.key == k';
        assert live[e.key] == e;
      } else {
        assert live[o.key] == o && stored[o.key] == o.ts;
      }
    }
    Subset(successors, LaterKeys(stored[k := at], o.key, o.ts));
  }

  lemma LaterKeysGrow(stored: map<Key, int>, now: int, at: int, k: Key, k': Key, ts: int)
    requires forall q :: q in stored ==> stored[q] <= now
    requires now <= at && ts <= now && k' != k
    ensures |LaterKeys(stored, k', ts)| <= |LaterKeys(stored[k := at], k', ts)|
  {
    Subset(LaterKeys(stored, k', ts), LaterKeys(stored[k := at], k', ts));
  }

  lemma StoreKeepsInv(es: seq<Entry>, live: map<Key, Entry>, stored: map<Key, int>, now: int, size: nat, e: Entry)
    requires Inv(es, live, stored, now, size) && now <= e.ts && size >= 1
    ensures Inv(AfterSet(es, e, size), live[e.key := e], stored[e.key := e.ts], e.ts, size)
  {
    var es', live', stored' := AfterSet(es, e, size), live[e.key := e], stored[e.key := e.ts];
    SetIs(es, e, size);
    FindIs(es, e.key);
    forall k | k in live' && live'[k] !in es' ensures |LaterKeys(stored', k, live'[k].ts)| >= size {
      assert k != e.key;
      if live[k] in es {
        assert |es| == size && Find(es, e.key).None? && k == Oldest(es).key;
        SameKeySameEntry(es, live[k], Oldest(es));
        EvictedHasSuccessors(es, live, stored, now, e.ts, e.key, size);
      } else {
        LaterKeysGrow(stored, now, e.ts, e.key, k, live[k].ts);
      }
    }
  }

  lemma ForgetKeepsInv(es: seq<Entry>, live: map<Key, Entry>, stored: map<Key, int>, now: int, size: nat, k: Key,
                       at: int)
    requires Inv(es, live, stored, now, size) && now <= at
    ensures Inv(Filter(OtherKeys(k), es), live - {k}, stored, at, size)
  {
    FilterDistinct(OtherKeys(k), es);
  }

  lemma GetKeepsInv(es: seq<Entry>, live: map<Key, Entry>, stored: map<Key, int>, now: int, size: nat, k: Key, at: int,
                    ttl: int)
    requires Inv(es, live, stored, now, size) && now <= at
    ensures Inv(AfterGet(es, k, at, ttl),
                if k in live && Expired(live[k], at, ttl) then live - {k} else live, stored, at, size)
  {
    FindIs(es, k);
    ForgetKeepsInv(es, live, stored, now, size, k, at);
    if Find(es, k).None? {
      FilterAll(OtherKeys(k), es);
    } else {
      assert live[k] == Find(es, k).value;
    }
  }

  lemma InvalidateKeepsInv(es: seq<Entry>, live: map<Key, Entry>, stored: map<Key, int>, now: int, size: nat,
                           pk: string, at: int)
    requires Inv(es, live, stored, now, size) && now <= at
    ensures Inv(AfterInvalidate(es, pk), map k | k in live && live[k].tenant.pk != pk :: live[k], stored, at, size)
  {
    FilterDistinct(OtherTenants(pk), es);
  }

  lemma {:induction false} RunKeepsInv(h: seq<Timed>, size: nat, ttl: int) returns (now: int)
    requires Monotonic(h) && size >= 1
    ensures Inv(Run([], h, size, ttl), Live(h, ttl), StoredAt(h), now, size)
    ensures h != [] ==> now == h[|h| - 1].at
    decreases |h|
  {
    if h == [] {
      now := 0;
    } else {
      var before, last := h[..|h| - 1], h[|h| - 1];
      var earlier := RunKeepsInv(before, size, ttl);
      now := last.at;
      var es, live, stored := Run([], before, size, ttl), Live(before, ttl), StoredAt(before);
      if before == [] {
        earlier := now;
      }
      match last.event {
        case Get(k) => GetKeepsInv(es, live, stored, earlier, size, k, now, ttl);
        case Store(k, t) => StoreKeepsInv(es, live, stored, earlier, size, Entry(k, t, now));
        case Invalidate(pk) => InvalidateKeepsInv(es, live, stored, earlier, size, pk, now);
      }
    }
  }

  /**
   The bound, and what it costs: a cache of size at least one never exceeds
   it, holds nothing the history does not, and forgets a live entry only when
   at least `size` other keys were stored at its time or later.
   */
  lemma ForgetsOnlyTheOldest(h: seq<Timed>, size: nat, ttl: int, k: Key)
    requires Monotonic(h) && size >= 1
    ensures
      var es := Run([], h, size, ttl);
      var live := Live(h, ttl);
      && |es| <= size
      && (Find(es, k).Some? ==> k in live && Find(es, k).value == live[k])
      && (Find(es, k).None? && k in live ==> |LaterKeys(StoredAt(h), k, live[k].ts)| >= size)
  {
    var now := RunKeepsInv(h, size, ttl);
    FindIs(Run([], h, size, ttl), k);
  }

  // ---- A queue of stores ----

  /** The plain queue: a store moves its key to the back, and the front leaves when there is no room. */
  function Queued(q: seq<Entry>, e: Timed, size: nat, ttl: int): seq<Entry> {
    match e.event
    case Get(k) => AfterGet(q, k, e.at, ttl)
    case Store(k, t) =>
      var q' := Filter(OtherKeys(k), q) + [Entry(k, t, e.at)];
      if |q'| > size then q'[1..] else q'
    case Invalidate(pk) => AfterInvalidate(q, pk)
  }

  function QueueRun(h: seq<Timed>, size: nat, ttl: int): seq<Entry>
    decreases |h|
  {
    if h == [] then [] else Queued(QueueRun(h[..|h| - 1], size, ttl), h[|h| - 1], size, ttl)
  }

  ghost predicate Ordered(q: seq<Entry>) {
    forall i, j :: 0 <= i < j < |q| ==> q[i].ts < q[j].ts
  }

  ghost predicate SameEntries(es: seq<Entry>, q: seq<Entry>) {
    |es| == |q| && forall e :: e in es <==> e in q
  }

  ghost predicate QueueInv(es: seq<Entry>, q: seq<Entry>, now: int, size: nat) {
    && Distinct(es) && Distinct(q) && Ordered(q) && SameEntries(es, q) && |q| <= size
    && (forall e :: e in q ==> e.ts <= now)
  }

  lemma {:induction false} FilterOrdered(keep: Entry -> bool, q: seq<Entry>)
    requires Ordered(q)
    ensures Ordered(Filter(keep, q))
  {
    if q != [] {
      FilterOrdered(keep, q[1..]);
      forall e | e in Filter(keep, q[1..]) ensures q[0].ts < e.ts {
        var i :| 0 <= i < |q[1..]| && q[1..][i] == e;
        assert q[i + 1] == e;
      }
    }
  }

  lemma {:induction false} SameSize(a: seq<Entry>, b: seq<Entry>)
    requires Distinct(a) && Distinct(b) && forall e :: e in a <==> e in b
    ensures |a| == |b|
  {
    var ka := KeysOf(a);
    var kb := KeysOf(b);
    assert ka == kb;
  }

  lemma FilteredAlike(keep: Entry -> bool, es: seq<Entry>, q: seq<Entry>, now: int, at: int, size: nat)
    requires QueueInv(es, q, now, size) && now <= at
    ensures QueueInv(Filter(keep, es), Filter(keep, q), at, size)
  {
    FilterDistinct(keep, es);
    FilterDistinct(keep, q);
    FilterOrdered(keep, q);
    SameSize(Filter(keep, es), Filter(keep, q));
  }

  /** The front of the queue is the oldest entry. */
  lemma FrontIsOldest(es: seq<Entry>, q: seq<Entry>, now: int, size: nat)
    requires QueueInv(es, q, now, size) && q != []
    ensures Oldest(es) == q[0]
  {
    assert q[0] in es;
    var i :| 0 <= i < |q| && q[i] == Oldest(es);
  }

  lemma FoundAlike(es: seq<Entry>, q: seq<Entry>, now: int, size: nat, k: Key)
    requires QueueInv(es, q, now, size)
    ensures Find(es, k) == Find(q, k)
  {
    FindIs(es, k);
    FindIs(q, k);
    if Find(es, k).Some? {
      SameKeySameEntry(q, Find(es, k).value, Find(q, k).value);
    }
  }

  lemma BackOfQueue(q: seq<Entry>, now: int, e: Entry)
    requires Distinct(q) && Ordered(q) && (forall f :: f in q ==> f.ts <= now) && now < e.ts
    ensures
      var q1 := Filter(OtherKeys(e.key), q) + [e];
      Distinct(q1) && Ordered(q1) && forall f :: f in q1 ==> f.ts <= e.ts
  {
    var rest := Filter(OtherKeys(e.key), q);
    FilterDistinct(OtherKeys(e.key), q);
    FilterOrdered(OtherKeys(e.key), q);
    forall i | 0 <= i < |rest| ensures rest[i].key != e.key && rest[i].ts < e.ts {
      assert rest[i] in rest && OtherKeys(e.key)(rest[i]);
    }
  }

  /** The front leaves: everything else stays. */
  lemma FrontLeaves(q: seq<Entry>, e: Entry)
    requires q != [] && Distinct(q) && Ordered(q + [e]) && Distinct(q + [e])
    ensures
      var q' := q[1..] + [e];
      && Distinct(q') && Ordered(q')
      && forall f :: f in q' <==> f == e || (f in q && f.key != q[0].key)
  {
    var q1, q' := q + [e], q[1..] + [e];
    assert q1[0] == q[0] && q1[|q|] == e;
    assert forall i :: 0 <= i < |q'| ==> q'[i] == q1[i + 1];
    forall f | f in q && f.key != q[0].key ensures f in q' {
      var i :| 0 <= i < |q| && q[i] == f;
      assert q[1..][i - 1] == f;
    }
    forall f | f in q[1..] ensures f in q && f.key != q[0].key {
      var i :| 0 <= i < |q[1..]| && q[1..][i] == f;
      assert q[i + 1] == f;
    }
  }

  lemma QueuedAlike(es: seq<Entry>, q: seq<Entry>, now: int, size: nat, ttl: int, e: Entry)
    requires QueueInv(es, q, now, size) && now < e.ts && size >= 1
    ensures QueueInv(AfterSet(es, e, size), Queued(q, Timed(Store(e.key, e.tenant), e.ts), size, ttl), e.ts, size)
  {
    var q' := Queued(q, Timed(Store(e.key, e.tenant), e.ts), size, ttl);
    SetIs(es, e, size);
    FoundAlike(es, q, now, size, e.key);
    FindIs(q, e.key);
    BackOfQueue(q, now, e);
    if Find(q, e.key).Some? {
      FilterShrinks(q, Find(q, e.key).value);
      SameSize(AfterSet(es, e, size), q');
    } else {
      NewKeyQueued(es, q, now, size, ttl, e);
    }
  }

  lemma NewKeyQueued(es: seq<Entry>, q: seq<Entry>, now: int, size: nat, ttl: int, e: Entry)
    requires QueueInv(es, q, now, size) && now < e.ts && size >= 1
    requires Find(es, e.key).None? && Find(q, e.key).None?
    ensures QueueInv(AfterSet(es, e, size), Queued(q, Timed(Store(e.key, e.tenant), e.ts), size, ttl), e.ts, size)
  {
    SameSize(es, q);
    FindIs(q, e.key);
    QueuedShape(q, size, ttl, e);
    if |q| == size {
      FullQueued(es, q, now, size, e);
    } else {
      RoomQueued(es, q, now, size, e);
    }
  }

  lemma QueuedShape(q: seq<Entry>, size: nat, ttl: int, e: Entry)
    requires forall f :: f in q ==> f.key != e.key
    requires |q| <= size && size >= 1
    ensures Filter(OtherKeys(e.key), q) == q
    ensures Queued(q, Timed(Store(e.key, e.tenant), e.ts), size, ttl)
         == if |q| == size then q[1..] + [e] else q + [e]
  {
    FilterAll(OtherKeys(e.key), q);
    PushedAndCut(q, e);
  }

  lemma PushedAndCut(q: seq<Entry>, e: Entry)
    ensures |q + [e]| == |q| + 1
    ensures q != [] ==> (q + [e])[1..] == q[1..] + [e]
  {
  }

  lemma RoomQueued(es: seq<Entry>, q: seq<Entry>, now: int, size: nat, e: Entry)
    requires QueueInv(es, q, now, size) && now < e.ts && |q| < size && |es| < size
    requires Find(es, e.key).None? && Filter(OtherKeys(e.key), q) == q
    ensures QueueInv(AfterSet(es, e, size), q + [e], e.ts, size)
  {
    SetIs(es, e, size);
    BackOfQueue(q, now, e);
    SameSize(AfterSet(es, e, size), q + [e]);
  }

  lemma FullQueued(es: seq<Entry>, q: seq<Entry>, now: int, size: nat, e: Entry)
    requires QueueInv(es, q, now, size) && now < e.ts && size >= 1 && |q| == size && |es| == size
    requires Find(es, e.key).None? && Filter(OtherKeys(e.key), q) == q
    ensures QueueInv(AfterSet(es, e, size), q[1..] + [e], e.ts, size)
  {
    SetIs(es, e, size);
    BackOfQueue(q, now, e);
    FrontIsOldest(es, q, now, size);
    FrontLeaves(q, e);
    SameSize(AfterSet(es, e, size), q[1..] + [e]);
  }

  /** No two stores share a time; reads and invalidations may share one with anything. */
  ghost predicate StoresDistinct(h: seq<Timed>) {
    forall i, j :: 0 <= i < j < |h| && h[i].event.Store? && h[j].event.Store? ==> h[i].at < h[j].at
  }

  /** When every store is later than the ones before it, the cache holds exactly what a queue of stores would. */
  lemma {:induction false} CacheIsAQueue(h: seq<Timed>, size: nat, ttl: int) returns (last: int)
    requires size >= 1 && StoresDistinct(h)
    ensures QueueInv(Run([], h, size, ttl), QueueRun(h, size, ttl), last, size)
    ensures SameEntries(Run([], h, size, ttl), QueueRun(h, size, ttl))
    ensures (forall i :: 0 <= i < |h| && h[i].event.Store? ==> h[i].at <= last)
    ensures QueueRun(h, size, ttl) == [] || exists i :: 0 <= i < |h| && h[i].event.Store? && h[i].at == last
    decreases |h|
  {
    if h == [] {
      last := 0;
    } else {
      var before, e := h[..|h| - 1], h[|h| - 1];
      var earlier := CacheIsAQueue(before, size, ttl);
      assert forall i :: 0 <= i < |before| ==> before[i] == h[i];
      last := earlier;
      var es, q := Run([], before, size, ttl), QueueRun(before, size, ttl);
      match e.event
      case Get(k) =>
        FoundAlike(es, q, earlier, size, k);
        FilteredAlike(OtherKeys(k), es, q, earlier, earlier, size);
      case Store(k, t) =>
        last := e.at;
        QueuedAlike(es, q, if q == [] then last - 1 else earlier, size, ttl, Entry(k, t, last));
      case Invalidate(pk) => FilteredAlike(OtherTenants(pk), es, q, earlier, earlier, size);
    }
  }

  // ---- What is surely remembered ----

  /** The other keys stored at time `ts` or later, read off the history. */
  function OthersStored(h: seq<Timed>, k: Key, ts: int): set<Key> {
    set e <- h | e.event.Store? && e.event.k != k && e.at >= ts :: e.event.k
  }

  /** Neither stored again under its key nor invalidated since. */
  ghost predicate LastStore(h: seq<Timed>, i: nat, k: Key, t: Tenant) {
    && i < |h| && h[i].event == Store(k, t)
    && forall j :: i < j < |h| ==>
         match h[j].event
         case Get(_) => true
         case Store(k', _) => k' != k
         case Invalidate(pk) => pk != t.pk
  }

  lemma {:induction false} StoredFrom(h: seq<Timed>, k: Key)
    requires k in StoredAt(h)
    ensures exists e :: e in h && e.event.Store? && e.event.k == k && e.at == StoredAt(h)[k]
    decreases |h|
  {
    var before, last := h[..|h| - 1], h[|h| - 1];
    assert forall e :: e in h <==> e in before || e == last;
    if !(last.event.Store? && last.event.k == k) {
      StoredFrom(before, k);
    }
  }

  lemma {:induction false} StillLive(h: seq<Timed>, ttl: int, i: nat, k: Key, t: Tenant, now: int)
    requires LastStore(h, i, k, t)
    requires forall j :: i <= j < |h| ==> h[j].at <= now
    requires now - h[i].at <= ttl
    ensures k in Live(h, ttl) && Live(h, ttl)[k] == Entry(k, t, h[i].at)
    decreases |h|
  {
    var before, last := h[..|h| - 1], h[|h| - 1];
    if i < |before| {
      assert forall j :: 0 <= j < |before| ==> before[j] == h[j];
      StillLive(before, ttl, i, k, t, now);
    }
  }

  /**
   A tenant stored for a key is what a read of the key finds, as long as its
   time to live has not passed, it was neither replaced nor invalidated, and
   fewer than `size` other keys were stored at its time or later.
   */
  lemma StoredIsFound(h: seq<Timed>, size: nat, ttl: int, i: nat, k: Key, t: Tenant, now: int)
    requires Monotonic(h) && size >= 1 && LastStore(h, i, k, t)
    requires h[|h| - 1].at <= now && now - h[i].at <= ttl
    requires |OthersStored(h, k, h[i].at)| < size
    ensures Hit(Run([], h, size, ttl), k, now, ttl) == Some(t)
  {
    StillLive(h, ttl, i, k, t, now);
    ForgetsOnlyTheOldest(h, size, ttl, k);
    var later := LaterKeys(StoredAt(h), k, h[i].at);
    forall k' | k' in later ensures k' in OthersStored(h, k, h[i].at) {
      StoredFrom(h, k');
    }
    Subset(later, OthersStored(h, k, h[i].at));
  }
}
