/**
 The resolver cache: a bounded, timed table of resolved tenants, kept in the
 order its keys were first inserted. What it may forget, and when.
 */
module ResolverCache {
  import opened Prelude

  /** The three key namespaces of the cache. */
  datatype Key = Subdomain(slug: string) | Header(value: string) | SessionId(id: string)

  datatype Tenant = Tenant(pk: string, slug: string, state: int)

  /** A stored tenant and the monotonic time it was stored at. */
  datatype Entry = Entry(key: Key, tenant: Tenant, ts: int)

  function Find(es: seq<Entry>, k: Key): Option<Entry> {
    if es == [] then None else if es[0].key == k then Some(es[0]) else Find(es[1..], k)
  }

  function OtherKeys(k: Key): Entry -> bool {
    (e: Entry) => e.key != k
  }

  function OtherTenants(pk: string): Entry -> bool {
    (e: Entry) => e.tenant.pk != pk
  }

  function Expired(e: Entry, now: int, ttl: int): bool {
    now - e.ts > ttl
  }

  /** The entry stored longest ago; of several, the one whose key came first. */
  function Oldest(es: seq<Entry>): (e: Entry)
    requires es != []
    ensures e in es && forall f :: f in es ==> e.ts <= f.ts
  {
    if |es| == 1 then es[0]
    else
      var rest := Oldest(es[1..]);
      if es[0].ts <= rest.ts then es[0] else rest
  }

  /** A new key goes last; a known one keeps its place. */
  function Put(es: seq<Entry>, e: Entry): seq<Entry> {
    if es == [] then [e] else if es[0].key == e.key then [e] + es[1..] else [es[0]] + Put(es[1..], e)
  }

  // ---- The operations ----

  function AfterGet(es: seq<Entry>, k: Key, now: int, ttl: int): seq<Entry> {
    match Find(es, k)
    case None => es
    case Some(e) => if Expired(e, now, ttl) then Filter(OtherKeys(k), es) else es
  }

  function Hit(es: seq<Entry>, k: Key, now: int, ttl: int): Option<Tenant> {
    match Find(es, k)
    case None => None
    case Some(e) => if Expired(e, now, ttl) then None else Some(e.tenant)
  }

  /** With no capacity at all there is nothing to evict, and `min()` of nothing raises. */
  predicate SetRaises(es: seq<Entry>, k: Key, size: nat) {
    |es| >= size && Find(es, k).None? && es == []
  }

  function AfterSet(es: seq<Entry>, e: Entry, size: nat): seq<Entry> {
    if SetRaises(es, e.key, size) then es
    else if |es| >= size && Find(es, e.key).None? then Put(Filter(OtherKeys(Oldest(es).key), es), e)
    else Put(es, e)
  }

  function AfterInvalidate(es: seq<Entry>, pk: string): seq<Entry> {
    Filter(OtherTenants(pk), es)
  }

  class Cache {
    const size: nat
    const ttl: int
    var entries: seq<Entry>

    constructor (size: nat, ttl: int)
      ensures this.size == size && this.ttl == ttl && entries == []
    {
      this.size, this.ttl, this.entries := size, ttl, [];
    }

    method Get(k: Key, now: int) returns (r: Option<Tenant>)
      modifies this
      ensures r == Hit(old(entries), k, now, ttl) && entries == AfterGet(old(entries), k, now, ttl)
    {
      var entry := Find(entries, k);
      if entry.None? {
        return None;
      }
      if now - entry.value.ts > ttl {
        entries := Filter(OtherKeys(k), entries);
        return None;
      }
      r := Some(entry.value.tenant);
    }

    method OldestEntry() returns (e: Entry)
      requires entries != []
      ensures e == Oldest(entries)
    {
      var i := |entries| - 1;
      e := entries[i];
      while i > 0
        invariant 0 <= i < |entries| && e == Oldest(entries[i..])
      {
        i := i - 1;
        assert entries[i..][1..] == entries[i + 1..];
        if entries[i].ts <= e.ts {
          e := entries[i];
        }
      }
      assert entries[0..] == entries;
    }

    method Set(k: Key, t: Tenant, now: int) returns (raised: bool)
      modifies this
      ensures raised == SetRaises(old(entries), k, size)
      ensures entries == AfterSet(old(entries), Entry(k, t, now), size)
    {
      raised := false;
      if |entries| >= size && Find(entries, k).None? {
        if entries == [] {
          return true;
        }
        var oldest := OldestEntry();
        entries := Filter(OtherKeys(oldest.key), entries);
      }
      entries := Put(entries, Entry(k, t, now));
    }

    method Invalidate(pk: string)
      requires Distinct(entries)
      modifies this
      ensures entries == AfterInvalidate(old(entries), pk)
    {
      var doomed: seq<Key> := [];
      for i := 0 to |entries|
        invariant forall k :: k in doomed <==> exists e :: e in entries[..i] && e.tenant.pk == pk && e.key == k
      {
        assert entries[..i + 1] == entries[..i] + [entries[i]];
        if entries[i].tenant.pk == pk {
          doomed := doomed + [entries[i].key];
        }
      }
      assert entries[..|entries|] == entries;
      ghost var before := entries;
      FilterAll(NoneOf(doomed[..0]), before);
      for i := 0 to |doomed|
        invariant entries == Filter(NoneOf(doomed[..i]), before)
      {
        FilterOut(before, doomed, i);
        entries := Filter(OtherKeys(doomed[i]), entries);
      }
      assert doomed[..|doomed|] == doomed;
      forall e | e in before ensures NoneOf(doomed)(e) == OtherTenants(pk)(e) {
        if e.key in doomed {
          var f :| f in before && f.tenant.pk == pk && f.key == e.key;
          SameKeySameEntry(before, e, f);
        }
      }
      FilterSame(NoneOf(doomed), OtherTenants(pk), before);
    }
  }

  function NoneOf(ks: seq<Key>): Entry -> bool {
    (e: Entry) => e.key !in ks
  }

  lemma FilterOut(es: seq<Entry>, ks: seq<Key>, i: nat)
    requires i < |ks|
    ensures Filter(OtherKeys(ks[i]), Filter(NoneOf(ks[..i]), es)) == Filter(NoneOf(ks[..i + 1]), es)
  {
    assert ks[..i + 1] == ks[..i] + [ks[i]];
    FilterBoth(OtherKeys(ks[i]), NoneOf(ks[..i]), NoneOf(ks[..i + 1]), es);
  }

  lemma {:induction false} FilterBoth(p: Entry -> bool, q: Entry -> bool, both: Entry -> bool, es: seq<Entry>)
    requires forall e :: e in es ==> both(e) == (p(e) && q(e))
    ensures Filter(p, Filter(q, es)) == Filter(both, es)
  {
    if es != [] {
      FilterBoth(p, q, both, es[1..]);
      FilterConcat(p, if q(es[0]) then [es[0]] else [], Filter(q, es[1..]));
    }
  }

  // ---- One entry per key ----

  ghost predicate Distinct(es: seq<Entry>) {
    forall i, j :: 0 <= i < j < |es| ==> es[i].key != es[j].key
  }

  lemma SameKeySameEntry(es: seq<Entry>, e: Entry, f: Entry)
    requires Distinct(es) && e in es && f in es && e.key == f.key
    ensures e == f
  {
    var i :| 0 <= i < |es| && es[i] == e;
    var j :| 0 <= j < |es| && es[j] == f;
    assert i == j;
  }

  lemma {:induction false} FindIs(es: seq<Entry>, k: Key)
    ensures Find(es, k).Some? ==> Find(es, k).value in es && Find(es, k).value.key == k
    ensures Find(es, k).None? <==> forall e :: e in es ==> e.key != k
  {
    if es != [] {
      FindIs(es[1..], k);
    }
  }

  lemma {:induction false} FilterDistinct(keep: Entry -> bool, es: seq<Entry>)
    requires Distinct(es)
    ensures Distinct(Filter(keep, es)) && |Filter(keep, es)| <= |es|
  {
    if es != [] {
      FilterDistinct(keep, es[1..]);
      forall e | e in Filter(keep, es[1..]) ensures e.key != es[0].key {
        var i :| 0 <= i < |es[1..]| && es[1..][i] == e;
        assert es[i + 1] == e;
      }
    }
  }

  lemma {:induction false} FilterShrinks(es: seq<Entry>, e: Entry)
    requires Distinct(es) && e in es
    ensures |Filter(OtherKeys(e.key), es)| < |es|
  {
    if es[0] == e {
      FilterDistinct(OtherKeys(e.key), es[1..]);
    } else {
      FilterShrinks(es[1..], e);
    }
  }

  lemma {:induction false} PutIs(es: seq<Entry>, e: Entry)
    requires Distinct(es)
    ensures Distinct(Put(es, e))
    ensures forall f :: f in Put(es, e) <==> f == e || (f in es && f.key != e.key)
    ensures |Put(es, e)| == |es| + if Find(es, e.key).None? then 1 else 0
  {
    if es != [] {
      forall f | f in es[1..] ensures f.key != es[0].key {
        var i :| 0 <= i < |es[1..]| && es[1..][i] == f;
        assert es[i + 1] == f;
      }
      PutIs(es[1..], e);
      if es[0].key != e.key {
        var rest := Put(es[1..], e);
        assert forall f :: f in rest ==> f.key != es[0].key;
        assert forall i :: 0 <= i < |rest| ==> rest[i] in rest;
      }
    }
  }

  /** What a store leaves: the new entry, and the old ones but for its key's and perhaps the oldest. */
  lemma SetIs(es: seq<Entry>, e: Entry, size: nat)
    requires Distinct(es) && |es| <= size && size >= 1
    ensures Distinct(AfterSet(es, e, size)) && |AfterSet(es, e, size)| <= size
    ensures
      var evicts := |es| == size && Find(es, e.key).None?;
      forall f :: f in AfterSet(es, e, size) <==>
        f == e || (f in es && f.key != e.key && (evicts ==> f.key != Oldest(es).key))
  {
    FindIs(es, e.key);
    if |es| == size && Find(es, e.key).None? {
      var rest := Filter(OtherKeys(Oldest(es).key), es);
      FilterDistinct(OtherKeys(Oldest(es).key), es);
      FilterShrinks(es, Oldest(es));
      PutIs(rest, e);
    } else {
      PutIs(es, e);
    }
  }
}
