/**
 Resolution through the cache against resolution from the database: equal in
 every sequential run for the subdomain and session resolvers, equal for the
 header resolver exactly while no tenant takes a primary key already cached by
 slug, and never staler than the time to live when threads interleave.
 */
module ResolverRuns {
  import opened Prelude
  import opened ResolverCache

  /** Tenants by primary key. */
  type Database = map<string, Tenant>

  ghost predicate ValidDb(db: Database) {
    && (forall pk :: pk in db ==> db[pk].pk == pk)
    && (forall p, q :: p in db && q in db && db[p].slug == db[q].slug ==> p == q)
  }

  ghost function BySlug(db: Database, slug: string): Option<Tenant> {
    if pk :| pk in db && db[pk].slug == slug then Some(db[pk]) else None
  }

  ghost function ByPk(db: Database, pk: Option<string>): Option<Tenant> {
    if pk.Some? && pk.value in db then Some(db[pk.value]) else None
  }

  /** What the resolver asks the database; `pkOf` reads a primary key from text. */
  ghost function Lookup(db: Database, pkOf: string -> Option<string>, k: Key): Option<Tenant> {
    match k
    case Subdomain(slug) => BySlug(db, slug)
    case SessionId(id) => ByPk(db, pkOf(id))
    case Header(value) => if ByPk(db, pkOf(value)).Some? then ByPk(db, pkOf(value)) else BySlug(db, value)
  }

  lemma SlugFound(db: Database, t: Tenant)
    requires ValidDb(db) && t.pk in db && db[t.pk] == t
    ensures BySlug(db, t.slug) == Some(t)
  {
  }

  // ---- Resolution ----

  /** What a resolver returns, given what the database would answer. */
  function Resolved(es: seq<Entry>, k: Key, found: Option<Tenant>, now: int, ttl: int): Option<Tenant> {
    if Hit(es, k, now, ttl).Some? then Hit(es, k, now, ttl) else found
  }

  function AfterResolve(es: seq<Entry>, k: Key, found: Option<Tenant>, now: int, size: nat, ttl: int): seq<Entry> {
    var es1 := AfterGet(es, k, now, ttl);
    if Hit(es, k, now, ttl).Some? || found.None? then es1 else AfterSet(es1, Entry(k, found.value, now), size)
  }

  /** The cache read, the lookup, the store. An empty cache without capacity raises on the store. */
  method Resolve(cache: Cache, k: Key, found: Option<Tenant>, now: int) returns (r: Result<Option<Tenant>, ()>)
    modifies cache
    ensures cache.entries == AfterResolve(old(cache.entries), k, found, now, cache.size, cache.ttl)
    ensures cache.size >= 1 ==> r == Ok(Resolved(old(cache.entries), k, found, now, cache.ttl))
  {
    var cached := cache.Get(k, now);
    if cached.Some? {
      return Ok(cached);
    }
    if found.None? {
      return Ok(None);
    }
    var raised := cache.Set(k, found.value, now);
    r := if raised then Err(()) else Ok(found);
  }

  /**
   What a lookup found is returned, without another, for exactly the time to
   live; what it did not find is asked for again.
   */
  lemma RememberedExactlyWhileFresh(es: seq<Entry>, k: Key, found: Option<Tenant>, now: int, size: nat, ttl: int,
                                    later: int)
    requires Distinct(es) && |es| <= size && size >= 1 && Hit(es, k, now, ttl).None?
    ensures Resolved(es, k, found, now, ttl) == found
    ensures Hit(AfterResolve(es, k, found, now, size, ttl), k, later, ttl)
         == if found.Some? && later - now <= ttl then found else None
  {
    var es1 := AfterGet(es, k, now, ttl);
    FilterDistinct(OtherKeys(k), es);
    FindIs(es1, k);
    if found.Some? {
      var e := Entry(k, found.value, now);
      var after := AfterSet(es1, e, size);
      SetIs(es1, e, size);
      FindIs(after, k);
      SameKeySameEntry(after, Find(after, k).value, e);
    }
  }

  // ---- Sequential runs ----

  datatype Action = Resolution(k: Key) | Save(t: Tenant) | Delete(pk: string)

  datatype World = World(db: Database, es: seq<Entry>)

  /** Saving a slug another tenant has is refused by its unique index, and no signal fires. */
  predicate SlugFree(db: Database, t: Tenant) {
    forall pk <- db :: pk != t.pk ==> db[pk].slug != t.slug
  }

  /** Each save and each delete invalidates, by the signals of the app configuration. */
  ghost function Act(w: World, a: Action, now: int, pkOf: string -> Option<string>, size: nat, ttl: int): World {
    match a
    case Resolution(k) => w.(es := AfterResolve(w.es, k, Lookup(w.db, pkOf, k), now, size, ttl))
    case Save(t) =>
      if !SlugFree(w.db, t) then w else World(w.db[t.pk := t], AfterInvalidate(w.es, t.pk))
    case Delete(pk) =>
      if pk !in w.db then w else World(w.db - {pk}, AfterInvalidate(w.es, pk))
  }

  ghost function ActAll(w: World, actions: seq<(Action, int)>, pkOf: string -> Option<string>, size: nat,
                        ttl: int): World
    decreases |actions|
  {
    if actions == [] then w
    else ActAll(Act(w, actions[0].0, actions[0].1, pkOf, size, ttl), actions[1..], pkOf, size, ttl)
  }

  /** The entry is what the database would answer now. */
  ghost predicate Current(db: Database, pkOf: string -> Option<string>, e: Entry) {
    Lookup(db, pkOf, e.key) == Some(e.tenant)
  }

  ghost predicate Coherent(w: World, pkOf: string -> Option<string>, size: nat) {
    && ValidDb(w.db) && Distinct(w.es) && |w.es| <= size
    && forall e :: e in w.es && !e.key.Header? ==> Current(w.db, pkOf, e)
  }

  /** An entry of another tenant stays current through a save, unless its header value names the saved key. */
  lemma CurrentThroughSave(db: Database, pkOf: string -> Option<string>, e: Entry, t: Tenant)
    requires ValidDb(db) && SlugFree(db, t) && Current(db, pkOf, e) && e.tenant.pk != t.pk
    ensures Current(db[t.pk := t], pkOf, e) <==> !(e.key.Header? && pkOf(e.key.value) == Some(t.pk))
  {
    var db' := db[t.pk := t];
    assert ValidDb(db');
    assert e.tenant.pk in db && db[e.tenant.pk] == e.tenant;
    if e.key.Subdomain? || (e.key.Header? && ByPk(db, pkOf(e.key.value)).None?) {
      SlugFound(db', e.tenant);
    }
  }

  lemma CurrentThroughDelete(db: Database, pkOf: string -> Option<string>, e: Entry, pk: string)
    requires ValidDb(db) && Current(db, pkOf, e) && e.tenant.pk != pk
    ensures Current(db - {pk}, pkOf, e)
  {
    var db' := db - {pk};
    assert e.tenant.pk in db' && db'[e.tenant.pk] == e.tenant;
    SlugFound(db', e.tenant);
  }

  lemma ResolutionKeeps(w: World, k: Key, now: int, pkOf: string -> Option<string>, size: nat, ttl: int)
    requires Distinct(w.es) && |w.es| <= size && size >= 1
    ensures
      var w' := Act(w, Resolution(k), now, pkOf, size, ttl);
      && w'.db == w.db && Distinct(w'.es) && |w'.es| <= size
      && forall e :: e in w'.es ==> e in w.es || (e.key == k && Current(w.db, pkOf, e))
  {
    var found := Lookup(w.db, pkOf, k);
    var es1 := AfterGet(w.es, k, now, ttl);
    FilterDistinct(OtherKeys(k), w.es);
    if found.Some? {
      SetIs(es1, Entry(k, found.value, now), size);
    }
  }

  lemma ActKeepsCoherent(w: World, a: Action, now: int, pkOf: string -> Option<string>, size: nat, ttl: int)
    requires Coherent(w, pkOf, size) && size >= 1
    ensures Coherent(Act(w, a, now, pkOf, size, ttl), pkOf, size)
  {
    var w' := Act(w, a, now, pkOf, size, ttl);
    match a
    case Resolution(k) => ResolutionKeeps(w, k, now, pkOf, size, ttl);
    case Save(t) =>
      if SlugFree(w.db, t) {
        FilterDistinct(OtherTenants(t.pk), w.es);
        forall e | e in w'.es && !e.key.Header? ensures Current(w'.db, pkOf, e) {
          CurrentThroughSave(w.db, pkOf, e, t);
        }
      }
    case Delete(pk) =>
      if pk in w.db {
        FilterDistinct(OtherTenants(pk), w.es);
        forall e | e in w'.es && !e.key.Header? ensures Current(w'.db, pkOf, e) {
          CurrentThroughDelete(w.db, pkOf, e, pk);
        }
      }
  }

  lemma {:induction false} RunKeepsCoherent(w: World, actions: seq<(Action, int)>, pkOf: string -> Option<string>,
                                            size: nat, ttl: int)
    requires Coherent(w, pkOf, size) && size >= 1
    ensures Coherent(ActAll(w, actions, pkOf, size, ttl), pkOf, size)
    decreases |actions|
  {
    if actions != [] {
      ActKeepsCoherent(w, actions[0].0, actions[0].1, pkOf, size, ttl);
      RunKeepsCoherent(Act(w, actions[0].0, actions[0].1, pkOf, size, ttl), actions[1..], pkOf, size, ttl);
    }
  }

  /**
   After any run of resolutions, saves and deletes, at any times, the subdomain
   and session resolvers return what an uncached lookup would.
   */
  lemma CachedIsUncached(db: Database, actions: seq<(Action, int)>, k: Key, now: int, pkOf: string -> Option<string>,
                         size: nat, ttl: int)
    requires ValidDb(db) && size >= 1 && !k.Header?
    ensures
      var w := ActAll(World(db, []), actions, pkOf, size, ttl);
      Resolved(w.es, k, Lookup(w.db, pkOf, k), now, ttl) == Lookup(w.db, pkOf, k)
  {
    RunKeepsCoherent(World(db, []), actions, pkOf, size, ttl);
    FindIs(ActAll(World(db, []), actions, pkOf, size, ttl).es, k);
  }

  // ---- The header resolver ----

  ghost predicate AllCurrent(w: World, pkOf: string -> Option<string>) {
    forall e :: e in w.es ==> Current(w.db, pkOf, e)
  }

  /** The guard a save can be checked against: no header entry of another tenant reads as the saved key. */
  predicate TakesNoCachedKey(es: seq<Entry>, t: Tenant, pkOf: string -> Option<string>) {
    forall e <- es :: e.key.Header? && pkOf(e.key.value) == Some(t.pk) ==> e.tenant.pk == t.pk
  }

  /**
   A save keeps every entry current exactly when it takes no primary key that a
   header entry of another tenant reads as.
   */
  lemma SaveKeepsAllExactlyWhen(w: World, t: Tenant, now: int, pkOf: string -> Option<string>, size: nat, ttl: int)
    requires Coherent(w, pkOf, size) && AllCurrent(w, pkOf) && SlugFree(w.db, t)
    ensures AllCurrent(Act(w, Save(t), now, pkOf, size, ttl), pkOf) <==> TakesNoCachedKey(w.es, t, pkOf)
  {
    forall e | e in w.es && e.tenant.pk != t.pk
      ensures Current(w.db[t.pk := t], pkOf, e) <==> !(e.key.Header? && pkOf(e.key.value) == Some(t.pk))
    {
      CurrentThroughSave(w.db, pkOf, e, t);
    }
  }

  ghost predicate HeaderSafe(w: World, actions: seq<(Action, int)>, pkOf: string -> Option<string>, size: nat, ttl: int)
    decreases |actions|
  {
    actions != [] ==>
      && (actions[0].0.Save? && SlugFree(w.db, actions[0].0.t) ==> TakesNoCachedKey(w.es, actions[0].0.t, pkOf))
      && HeaderSafe(Act(w, actions[0].0, actions[0].1, pkOf, size, ttl), actions[1..], pkOf, size, ttl)
  }

  lemma {:induction false} RunKeepsAllCurrent(w: World, actions: seq<(Action, int)>, pkOf: string -> Option<string>,
                                              size: nat, ttl: int)
    requires Coherent(w, pkOf, size) && AllCurrent(w, pkOf) && size >= 1 && HeaderSafe(w, actions, pkOf, size, ttl)
    ensures AllCurrent(ActAll(w, actions, pkOf, size, ttl), pkOf)
    decreases |actions|
  {
    if actions != [] {
      var a, now := actions[0].0, actions[0].1;
      ActKeepsCoherent(w, a, now, pkOf, size, ttl);
      match a {
        case Resolution(k) => ResolutionKeeps(w, k, now, pkOf, size, ttl);
        case Save(t) =>
          if SlugFree(w.db, t) {
            SaveKeepsAllExactlyWhen(w, t, now, pkOf, size, ttl);
          }
        case Delete(pk) =>
          if pk in w.db {
            forall e | e in AfterInvalidate(w.es, pk) ensures Current(w.db - {pk}, pkOf, e) {
              CurrentThroughDelete(w.db, pkOf, e, pk);
            }
          }
      }
      RunKeepsAllCurrent(Act(w, a, now, pkOf, size, ttl), actions[1..], pkOf, size, ttl);
    }
  }

  /** In a run whose saves are so guarded the header resolver too returns what an uncached lookup would. */
  lemma CachedHeaderIsUncached(db: Database, actions: seq<(Action, int)>, k: Key, now: int,
                               pkOf: string -> Option<string>, size: nat, ttl: int)
    requires ValidDb(db) && size >= 1 && HeaderSafe(World(db, []), actions, pkOf, size, ttl)
    ensures
      var w := ActAll(World(db, []), actions, pkOf, size, ttl);
      Resolved(w.es, k, Lookup(w.db, pkOf, k), now, ttl) == Lookup(w.db, pkOf, k)
  {
    RunKeepsAllCurrent(World(db, []), actions, pkOf, size, ttl);
    FindIs(ActAll(World(db, []), actions, pkOf, size, ttl).es, k);
  }

  /** A primary key that is any text. */
  function TextKey(text: string): Option<string> {
    Some(text)
  }

  const OLDER := Tenant("7", "42", 0)
  const NEWER := Tenant("42", "other", 0)
  const STALE_RUN: seq<(Action, int)> := [(Resolution(Header("42")), 0), (Save(NEWER), 1)]

  /** A tenant found by its slug "42" is still returned after another takes the primary key "42". */
  lemma HeaderGoesStale()
    ensures
      var w := ActAll(World(map["7" := OLDER], []), STALE_RUN, TextKey, 1000, 60);
      && Resolved(w.es, Header("42"), Lookup(w.db, TextKey, Header("42")), 2, 60) == Some(OLDER)
      && Lookup(w.db, TextKey, Header("42")) == Some(NEWER)
  {
    var k := Header("42");
    var w0 := World(map["7" := OLDER], []);
    assert |"7"| != |"42"| && |"42"| != |"other"|;
    SlugFound(w0.db, OLDER);
    assert Lookup(w0.db, TextKey, k) == Some(OLDER);
    var w1 := Act(w0, Resolution(k), 0, TextKey, 1000, 60);
    assert w1 == World(w0.db, [Entry(k, OLDER, 0)]);
    assert SlugFree(w1.db, NEWER);
    FilterAll(OtherTenants("42"), w1.es);
    var w2 := Act(w1, Save(NEWER), 1, TextKey, 1000, 60);
    assert w2 == World(w0.db["42" := NEWER], [Entry(k, OLDER, 0)]);
    assert STALE_RUN[1..] == [(Save(NEWER), 1)];
    assert ActAll(w0, STALE_RUN, TextKey, 1000, 60) == ActAll(w1, STALE_RUN[1..], TextKey, 1000, 60);
    assert ActAll(w1, STALE_RUN[1..], TextKey, 1000, 60) == w2;
  }

  // ---- Interleaved threads ----

  /** One atomic step of some thread: the lookup and the store of a resolution are separate. */
  datatype ThreadStep =
    | Looked(thread: nat, k: Key)
    | Stored(thread: nat)
    | Change(a: Action)
    | Read(k: Key)

  /** `pending` is what each thread looked up; `seen` and `log` are what was ever looked up, and stored. */
  datatype Threads = Threads(w: World, pending: map<nat, (Key, Tenant)>, seen: set<(Key, Tenant)>, log: set<Entry>)

  ghost function ThreadAct(s: Threads, step: ThreadStep, now: int, pkOf: string -> Option<string>, size: nat,
                           ttl: int): Threads {
    match step
    case Looked(i, k) =>
      (match Lookup(s.w.db, pkOf, k)
       case None => s
       case Some(t) => s.(pending := s.pending[i := (k, t)], seen := s.seen + {(k, t)}))
    case Stored(i) =>
      if i !in s.pending then s
      else
        var e := Entry(s.pending[i].0, s.pending[i].1, now);
        s.(w := s.w.(es := AfterSet(s.w.es, e, size)), log := s.log + {e}, pending := s.pending - {i})
    case Change(a) => if a.Resolution? then s else s.(w := Act(s.w, a, now, pkOf, size, ttl))
    case Read(k) => s.(w := s.w.(es := AfterGet(s.w.es, k, now, ttl)))
  }

  ghost function ThreadRun(s: Threads, steps: seq<(ThreadStep, int)>, pkOf: string -> Option<string>, size: nat,
                           ttl: int): Threads
    decreases |steps|
  {
    if steps == [] then s
    else ThreadRun(ThreadAct(s, steps[0].0, steps[0].1, pkOf, size, ttl), steps[1..], pkOf, size, ttl)
  }

  ghost predicate Accounted(s: Threads, size: nat) {
    && Distinct(s.w.es) && |s.w.es| <= size
    && (forall e :: e in s.w.es ==> e in s.log)
    && (forall e :: e in s.log ==> (e.key, e.tenant) in s.seen)
    && (forall i :: i in s.pending ==> s.pending[i] in s.seen)
  }

  lemma ThreadActAccounted(s: Threads, step: ThreadStep, now: int, pkOf: string -> Option<string>, size: nat, ttl: int)
    requires Accounted(s, size) && size >= 1
    ensures Accounted(ThreadAct(s, step, now, pkOf, size, ttl), size)
  {
    match step
    case Looked(_, _) =>
    case Stored(i) =>
      if i in s.pending {
        SetIs(s.w.es, Entry(s.pending[i].0, s.pending[i].1, now), size);
      }
    case Change(a) =>
      if a.Save? {
        FilterDistinct(OtherTenants(a.t.pk), s.w.es);
      } else if a.Delete? {
        FilterDistinct(OtherTenants(a.pk), s.w.es);
      }
    case Read(k) => FilterDistinct(OtherKeys(k), s.w.es);
  }

  lemma {:induction false} ThreadRunAccounted(s: Threads, steps: seq<(ThreadStep, int)>, pkOf: string -> Option<string>,
                                              size: nat, ttl: int)
    requires Accounted(s, size) && size >= 1
    ensures Accounted(ThreadRun(s, steps, pkOf, size, ttl), size)
    decreases |steps|
  {
    if steps != [] {
      ThreadActAccounted(s, steps[0].0, steps[0].1, pkOf, size, ttl);
      ThreadRunAccounted(ThreadAct(s, steps[0].0, steps[0].1, pkOf, size, ttl), steps[1..], pkOf, size, ttl);
    }
  }

  /**
   Whatever the interleaving, a hit at time t returns a value some thread
   looked up for that very key, stored no earlier than t minus the time to live.
   */
  lemma HitsAreRecentAndOfTheirKey(db: Database, steps: seq<(ThreadStep, int)>, k: Key, now: int,
                                   pkOf: string -> Option<string>, size: nat, ttl: int)
    requires size >= 1
    ensures
      var s := ThreadRun(Threads(World(db, []), map[], {}, {}), steps, pkOf, size, ttl);
      Hit(s.w.es, k, now, ttl).Some? ==>
        && (k, Hit(s.w.es, k, now, ttl).value) in s.seen
        && exists e :: e in s.log && e.key == k && Some(e.tenant) == Hit(s.w.es, k, now, ttl) && e.ts >= now - ttl
  {
    ThreadRunAccounted(Threads(World(db, []), map[], {}, {}), steps, pkOf, size, ttl);
    FindIs(ThreadRun(Threads(World(db, []), map[], {}, {}), steps, pkOf, size, ttl).w.es, k);
  }
}
