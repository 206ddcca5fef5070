/** One shard of the block cache (LRUCache in util/cache.cc). */
module LruCache {
  import opened InternalKeys
  import opened Lists
  import opened HandleTables

  /** An LRUHandle; its id stands for its address and is not used again. */
  datatype Handle = Handle(key: Key, hash: nat, charge: nat, inCache: bool, refs: nat)

  type Handles = map<Id, Handle>

  // ---- invariants ----

  /** Unused entries are on the lru list, entries in use on the other. */
  ghost predicate ListsOk(lru: seq<Id>, inUse: seq<Id>, handles: Handles) {
    && Once(lru) && Once(inUse)
    && (forall e :: e in lru <==> e in handles && handles[e].inCache && handles[e].refs == 1)
    && (forall e :: e in inUse <==> e in handles && handles[e].inCache && handles[e].refs >= 2)
  }

  /** The references are the clients' and, for an entry in the cache, the cache's. */
  ghost predicate RefsOk(handles: Handles, clients: map<Id, nat>) {
    && clients.Keys == handles.Keys
    && forall e :: e in handles ==>
         handles[e].refs >= 1
         && handles[e].refs == clients[e] + if handles[e].inCache then 1 else 0
  }

  ghost predicate HashesOk(handles: Handles, hashOf: Key -> nat) {
    forall e :: e in handles ==> handles[e].hash == hashOf(handles[e].key)
  }

  function WithRefs(handles: Handles, e: Id, refs: nat): Handles
    requires e in handles
  { handles[e := handles[e].(refs := refs)] }

  lemma RefsChange(handles: Handles, clients: map<Id, nat>, e: Id, refs: nat, n: nat, hashOf: Key -> nat)
    requires RefsOk(handles, clients) && HashesOk(handles, hashOf) && e in handles
    requires refs >= 1 && refs == n + if handles[e].inCache then 1 else 0
    ensures WithRefs(handles, e, refs).Keys == handles.Keys && HashesOk(WithRefs(handles, e, refs), hashOf)
    ensures RefsOk(WithRefs(handles, e, refs), clients[e := n])
  {
  }

  function ItemOf(e: Id, h: Handle): Item { Item(e, h.key, h.hash) }

  /** The entries in the cache. */
  ghost function Cached(handles: Handles): set<Item> {
    set e | e in handles && handles[e].inCache :: ItemOf(e, handles[e])
  }

  /** Every handle ever made is alive or has been given to its deleter once. */
  ghost predicate DeletedOk(deleted: seq<Id>, alive: set<Id>, nextId: Id) {
    && Once(deleted) && (forall e :: e in deleted ==> e < nextId && e !in alive)
    && (forall e :: e in alive ==> e < nextId) && forall e :: 0 <= e < nextId ==> e in alive || e in deleted
  }

  ghost function ChargeOf(handles: Handles, list: seq<Id>): nat {
    if list == [] then 0 else (if list[0] in handles then handles[list[0]].charge else 0) + ChargeOf(handles, list[1..])
  }

  lemma {:induction false} ChargeWithout(handles: Handles, list: seq<Id>, e: Id)
    requires e in handles && e in list
    ensures ChargeOf(handles, Without(list, e)) == ChargeOf(handles, list) - handles[e].charge
  {
    if list[0] != e {
      ChargeWithout(handles, list[1..], e);
      assert Without(list, e)[1..] == Without(list[1..], e);
    }
  }

  lemma {:induction false} ChargeAppended(handles: Handles, list: seq<Id>, e: Id)
    requires e in handles
    ensures ChargeOf(handles, list + [e]) == ChargeOf(handles, list) + handles[e].charge
  {
    if list == [] {
      assert [] + [e] == [e];
    } else {
      ChargeAppended(handles, list[1..], e);
      assert (list + [e])[1..] == list[1..] + [e];
    }
  }

  lemma {:induction false} NotThere(list: seq<Id>, e: Id)
    requires e !in list
    ensures Without(list, e) == list
  {
    if list != [] { NotThere(list[1..], e); }
  }

  /** Charges depend on the listed handles only. */
  lemma {:induction false} SameCharges(handles: Handles, handles': Handles, list: seq<Id>)
    requires forall e :: e in list ==> e in handles && e in handles' && handles'[e].charge == handles[e].charge
    ensures ChargeOf(handles', list) == ChargeOf(handles, list)
  {
    if list != [] { SameCharges(handles, handles', list[1..]); }
  }

  /** The state of a shard but for its hash table.  `clients` counts the references
      clients hold; `deleted` lists the handles given to their deleters. */
  datatype Cache = Cache(usage: int, lru: seq<Id>, inUse: seq<Id>, handles: Handles, nextId: Id,
                         clients: map<Id, nat>, deleted: seq<Id>)

  ghost predicate Counted(c: Cache, hashOf: Key -> nat) {
    && ListsOk(c.lru, c.inUse, c.handles) && RefsOk(c.handles, c.clients)
       && DeletedOk(c.deleted, c.handles.Keys, c.nextId)
    && c.usage == ChargeOf(c.handles, c.lru) + ChargeOf(c.handles, c.inUse) && HashesOk(c.handles, hashOf)
  }

  // ---- what the operations do ----

  function Unlinked(c: Cache, e: Id): Cache { c.(lru := Without(c.lru, e), inUse := Without(c.inUse, e)) }

  /** Ref, for a client. */
  function Reffed(c: Cache, e: Id): Cache
    requires e in c.handles && e in c.clients
  {
    var h := c.handles[e];
    var c' := if h.refs == 1 && h.inCache then Unlinked(c, e).(inUse := Without(c.inUse, e) + [e]) else c;
    c'.(handles := WithRefs(c.handles, e, h.refs + 1), clients := c.clients[e := c.clients[e] + 1])
  }

  /** Unref: the last reference gives the handle to its deleter. */
  function Unreffed(c: Cache, e: Id): Cache
    requires e in c.handles && c.handles[e].refs > 0
  {
    var h := c.handles[e];
    if h.refs == 1 then c.(handles := c.handles - {e}, clients := c.clients - {e}, deleted := c.deleted + [e])
    else
      var c' := if h.inCache && h.refs == 2 then Unlinked(c, e).(lru := Without(c.lru, e) + [e]) else c;
      c'.(handles := WithRefs(c.handles, e, h.refs - 1))
  }

  /** Release: a client gives one reference back. */
  function Released(c: Cache, e: Id): Cache
    requires e in c.handles && c.handles[e].refs > 0 && e in c.clients && c.clients[e] > 0
  {
    Unreffed(c.(clients := c.clients[e := c.clients[e] - 1]), e)
  }

  /** FinishErase: the cache gives its own reference back. */
  function Erased(c: Cache, e: Id): Cache
    requires e in c.handles && c.handles[e].refs > 0
  {
    var h := c.handles[e].(inCache := false);
    Unreffed(Unlinked(c, e).(usage := c.usage - h.charge, handles := c.handles[e := h]), e)
  }

  /** The new handle of Insert, with a reference for the client and one for the cache. */
  function Added(c: Cache, key: Key, hash: nat, charge: nat, cached: bool): Cache {
    var e := c.nextId;
    var c' := if cached then c.(inUse := c.inUse + [e], usage := c.usage + charge) else c;
    c'.(handles := c.handles[e := Handle(key, hash, charge, cached, if cached then 2 else 1)],
        clients := c.clients[e := 1], nextId := e + 1)
  }

  /** x has left the list; the others stay, in their order. */
  ghost predicate Left(q: seq<Id>, x: Id, q': seq<Id>) {
    && (forall y :: y in q' <==> y in q && y != x) && Once(q')
    && forall a, b :: Ahead(q, a, b) && a != x && b != x ==> Ahead(q', a, b)
  }

  lemma WithoutLeft(q: seq<Id>, x: Id)
    requires Once(q)
    ensures Left(q, x, Without(q, x))
  {
    WithoutOnce(q, x);
    forall a, b | Ahead(q, a, b) && a != x && b != x ensures Ahead(Without(q, x), a, b) {
      WithoutKeepsOrder(q, x, a, b);
    }
  }

  /** All but the lists, the references and the deleter's calls. */
  ghost predicate OnlyRefs(c: Cache, c': Cache, e: Id) {
    && c'.usage == c.usage && c'.nextId == c.nextId
    && (forall x :: x in c.handles && x != e ==> x in c'.handles && c'.handles[x] == c.handles[x])
    && (forall x :: x in c'.handles ==> x in c.handles)
    && forall x :: x in c.clients && x != e ==> x in c'.clients && c'.clients[x] == c.clients[x]
  }

  /** An entry no client had becomes one in use; any entry gets one more reference. */
  lemma ReffedMeans(c: Cache, e: Id, hashOf: Key -> nat)
    requires Counted(c, hashOf) && e in c.handles && c.handles[e].inCache && e in c.clients
    ensures var c' := Reffed(c, e);
            && OnlyRefs(c, c', e) && c'.deleted == c.deleted
            && c'.handles[e] == c.handles[e].(refs := c.handles[e].refs + 1) && c'.clients[e] == c.clients[e] + 1
            && (c.clients[e] > 0 ==> c'.lru == c.lru && c'.inUse == c.inUse)
            && (c.clients[e] == 0 ==> Left(c.lru, e, c'.lru) && c'.inUse == c.inUse + [e])
  {
    hide ChargeOf;
    WithoutLeft(c.lru, e);
    if e !in c.inUse { NotThere(c.inUse, e); }
  }

  /** The last client's release makes a cached entry the youngest of the unused ones, and
      gives any other to its deleter; before that only the references are counted down. */
  lemma ReleasedMeans(c: Cache, e: Id, hashOf: Key -> nat)
    requires Counted(c, hashOf) && e in c.handles && e in c.clients && c.clients[e] > 0
    ensures c.handles[e].refs > 0 && var c' := Released(c, e);
            && OnlyRefs(c, c', e)
            && (c.clients[e] > 1 || c.handles[e].inCache ==>
                  && e in c'.handles && c'.handles[e] == c.handles[e].(refs := c.handles[e].refs - 1)
                  && e in c'.clients && c'.clients[e] == c.clients[e] - 1 && c'.deleted == c.deleted)
            && (c.clients[e] > 1 ==> c'.lru == c.lru && c'.inUse == c.inUse)
            && (c.clients[e] == 1 && c.handles[e].inCache ==> c'.lru == c.lru + [e] && Left(c.inUse, e, c'.inUse))
            && (c.clients[e] == 1 && !c.handles[e].inCache ==>
                  e !in c'.handles && c'.deleted == c.deleted + [e] && c'.lru == c.lru && c'.inUse == c.inUse)
  {
    hide ChargeOf;
    hide DeletedOk;
    hide HashesOk;
    hide Left;
    hide Without;
    WithoutLeft(c.inUse, e);
    if e !in c.lru { NotThere(c.lru, e); }
  }

  /** An erased entry is on no list and not counted any more; it goes to its deleter at
      once unless clients still hold it. */
  lemma ErasedMeans(c: Cache, e: Id, hashOf: Key -> nat)
    requires Counted(c, hashOf) && e in c.handles && c.handles[e].inCache && e in c.clients
    ensures c.handles[e].refs > 0 && var c' := Erased(c, e);
            && OnlyRefs(c.(usage := c.usage - c.handles[e].charge), c', e)
            && Left(c.lru, e, c'.lru) && Left(c.inUse, e, c'.inUse)
            && (c.clients[e] == 0 ==> e !in c'.handles && c'.deleted == c.deleted + [e])
            && (c.clients[e] > 0 ==>
                  && e in c'.handles && c'.deleted == c.deleted && e in c'.clients && c'.clients[e] == c.clients[e]
                  && c'.handles[e] == c.handles[e].(inCache := false, refs := c.clients[e]))
  {
    hide ChargeOf;
    WithoutLeft(c.lru, e);
    WithoutLeft(c.inUse, e);
  }

  // ---- they keep the invariants ----

  lemma MovesToUse(lru: seq<Id>, inUse: seq<Id>, handles: Handles, e: Id)
    requires ListsOk(lru, inUse, handles) && e in handles && handles[e].inCache && handles[e].refs == 1
    ensures var handles' := WithRefs(handles, e, 2);
            && ListsOk(Without(lru, e), Without(inUse, e) + [e], handles')
            && ChargeOf(handles', Without(lru, e)) + ChargeOf(handles', Without(inUse, e) + [e])
               == ChargeOf(handles, lru) + ChargeOf(handles, inUse)
  {
    var handles' := WithRefs(handles, e, 2);
    NotThere(inUse, e);
    WithoutOnce(lru, e);
    AppendOnce(inUse, e);
    ChargeWithout(handles, lru, e);
    ChargeAppended(handles, inUse, e);
    SameCharges(handles, handles', Without(lru, e));
    SameCharges(handles, handles', inUse + [e]);
  }

  lemma MovesToLru(lru: seq<Id>, inUse: seq<Id>, handles: Handles, e: Id)
    requires ListsOk(lru, inUse, handles) && e in handles && handles[e].inCache && handles[e].refs == 2
    ensures var handles' := WithRefs(handles, e, 1);
            && ListsOk(Without(lru, e) + [e], Without(inUse, e), handles')
            && ChargeOf(handles', Without(lru, e) + [e]) + ChargeOf(handles', Without(inUse, e))
               == ChargeOf(handles, lru) + ChargeOf(handles, inUse)
  {
    var handles' := WithRefs(handles, e, 1);
    NotThere(lru, e);
    WithoutOnce(inUse, e);
    AppendOnce(lru, e);
    ChargeWithout(handles, inUse, e);
    ChargeAppended(handles, lru, e);
    SameCharges(handles, handles', Without(inUse, e));
    SameCharges(handles, handles', lru + [e]);
  }

  /** A change of references that does not move the entry. */
  lemma StaysOnList(lru: seq<Id>, inUse: seq<Id>, handles: Handles, e: Id, refs: nat)
    requires ListsOk(lru, inUse, handles) && e in handles && (handles[e].inCache ==> handles[e].refs >= 2 && refs >= 2)
    ensures ListsOk(lru, inUse, WithRefs(handles, e, refs))
    ensures ChargeOf(WithRefs(handles, e, refs), lru) + ChargeOf(WithRefs(handles, e, refs), inUse)
            == ChargeOf(handles, lru) + ChargeOf(handles, inUse)
  {
    SameCharges(handles, WithRefs(handles, e, refs), lru);
    SameCharges(handles, WithRefs(handles, e, refs), inUse);
  }

  /** Only the lists, the references of e and the counts of its clients have changed. */
  lemma ListsMoved(c: Cache, e: Id, lru: seq<Id>, inUse: seq<Id>, refs: nat, n: nat, hashOf: Key -> nat)
    requires Counted(c, hashOf) && e in c.handles
    requires ListsOk(lru, inUse, WithRefs(c.handles, e, refs))
    requires refs >= 1 && refs == n + if c.handles[e].inCache then 1 else 0
    requires ChargeOf(WithRefs(c.handles, e, refs), lru) + ChargeOf(WithRefs(c.handles, e, refs), inUse)
             == ChargeOf(c.handles, c.lru) + ChargeOf(c.handles, c.inUse)
    ensures Counted(c.(lru := lru, inUse := inUse, handles := WithRefs(c.handles, e, refs),
                       clients := c.clients[e := n]), hashOf)
  {
    hide ListsOk;
    hide ChargeOf;
    hide DeletedOk;
    hide RefsOk;
    hide HashesOk;
    RefsChange(c.handles, c.clients, e, refs, n, hashOf);
    hide WithRefs;
  }

  lemma ListsStay(c: Cache, e: Id, refs: nat, n: nat, hashOf: Key -> nat)
    requires Counted(c, hashOf) && e in c.handles
    requires c.handles[e].inCache ==> c.handles[e].refs >= 2 && refs >= 2
    requires refs >= 1 && refs == n + if c.handles[e].inCache then 1 else 0
    ensures Counted(c.(handles := WithRefs(c.handles, e, refs), clients := c.clients[e := n]), hashOf)
  {
    StaysOnList(c.lru, c.inUse, c.handles, e, refs);
    hide ListsOk;
    hide ChargeOf;
    hide DeletedOk;
    hide RefsOk;
    hide HashesOk;
    RefsChange(c.handles, c.clients, e, refs, n, hashOf);
    hide WithRefs;
  }

  lemma ReffedUnused(c: Cache, e: Id, hashOf: Key -> nat)
    requires Counted(c, hashOf) && e in c.handles && c.handles[e].inCache && c.handles[e].refs == 1
    ensures e in c.clients && Counted(Reffed(c, e), hashOf)
  {
    hide DeletedOk;
    hide HashesOk;
    hide ChargeOf;
    hide ListsOk;
    assert e in c.clients && c.clients[e] == 0;
    MovesToUse(c.lru, c.inUse, c.handles, e);
    hide RefsOk;
    hide Counted;
    hide Without;
    ListsMoved(c, e, Without(c.lru, e), Without(c.inUse, e) + [e], 2, 1, hashOf);
  }

  lemma ReffedUsed(c: Cache, e: Id, hashOf: Key -> nat)
    requires Counted(c, hashOf) && e in c.handles && c.handles[e].inCache && c.handles[e].refs >= 2
    ensures e in c.clients && Counted(Reffed(c, e), hashOf)
  {
    hide DeletedOk;
    hide HashesOk;
    hide ChargeOf;
    hide ListsOk;
    var refs := c.handles[e].refs;
    assert e in c.clients && refs == c.clients[e] + 1;
    hide RefsOk;
    hide Counted;
    hide WithRefs;
    ListsStay(c, e, refs + 1, c.clients[e] + 1, hashOf);
  }

  lemma ReffedKeeps(c: Cache, e: Id, hashOf: Key -> nat)
    requires Counted(c, hashOf) && e in c.handles && c.handles[e].inCache
    ensures e in c.clients && Counted(Reffed(c, e), hashOf)
  {
    assert c.handles[e].refs >= 1;
    hide Counted;
    if c.handles[e].refs == 1 { ReffedUnused(c, e, hashOf); } else { ReffedUsed(c, e, hashOf); }
  }

  /** A handle outside the cache disappears with its last reference. */
  lemma DeletedKeeps(c: Cache, e: Id, hashOf: Key -> nat)
    requires ListsOk(c.lru, c.inUse, c.handles) && DeletedOk(c.deleted, c.handles.Keys, c.nextId)
             && HashesOk(c.handles, hashOf)
    requires c.usage == ChargeOf(c.handles, c.lru) + ChargeOf(c.handles, c.inUse)
    requires e in c.handles && !c.handles[e].inCache && RefsOk(c.handles - {e}, c.clients - {e})
    ensures Counted(c.(handles := c.handles - {e}, clients := c.clients - {e}, deleted := c.deleted + [e]), hashOf)
  {
    var handles' := c.handles - {e};
    SameCharges(c.handles, handles', c.lru);
    SameCharges(c.handles, handles', c.inUse);
    AppendOnce(c.deleted, e);
    assert handles'.Keys == c.handles.Keys - {e};
    hide ChargeOf;
    hide RefsOk;
  }

  lemma ReleasedLast(c: Cache, e: Id, hashOf: Key -> nat)
    requires Counted(c, hashOf) && e in c.handles && c.handles[e].refs == 1 && c.clients[e] > 0
    ensures Counted(Released(c, e), hashOf)
  {
    DeletedKeeps(c, e, hashOf);
    hide Counted;
    assert c.clients[e := c.clients[e] - 1] - {e} == c.clients - {e};
  }

  lemma ReleasedUnused(c: Cache, e: Id, hashOf: Key -> nat)
    requires Counted(c, hashOf) && e in c.handles && c.handles[e].inCache && c.handles[e].refs == 2
    ensures e in c.clients && c.clients[e] == 1 && Counted(Released(c, e), hashOf)
  {
    hide DeletedOk;
    hide HashesOk;
    hide ChargeOf;
    hide ListsOk;
    assert e in c.clients && c.clients[e] == 1;
    MovesToLru(c.lru, c.inUse, c.handles, e);
    hide RefsOk;
    hide Counted;
    hide Without;
    ListsMoved(c, e, Without(c.lru, e) + [e], Without(c.inUse, e), 1, 0, hashOf);
  }

  lemma ReleasedUsed(c: Cache, e: Id, hashOf: Key -> nat)
    requires Counted(c, hashOf) && e in c.handles && e in c.clients && c.clients[e] > 0
    requires c.handles[e].refs >= 2 && !(c.handles[e].inCache && c.handles[e].refs == 2)
    ensures Counted(Released(c, e), hashOf)
  {
    hide DeletedOk;
    hide HashesOk;
    hide ChargeOf;
    hide ListsOk;
    var refs := c.handles[e].refs;
    assert refs == c.clients[e] + if c.handles[e].inCache then 1 else 0;
    hide RefsOk;
    hide Counted;
    hide WithRefs;
    ListsStay(c, e, refs - 1, c.clients[e] - 1, hashOf);
  }

  lemma ReleasedKeeps(c: Cache, e: Id, hashOf: Key -> nat)
    requires Counted(c, hashOf) && e in c.handles && e in c.clients && c.clients[e] > 0
    ensures c.handles[e].refs > 0 && Counted(Released(c, e), hashOf)
  {
    assert c.handles[e].refs >= 1;
    hide Counted;
    if c.handles[e].refs == 1 {
      ReleasedLast(c, e, hashOf);
    } else if c.handles[e].inCache && c.handles[e].refs == 2 {
      ReleasedUnused(c, e, hashOf);
    } else {
      ReleasedUsed(c, e, hashOf);
    }
  }

  /** The entry leaves the lists and the cache; its references are the clients' only. */
  lemma ErasedKeeps(c: Cache, e: Id, hashOf: Key -> nat)
    requires Counted(c, hashOf) && e in c.handles && c.handles[e].inCache
    ensures c.handles[e].refs > 0 && Counted(Erased(c, e), hashOf)
  {
    var h := c.handles[e].(inCache := false);
    var c' := Unlinked(c, e).(usage := c.usage - h.charge, handles := c.handles[e := h]);
    UnlinkedLists(c.lru, c.inUse, c.handles, e);
    if h.refs == 1 {
      assert RefsOk(c'.handles - {e}, c'.clients - {e});
      assert c'.handles.Keys == c.handles.Keys;
      DeletedKeeps(c', e, hashOf);
    } else {
      ErasedStays(c, e, hashOf);
    }
  }

  lemma UnlinkedLists(lru: seq<Id>, inUse: seq<Id>, handles: Handles, e: Id)
    requires ListsOk(lru, inUse, handles) && e in handles && handles[e].inCache && handles[e].refs >= 1
    ensures var handles' := handles[e := handles[e].(inCache := false)];
            && ListsOk(Without(lru, e), Without(inUse, e), handles')
            && ChargeOf(handles', Without(lru, e)) + ChargeOf(handles', Without(inUse, e))
               == ChargeOf(handles, lru) + ChargeOf(handles, inUse) - handles[e].charge
  {
    var handles' := handles[e := handles[e].(inCache := false)];
    WithoutOnce(lru, e);
    WithoutOnce(inUse, e);
    if e in lru {
      NotThere(inUse, e);
      ChargeWithout(handles, lru, e);
    } else {
      NotThere(lru, e);
      ChargeWithout(handles, inUse, e);
    }
    SameCharges(handles, handles', Without(lru, e));
    SameCharges(handles, handles', Without(inUse, e));
  }

  lemma ErasedRefs(handles: Handles, clients: map<Id, nat>, e: Id, hashOf: Key -> nat)
    requires RefsOk(handles, clients) && HashesOk(handles, hashOf) && e in handles && handles[e].inCache
             && handles[e].refs >= 2
    ensures var handles' := WithRefs(handles[e := handles[e].(inCache := false)], e, handles[e].refs - 1);
            RefsOk(handles', clients) && HashesOk(handles', hashOf)
  {
  }

  lemma ErasedStays(c: Cache, e: Id, hashOf: Key -> nat)
    requires Counted(c, hashOf) && e in c.handles && c.handles[e].inCache && c.handles[e].refs >= 2
    ensures Counted(Erased(c, e), hashOf)
  {
    hide ListsOk;
    hide ChargeOf;
    hide RefsOk;
    hide HashesOk;
    hide DeletedOk;
    hide Without;
    var h := c.handles[e].(inCache := false);
    var handles1 := c.handles[e := h];
    UnlinkedLists(c.lru, c.inUse, c.handles, e);
    StaysOnList(Without(c.lru, e), Without(c.inUse, e), handles1, e, h.refs - 1);
    ErasedRefs(c.handles, c.clients, e, hashOf);
    assert WithRefs(handles1, e, h.refs - 1).Keys == c.handles.Keys;
    hide WithRefs;
  }

  lemma AddedKeeps(c: Cache, key: Key, charge: nat, cached: bool, hashOf: Key -> nat)
    requires Counted(c, hashOf)
    ensures Counted(Added(c, key, hashOf(key), charge, cached), hashOf) && c.nextId !in c.handles
  {
    hide ChargeOf;
    var e, c' := c.nextId, Added(c, key, hashOf(key), charge, cached);
    SameCharges(c.handles, c'.handles, c.lru);
    SameCharges(c.handles, c'.handles, c.inUse);
    if cached {
      AppendOnce(c.inUse, e);
      ChargeAppended(c'.handles, c.inUse, e);
    }
    assert c'.handles.Keys == c.handles.Keys + {e};
  }

  // ---- what is in the cache ----

  lemma ReffedCached(c: Cache, e: Id)
    requires e in c.handles && e in c.clients
    ensures Cached(Reffed(c, e).handles) == Cached(c.handles)
  {
    SameCached(c.handles, WithRefs(c.handles, e, c.handles[e].refs + 1));
  }

  lemma SameCached(handles: Handles, handles': Handles)
    requires forall e :: e in handles && handles[e].inCache <==> e in handles' && handles'[e].inCache
    requires forall e :: e in handles && e in handles' ==> ItemOf(e, handles'[e]) == ItemOf(e, handles[e])
    ensures Cached(handles') == Cached(handles)
  {
  }

  lemma ReleasedCached(c: Cache, e: Id)
    requires e in c.handles && c.handles[e].refs > 0 && e in c.clients && c.clients[e] > 0
    requires c.handles[e].refs == 1 ==> !c.handles[e].inCache
    ensures Cached(Released(c, e).handles) == Cached(c.handles)
  {
    SameCached(c.handles, Released(c, e).handles);
  }

  lemma ErasedCached(c: Cache, e: Id)
    requires e in c.handles && c.handles[e].refs > 0 && c.handles[e].inCache
    ensures Cached(Erased(c, e).handles) == Cached(c.handles) - {ItemOf(e, c.handles[e])}
  {
    var handles' := Erased(c, e).handles;
    forall x | x in Cached(c.handles) - {ItemOf(e, c.handles[e])} ensures x in Cached(handles') {
      assert x.id in c.handles && x.id != e;
      assert x.id in handles' && handles'[x.id] == c.handles[x.id];
    }
  }

  lemma AddedCached(c: Cache, key: Key, hash: nat, charge: nat, cached: bool)
    requires c.nextId !in c.handles
    ensures Cached(Added(c, key, hash, charge, cached).handles)
            == Cached(c.handles) + if cached then {Item(c.nextId, key, hash)} else {}
  {
    var handles' := Added(c, key, hash, charge, cached).handles;
    forall x | x in Cached(c.handles) ensures x in Cached(handles') {
      assert x.id in c.handles && handles'[x.id] == c.handles[x.id];
    }
    if cached {
      assert ItemOf(c.nextId, handles'[c.nextId]) in Cached(handles');
    }
  }

  lemma EmptyCache(hashOf: Key -> nat)
    ensures Counted(Cache(0, [], [], map[], 0, map[], []), hashOf) && Cached(map[]) == {}
  {
  }

  class LRUCache {
    ghost const hashOf: Key -> nat
    var capacity: nat
    var usage: int
    var lru: seq<Id>    // oldest first
    var inUse: seq<Id>
    var handles: Handles
    var nextId: Id
    const table: HandleTable
    ghost var clients: map<Id, nat>
    ghost var deleted: seq<Id>

    ghost function View(): Cache
      reads this
    { Cache(usage, lru, inUse, handles, nextId, clients, deleted) }

    ghost predicate Valid()
      reads this, table
    {
      Counted(View(), hashOf) && table.Valid() && table.Items() == Cached(handles)
    }

    constructor (ghost hashOf: Key -> nat, capacity: nat)
      ensures Valid() && fresh(table) && this.hashOf == hashOf && this.capacity == capacity && handles == map[]
    {
      hide ItemsOf;
      hide HandleTable.Valid;
      hide Counted;
      hide Cached;
      this.hashOf, this.capacity := hashOf, capacity;
      usage, lru, inUse, handles, nextId, clients, deleted := 0, [], [], map[], 0, map[], [];
      table := new HandleTable();
      new;
      EmptyCache(hashOf);
    }

    /** LRU_Remove */
    method LRURemove(e: Id)
      modifies this`lru, this`inUse
      ensures lru == Without(old(lru), e) && inUse == Without(old(inUse), e)
    {
      lru, inUse := Without(lru, e), Without(inUse, e);
    }

    method Ref(e: Id)
      requires e in handles && e in clients
      modifies this`lru, this`inUse, this`handles, this`clients
      ensures View() == Reffed(old(View()), e)
    {
      if handles[e].refs == 1 && handles[e].inCache {
        LRURemove(e);
        inUse := inUse + [e];
      }
      handles := handles[e := handles[e].(refs := handles[e].refs + 1)];
      clients := clients[e := clients[e] + 1];
    }

    method Unref(e: Id)
      requires e in handles && handles[e].refs > 0
      modifies this`lru, this`inUse, this`handles, this`clients, this`deleted
      ensures View() == Unreffed(old(View()), e)
    {
      var refs := handles[e].refs - 1;
      if refs == 0 {
        handles, clients, deleted := handles - {e}, clients - {e}, deleted + [e];  // deleter and free
        return;
      }
      if handles[e].inCache && refs == 1 {
        LRURemove(e);
        lru := lru + [e];
      }
      handles := handles[e := handles[e].(refs := refs)];
    }

    /** FinishErase of an entry just removed from the hash table. */
    method FinishErase(e: Id)
      requires e in handles && handles[e].refs > 0
      modifies this`lru, this`inUse, this`handles, this`clients, this`deleted, this`usage
      ensures View() == Erased(old(View()), e)
    {
      LRURemove(e);
      handles := handles[e := handles[e].(inCache := false)];
      usage := usage - handles[e].charge;
      Unref(e);
    }

    method Lookup(key: Key, hash: nat) returns (r: Option<Id>)
      requires Valid() && hash == hashOf(key)
      modifies this
      ensures Valid() && table.Items() == old(table.Items())
      ensures match r
              case None => View() == old(View()) && forall x :: x in table.Items() ==> x.key != key
              case Some(e) => Item(e, key, hash) in table.Items() && e in clients
                              && e in old(handles) && e in old(clients) && View() == Reffed(old(View()), e)
                              && clients == old(clients)[e := clients[e]]
                              && e in old(clients) && clients[e] == old(clients[e]) + 1
    {
      HashesFit(key);
      r := table.Lookup(key, hash);
      if r.Some? {
        var e := r.value;
        assert e in handles && handles[e].inCache;
        ReffedKeeps(View(), e, hashOf);
        ReffedCached(View(), e);
        hide Counted;
        hide Cached;
        Ref(e);
      }
    }

    lemma HashesFit(key: Key)
      requires Valid()
      ensures NewHashFits(table.Items(), key, hashOf(key))
    {
    }

    method Release(e: Id)
      requires Valid() && e in handles && e in clients && clients[e] > 0
      modifies this
      ensures Valid() && table.Items() == old(table.Items()) && View() == Released(old(View()), e)
    {
      hide Counted;
      hide Cached;
      LastIsUncached(e);
      ReleasedKeeps(View(), e, hashOf);
      ReleasedCached(View(), e);
      clients := clients[e := clients[e] - 1];
      Unref(e);
    }

    lemma LastIsUncached(e: Id)
      requires Valid() && e in handles && e in clients && clients[e] > 0
      ensures handles[e].refs > 0 && (handles[e].refs == 1 ==> !handles[e].inCache)
    {
    }

    /** Take an entry out of the table and give up the cache's reference. */
    method EraseEntry(key: Key, hash: nat) returns (erased: Option<Id>)
      requires Valid() && hash == hashOf(key)
      modifies this, table
      ensures Valid() && capacity == old(capacity) && forall x :: x in table.Items() ==> x.key != key
      ensures match erased
              case None => View() == old(View()) && table.Items() == old(table.Items())
              case Some(e) => e in old(handles) && old(handles[e].refs) > 0 && View() == Erased(old(View()), e)
                              && Item(e, key, hash) in old(table.Items())
                                 && table.Items() == old(table.Items()) - {Item(e, key, hash)}
    {
      HashesFit(key);
      erased := table.Remove(key, hash);
      if erased.Some? {
        var e := erased.value;
        CachedEntry(View(), Item(e, key, hash), hashOf);
        ErasedKeeps(View(), e, hashOf);
        ErasedCached(View(), e);
        hide Counted;
        hide Cached;
        FinishErase(e);
      }
    }

    method Erase(key: Key, hash: nat)
      requires Valid() && hash == hashOf(key)
      modifies this, table
      ensures Valid() && table.Items() == old(set x | x in table.Items() && x.key != key)
    {
      ghost var items := table.Items();
      var erased := EraseEntry(key, hash);
      assert forall x :: x in items && x !in table.Items() ==> erased.Some? && x == Item(erased.value, key, hash);
    }

    /** Insert: the entry replaces one with the same key; then unused entries are evicted
        until the rest fits.  With capacity 0 nothing is cached. */
    method Insert(key: Key, hash: nat, charge: nat) returns (e: Id)
      requires Valid() && hash == hashOf(key)
      modifies this, table
      ensures Valid() && e == old(nextId) && e in handles && e in clients && clients[e] == 1
      ensures if capacity > 0 then Item(e, key, hash) in table.Items() else forall x :: x in table.Items() ==> x.id != e
      ensures table.Items() <= old(table.Items()) + {Item(e, key, hash)}
      ensures forall x :: x in old(table.Items()) && x !in table.Items() ==>
                (capacity > 0 && x.key == key) || x.id in old(lru)
      ensures usage <= capacity || lru == []
      ensures exists rest :: Remaining(old(lru), old(handles), key, rest)
                             && JustEnough(rest, lru, old(handles), usage, capacity)
      ensures old(deleted) <= deleted
    {
      UnusedAreHandles();
      if capacity > 0 {
        e := InsertCached(key, hash, charge);
      } else {
        NewIsUnknown(View(), hashOf);
        AddedKeeps(View(), key, charge, false, hashOf);
        AddedCached(View(), key, hash, charge, false);
        hide Counted;
        hide Cached;
        e := NewHandle(key, hash, charge, false);
      }
      NotUnused(e);
      hide Counted;
      hide Cached;
      hide JustEnough;
      ghost var rest, between := lru, handles;
      Evict();
      SameEnough(rest, lru, between, old(handles), usage, capacity);
    }

    method NewHandle(key: Key, hash: nat, charge: nat, cached: bool) returns (e: Id)
      modifies this
      ensures View() == Added(old(View()), key, hash, charge, cached) && e == old(nextId) && capacity == old(capacity)
    {
      e := nextId;
      handles := handles[e := Handle(key, hash, charge, cached, if cached then 2 else 1)];
      clients, nextId := clients[e := 1], e + 1;
      if cached {
        inUse, usage := inUse + [e], usage + charge;
      }
    }

    method InsertCached(key: Key, hash: nat, charge: nat) returns (e: Id)
      requires Valid() && hash == hashOf(key)
      modifies this, table
      ensures Valid() && capacity == old(capacity) && e == old(nextId)
      ensures e in handles && handles[e].refs == 2 && handles[e].inCache && e in clients && clients[e] == 1
      ensures table.Items() == old(set x | x in table.Items() && x.key != key) + {Item(e, key, hash)}
      ensures old(deleted) <= deleted && Remaining(old(lru), old(handles), key, lru)
      ensures forall x :: x in lru ==>
                x in old(lru) && x in handles && x in old(handles) && handles[x] == old(handles)[x]
    {
      hide Counted;
      hide Cached;
      hide HandleTable.Valid;
      hide ItemsOf;
      ghost var c := View();
      UnusedAreHandles();
      NewIsUnknown(c, hashOf);
      AddedKeeps(c, key, charge, true, hashOf);
      AddedCached(c, key, hash, charge, true);
      HashesFit(key);
      table.OnePerKey();
      e := NewHandle(key, hash, charge, true);
      var replaced := table.Insert(Item(e, key, hash));
      if replaced.Some? {
        FinishReplace(replaced.value, e, key, hash);
        assert c.handles[replaced.value].key == key;
      }
    }

    /** The entry that the new one replaces leaves the cache. */
    method FinishReplace(e: Id, newer: Id, ghost key: Key, ghost hash: nat)
      requires Counted(View(), hashOf) && table.Valid() && Item(e, key, hash) in Cached(handles)
      requires table.Items() == Cached(handles) - {Item(e, key, hash)}
      requires newer != e && newer in handles && newer in clients
      modifies this
      ensures Valid() && capacity == old(capacity) && nextId == old(nextId)
      ensures newer in handles && handles[newer] == old(handles[newer])
      ensures newer in clients && clients[newer] == old(clients[newer]) && old(deleted) <= deleted
      ensures e in old(handles) && old(handles)[e].key == key
      ensures lru == Without(old(lru), e) && forall x :: x in lru ==> x in old(lru) && x != e
      ensures forall x :: x in old(handles) && x != e ==> x in handles && handles[x] == old(handles)[x]
    {
      CachedEntry(View(), Item(e, key, hash), hashOf);
      ErasedKeeps(View(), e, hashOf);
      ErasedCached(View(), e);
      ErasedElsewhere(View(), e, newer);
      hide Counted;
      hide Cached;
      hide Erased;
      FinishErase(e);
    }

    lemma NotUnused(e: Id)
      requires Valid() && e in handles && !(handles[e].inCache && handles[e].refs == 1)
      ensures e !in lru && e in clients
    {
    }

    lemma UnusedAreHandles()
      requires Valid()
      ensures forall x :: x in lru ==> x in handles && x < nextId
    {
    }

    /** The loop at the end of Insert: evict the oldest unused entries, and no more than
        it takes. */
    method Evict()
      requires Valid()
      modifies this, table
      ensures Valid() && capacity == old(capacity) && nextId == old(nextId)
      ensures (usage <= capacity || lru == []) && inUse == old(inUse)
      ensures JustEnough(old(lru), lru, old(handles), usage, capacity)
      ensures table.Items() <= old(table.Items())
      ensures forall x :: x in old(table.Items()) && x !in table.Items() ==> x.id in old(lru) && x.id !in lru
      ensures old(deleted) <= deleted
      ensures forall e :: e in old(handles) && e in old(clients) && e !in old(lru) ==>
                e in handles && handles[e] == old(handles[e]) && e in clients && clients[e] == old(clients[e])
    {
      hide Suffix;
      hide View;
      hide Counted;
      hide Cached;
      hide JustEnough;
      hide HandleTable.Valid;
      hide ItemsOf;
      UnusedAreHandles();
      NoneGone(lru, handles, usage, capacity);
      while usage > capacity && lru != []
        invariant Valid() && capacity == old(capacity) && nextId == old(nextId)
        invariant JustEnough(old(lru), lru, old(handles), usage, capacity) && Suffix(lru, old(lru))
        invariant inUse == old(inUse) && table.Items() <= old(table.Items())
        invariant forall e :: e in lru ==> e in old(handles) && e in handles && handles[e] == old(handles)[e]
        invariant forall x :: x in old(table.Items()) && x !in table.Items() ==> x.id in old(lru) && x.id !in lru
        invariant old(deleted) <= deleted
        invariant forall e :: e in old(handles) && e in old(clients) && e !in old(lru) ==>
                    e in handles && handles[e] == old(handles[e]) && e in clients && clients[e] == old(clients[e])
        decreases |lru|
      {
        OneMoreGone(old(lru), lru, old(handles), usage, capacity);
        EvictOldest();
      }
    }

    method EvictOldest()
      requires Valid() && lru != []
      modifies this, table
      ensures Valid() && capacity == old(capacity) && nextId == old(nextId) && lru == old(lru)[1..]
              && inUse == old(inUse)
      ensures table.Items() == old(table.Items()) - {ItemOf(old(lru)[0], old(handles)[old(lru)[0]])}
      ensures old(lru)[0] in old(handles) && usage == old(usage) - old(handles)[old(lru)[0]].charge
      ensures handles == old(handles) - {old(lru)[0]} && clients == old(clients) - {old(lru)[0]}
              && deleted == old(deleted) + [old(lru)[0]]
      ensures old(lru)[0] !in inUse && old(lru)[0] in old(handles) && old(lru)[0] !in lru
      ensures forall x :: x in table.Items() ==> x.id != old(lru)[0]
    {
      var e := lru[0];
      OldestIsCached();
      ErasedUnused(View(), e);
      ghost var c, items := View(), table.Items();
      hide Counted;
      hide Erased;
      hide ListsOk;
      var erased := EraseEntry(handles[e].key, handles[e].hash);
      assert ItemOf(e, c.handles[e]) !in table.Items();
      assert erased == Some(e);
    }

    lemma OldestIsCached()
      requires Valid() && lru != []
      ensures lru[0] in handles && handles[lru[0]].inCache && handles[lru[0]].refs == 1 && lru[0] !in inUse
              && lru[0] !in lru[1..]
      ensures handles[lru[0]].hash == hashOf(handles[lru[0]].key) && ItemOf(lru[0], handles[lru[0]]) in table.Items()
      ensures forall x :: x in table.Items() && x.key == handles[lru[0]].key ==> x == ItemOf(lru[0], handles[lru[0]])
    {
      assert lru[0] in lru;
      table.OnePerKey();
    }

    /** Prune: all unused entries go. */
    method Prune()
      requires Valid()
      modifies this, table
      ensures Valid() && lru == [] && inUse == old(inUse)
      ensures forall x :: x in table.Items() <==> x in old(table.Items()) && x.id !in old(lru)
    {
      hide Counted;
      hide Cached;
      while lru != []
        invariant Valid() && Suffix(lru, old(lru)) && inUse == old(inUse)
        invariant forall x :: x in table.Items() <==> x in old(table.Items()) && (x.id in old(lru) ==> x.id in lru)
        decreases |lru|
      {
        EvictOldest();
      }
    }
  }

  /** Evicting an unused entry leaves everything else as it is. */
  lemma ErasedUnused(c: Cache, e: Id)
    requires c.lru != [] && e == c.lru[0] && e in c.handles && c.handles[e].refs == 1 && e !in c.inUse
    ensures var c' := Erased(c, e);
            && c'.lru == c.lru[1..] && c'.inUse == c.inUse && c'.handles == c.handles - {e} && c'.nextId == c.nextId
            && c'.clients == c.clients - {e} && c'.deleted == c.deleted + [e]
            && c'.usage == c.usage - c.handles[e].charge
  {
    NotThere(c.inUse, e);
    assert c.handles[e := c.handles[e].(inCache := false)] - {e} == c.handles - {e};
  }

  /** The unused entries, without the one that has the key. */
  ghost predicate Remaining(lru: seq<Id>, handles: Handles, key: Key, rest: seq<Id>) {
    rest == lru || exists e :: e in handles && handles[e].key == key && rest == Without(lru, e)
  }

  lemma NewIsUnknown(c: Cache, hashOf: Key -> nat)
    requires Counted(c, hashOf)
    ensures c.nextId !in c.handles && c.nextId !in c.deleted && forall x :: x in Cached(c.handles) ==> x.id < c.nextId
  {
  }

  lemma ErasedElsewhere(c: Cache, e: Id, other: Id)
    requires e in c.handles && c.handles[e].refs > 0 && other != e && other in c.handles && other in c.clients
    ensures var c' := Erased(c, e);
            && other in c'.handles && c'.handles[other] == c.handles[other] && other in c'.clients
            && c'.clients[other] == c.clients[other] && c.deleted <= c'.deleted && c'.nextId == c.nextId
            && c'.lru == Without(c.lru, e)
    ensures forall x :: x in Without(c.lru, e) ==> x in c.lru
  {
    WithoutKeepsOthers(c.lru, e);
  }

  lemma {:induction false} WithoutKeepsOthers(list: seq<Id>, e: Id)
    ensures forall x :: x in Without(list, e) ==> x in list
  {
    if list != [] { WithoutKeepsOthers(list[1..], e); }
  }

  /** Entries have left from the old end only, and the last of them would not have fitted. */
  ghost predicate JustEnough(lru: seq<Id>, lru': seq<Id>, handles: Handles, usage: int, capacity: nat) {
    && Suffix(lru', lru)
    && (|lru'| < |lru| ==>
          var last := lru[|lru| - |lru'| - 1];
          last in handles && usage + handles[last].charge > capacity)
  }

  lemma NoneGone(lru: seq<Id>, handles: Handles, usage: int, capacity: nat)
    ensures JustEnough(lru, lru, handles, usage, capacity) && Suffix(lru, lru)
  {
  }

  lemma OneMoreGone(lru: seq<Id>, before: seq<Id>, handles: Handles, usage: int, capacity: nat)
    requires JustEnough(lru, before, handles, usage, capacity) && before != [] && before[0] in handles
             && usage > capacity
    ensures JustEnough(lru, before[1..], handles, usage - handles[before[0]].charge, capacity)
    ensures Suffix(before[1..], lru) && before[0] in lru && forall x :: x in before[1..] ==> x in lru
  {
  }

  lemma SameEnough(lru: seq<Id>, lru': seq<Id>, handles: Handles, handles': Handles, usage: int, capacity: nat)
    requires JustEnough(lru, lru', handles, usage, capacity)
    requires forall x :: x in lru ==> x in handles' && (x in handles ==> handles'[x] == handles[x])
    ensures JustEnough(lru, lru', handles', usage, capacity)
  {
  }

  ghost predicate Suffix(a: seq<Id>, b: seq<Id>) { |a| <= |b| && a == b[|b| - |a|..] }

  lemma CachedEntry(c: Cache, x: Item, hashOf: Key -> nat)
    requires x in Cached(c.handles)
    ensures x.id in c.handles && c.handles[x.id].inCache && x == ItemOf(x.id, c.handles[x.id])
  {
  }
}
