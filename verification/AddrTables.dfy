/** The address manager's indexes as one value, and what it means for them to agree. */
module AddrTables {

  const TRIED_BUCKET_COUNT := 256
  const NEW_BUCKET_COUNT := 1024
  const BUCKET_SIZE := 64
  const NEW_BUCKETS_PER_ADDRESS := 8
  const HORIZON_DAYS := 30
  const RETRIES := 3
  const MIN_FAIL_DAYS := 7
  const MAX_FAILURES := 10

  type NetAddr = seq<nat>

  datatype Service = Service(ip: NetAddr, port: nat)

  datatype Slot = Slot(bucket: nat, pos: nat)

  /** The keyed hashes, left arbitrary. */
  datatype Hashes = Hashes(
    tried: (nat, Service) -> nat,
    fresh_: (nat, Service, NetAddr) -> nat,
    position: (nat, bool, nat, Service) -> nat)

  /** What is known about an address. */
  datatype Stats = Stats(
    service: Service, source: NetAddr, time: int, services: bv64,
    lastTry: int, lastCountAttempt: int, lastSuccess: int, attempts: int)
  {
    predicate IsTerrible(now: int) {
      if lastTry != 0 && lastTry >= now - 60 then false
      else if time > now + 10 * 60 then true
      else if time == 0 || now - time > HORIZON_DAYS * 24 * 60 * 60 then true
      else if lastSuccess == 0 && attempts >= RETRIES then true
      else now - lastSuccess > MIN_FAIL_DAYS * 24 * 60 * 60 && attempts >= MAX_FAILURES
    }
  }

  /** An entry: what is known about the address and where it is kept. */
  datatype Info = Info(stats: Stats, refCount: int, inTried: bool, randomPos: int)

  type Infos = map<int, Info>
  type Table = map<Slot, int>

  /** Everything the manager keeps. A table slot that is absent holds no id. */
  datatype Tables = Tables(
    infos: Infos, addrs: map<NetAddr, int>, random: seq<int>,
    newTable: Table, triedTable: Table,
    nNew: int, nTried: int, idCount: int)

  /** The hashes together with the manager's secret key. */
  datatype Keyed = Keyed(hashes: Hashes, key: nat) {
    function InBucket(isNew: bool, bucket: nat, service: Service): (s: Slot)
      ensures s.bucket == bucket && s.pos < BUCKET_SIZE
    {
      Slot(bucket, hashes.position(key, isNew, bucket, service) % BUCKET_SIZE)
    }

    function TriedSlot(service: Service): (s: Slot)
      ensures s.bucket < TRIED_BUCKET_COUNT && s.pos < BUCKET_SIZE
    {
      InBucket(false, hashes.tried(key, service) % TRIED_BUCKET_COUNT, service)
    }

    function NewSlot(service: Service, source: NetAddr): (s: Slot)
      ensures s.bucket < NEW_BUCKET_COUNT && s.pos < BUCKET_SIZE
    {
      InBucket(true, hashes.fresh_(key, service, source) % NEW_BUCKET_COUNT, service)
    }
  }

  function TriedIds(infos: Infos): set<int> {
    set id | id in infos && infos[id].inTried
  }

  function NewIds(infos: Infos): set<int> {
    set id | id in infos && !infos[id].inTried
  }

  /** The new-table slots that hold an id. */
  function SlotsOf(table: Table, id: int): set<Slot> {
    set s | s in table && table[s] == id
  }

  /** mapInfo and mapAddr are inverse. */
  ghost predicate AddrsAgree(infos: Infos, addrs: map<NetAddr, int>) {
    && (forall id | id in infos :: infos[id].stats.service.ip in addrs && addrs[infos[id].stats.service.ip] == id)
    && (forall ip | ip in addrs :: addrs[ip] in infos && infos[addrs[ip]].stats.service.ip == ip)
  }

  /** mapInfo and vRandom are inverse. */
  ghost predicate RandomAgrees(infos: Infos, random: seq<int>) {
    && (forall id | id in infos :: 0 <= infos[id].randomPos < |random| && random[infos[id].randomPos] == id)
    && (forall p | 0 <= p < |random| :: random[p] in infos && infos[random[p]].randomPos == p)
    && |random| == |infos|
  }

  /** Tried entries sit at their one hashed slot, and nothing else is in the tried table. */
  ghost predicate TriedAgrees(k: Keyed, infos: Infos, table: Table) {
    && (forall s | s in table ::
          table[s] in infos && infos[table[s]].inTried && s == k.TriedSlot(infos[table[s]].stats.service))
    && (forall id | id in infos && infos[id].inTried ::
          k.TriedSlot(infos[id].stats.service) in table && table[k.TriedSlot(infos[id].stats.service)] == id)
  }

  /** Every new-table slot holds an entry hashed to that place in its bucket. */
  ghost predicate NewPlaced(k: Keyed, infos: Infos, table: Table) {
    forall s | s in table ::
      s.bucket < NEW_BUCKET_COUNT && table[s] in infos && s == k.InBucket(true, s.bucket, infos[table[s]].stats.service)
  }

  /** Every reference count counts the new-table slots. */
  ghost predicate RefsCounted(infos: Infos, table: Table) {
    forall id | id in infos :: infos[id].refCount == |SlotsOf(table, id)|
  }

  /** One entry's own numbers; `limbo` is for an entry between two tables. */
  ghost predicate InfoOk(i: Info, limbo: bool) {
    && (i.inTried ==> i.refCount == 0)
    && (limbo ==> !i.inTried && i.refCount == 0)
    && (!i.inTried && !limbo ==> 1 <= i.refCount <= NEW_BUCKETS_PER_ADDRESS)
  }

  ghost predicate InfosOk(infos: Infos, limbo: set<int>, idCount: int) {
    && limbo <= infos.Keys && 0 <= idCount
    && forall id | id in infos :: 0 <= id < idCount && InfoOk(infos[id], id in limbo)
  }

  /** The check's conditions on an entry's times. */
  ghost predicate TimesOk(infos: Infos) {
    forall id | id in infos ::
      infos[id].stats.lastTry >= 0 && infos[id].stats.lastSuccess >= 0 &&
      (infos[id].inTried ==> infos[id].stats.lastSuccess != 0)
  }

  /** All other conditions of the shipped consistency check, for tables in which the entries
      of `limbo` are in neither table and `extra` of them are still counted as new. */
  ghost predicate Sound(k: Keyed, t: Tables, limbo: set<int>, extra: int) {
    && AddrsAgree(t.infos, t.addrs) && RandomAgrees(t.infos, t.random)
    && TriedAgrees(k, t.infos, t.triedTable) && NewPlaced(k, t.infos, t.newTable) && RefsCounted(t.infos, t.newTable)
    && InfosOk(t.infos, limbo, t.idCount)
    && t.nTried == |TriedIds(t.infos)|
    && t.nNew == |NewIds(t.infos) - limbo| + extra
  }

  /** What Check_ accepts between calls. */
  ghost predicate Checked(k: Keyed, t: Tables) {
    k.key != 0 && Sound(k, t, {}, 0) && TimesOk(t.infos)
  }

  // ---- the small moves ----

  function Swapped(t: Tables, p: nat, q: nat): Tables
    requires p < |t.random| && q < |t.random|
    requires t.random[p] in t.infos && t.random[q] in t.infos
  {
    if p == q then t else
    var a, b := t.random[p], t.random[q];
    var infos := t.infos[a := t.infos[a].(randomPos := q)];
    t.(infos := infos[b := infos[b].(randomPos := p)], random := t.random[p := b][q := a])
  }

  /** The two maps hold the same entries up to their place in the random order. */
  ghost predicate SameButPositions(infos: Infos, infos': Infos) {
    && infos.Keys == infos'.Keys
    && forall id | id in infos :: infos[id] == infos'[id].(randomPos := infos[id].randomPos)
  }

  lemma SwappedKeeps(k: Keyed, t: Tables, limbo: set<int>, extra: int, p: nat, q: nat)
    requires Sound(k, t, limbo, extra) && p < |t.random| && q < |t.random|
    ensures Sound(k, Swapped(t, p, q), limbo, extra)
    ensures SameButPositions(t.infos, Swapped(t, p, q).infos)
  {
    hide Swapped;
    SwappedRandom(t, p, q);
    SwappedRest(t, p, q);
    PositionsDoNotMatter(k, t, Swapped(t, p, q), limbo, extra);
  }

  lemma SwappedRest(t: Tables, p: nat, q: nat)
    requires p < |t.random| && q < |t.random| && t.random[p] in t.infos && t.random[q] in t.infos
    ensures var u := Swapped(t, p, q); u == t.(infos := u.infos, random := u.random)
  {
  }

  lemma SwappedRandom(t: Tables, p: nat, q: nat)
    requires RandomAgrees(t.infos, t.random) && p < |t.random| && q < |t.random|
    ensures SameButPositions(t.infos, Swapped(t, p, q).infos)
    ensures RandomAgrees(Swapped(t, p, q).infos, Swapped(t, p, q).random)
  {
    var u := Swapped(t, p, q);
    if p != q {
      var a, b := t.random[p], t.random[q];
      assert a != b;
      assert u.infos.Keys == t.infos.Keys;
      assert |u.infos| == |u.infos.Keys| && |t.infos| == |t.infos.Keys|;
      forall id | id in u.infos
        ensures 0 <= u.infos[id].randomPos < |u.random| && u.random[u.infos[id].randomPos] == id
      {
        assert t.random[t.infos[id].randomPos] == id;
      }
      forall r | 0 <= r < |u.random| ensures u.random[r] in u.infos && u.infos[u.random[r]].randomPos == r
      {
        assert t.random[r] in t.infos && t.infos[t.random[r]].randomPos == r;
      }
    }
  }

  lemma SameIds(infos: Infos, infos': Infos)
    requires SameButPositions(infos, infos')
    ensures TriedIds(infos') == TriedIds(infos) && NewIds(infos') == NewIds(infos)
  {
    forall id ensures id in TriedIds(infos') <==> id in TriedIds(infos) {}
    forall id ensures id in NewIds(infos') <==> id in NewIds(infos) {}
  }

  lemma SameTables(k: Keyed, infos: Infos, infos': Infos, newTable: Table, triedTable: Table, addrs: map<NetAddr, int>)
    requires SameButPositions(infos, infos')
    requires TriedAgrees(k, infos, triedTable) && NewPlaced(k, infos, newTable) && RefsCounted(infos, newTable)
    requires AddrsAgree(infos, addrs)
    ensures TriedAgrees(k, infos', triedTable) && NewPlaced(k, infos', newTable) && RefsCounted(infos', newTable)
    ensures AddrsAgree(infos', addrs)
  {
    forall s | s in triedTable
      ensures infos'[triedTable[s]].inTried && s == k.TriedSlot(infos'[triedTable[s]].stats.service)
    {
      var id := triedTable[s];
      assert infos[id] == infos'[id].(randomPos := infos[id].randomPos);
    }
    forall s | s in newTable
      ensures s == k.InBucket(true, s.bucket, infos'[newTable[s]].stats.service)
    {
      var id := newTable[s];
      assert infos[id] == infos'[id].(randomPos := infos[id].randomPos);
    }
  }

  /** The random order is not looked at by any of the other conditions. */
  lemma PositionsDoNotMatter(k: Keyed, t: Tables, u: Tables, limbo: set<int>, extra: int)
    requires Sound(k, t, limbo, extra) && RandomAgrees(u.infos, u.random)
    requires u == t.(infos := u.infos, random := u.random)
    requires SameButPositions(t.infos, u.infos)
    ensures Sound(k, u, limbo, extra)
  {
    SameIds(t.infos, u.infos);
    SameTables(k, t.infos, u.infos, t.newTable, t.triedTable, t.addrs);
    forall id | id in u.infos ensures 0 <= id < u.idCount && InfoOk(u.infos[id], id in limbo)
    {
      assert InfoOk(t.infos[id], id in limbo);
    }
  }

  // ---- counting ----

  lemma SlotRemoved(table: Table, s: Slot, id: int)
    requires s in table
    ensures SlotsOf(table - {s}, id) == SlotsOf(table, id) - {s}
    ensures |SlotsOf(table - {s}, id)| == |SlotsOf(table, id)| - (if table[s] == id then 1 else 0)
  {
    forall r ensures r in SlotsOf(table - {s}, id) <==> r in SlotsOf(table, id) - {s} {}
    if table[s] == id {
      assert s in SlotsOf(table, id);
    } else {
      assert SlotsOf(table, id) - {s} == SlotsOf(table, id);
    }
  }

  lemma SlotAdded(table: Table, s: Slot, v: int, id: int)
    requires s !in table
    ensures |SlotsOf(table[s := v], id)| == |SlotsOf(table, id)| + (if v == id then 1 else 0)
  {
    SlotRemoved(table[s := v], s, id);
    assert table[s := v] - {s} == table;
  }

  lemma IdsUpdated(infos: Infos, id: int, i: Info)
    ensures i.inTried ==>
              TriedIds(infos[id := i]) == TriedIds(infos) + {id} && NewIds(infos[id := i]) == NewIds(infos) - {id}
    ensures !i.inTried ==>
              TriedIds(infos[id := i]) == TriedIds(infos) - {id} && NewIds(infos[id := i]) == NewIds(infos) + {id}
    ensures id in infos && i.inTried == infos[id].inTried ==>
              TriedIds(infos[id := i]) == TriedIds(infos) && NewIds(infos[id := i]) == NewIds(infos)
  {
    forall x | x != id ensures x in TriedIds(infos[id := i]) <==> x in TriedIds(infos) {}
    forall x | x != id ensures x in NewIds(infos[id := i]) <==> x in NewIds(infos) {}
    assert id in TriedIds(infos[id := i]) <==> i.inTried;
    assert id in NewIds(infos[id := i]) <==> !i.inTried;
  }

  lemma LessBoth<T>(a: set<T>, l: set<T>, x: T)
    requires x in l
    ensures (a - {x}) - (l - {x}) == a - l
  {
  }

  lemma MoreBoth<T>(a: set<T>, l: set<T>, x: T)
    requires x !in a
    ensures (a + {x}) - (l + {x}) == a - l
  {
  }

  lemma Without<T>(a: set<T>, x: T)
    requires x !in a
    ensures a - {x} == a
  {
  }

  lemma NotAnId(infos: Infos, id: int)
    requires id !in infos
    ensures id !in TriedIds(infos) && id !in NewIds(infos)
  {
  }

  lemma IdsRemoved(infos: Infos, id: int)
    ensures TriedIds(infos - {id}) == TriedIds(infos) - {id}
    ensures NewIds(infos - {id}) == NewIds(infos) - {id}
  {
    forall x ensures x in TriedIds(infos - {id}) <==> x in TriedIds(infos) - {id} {}
    forall x ensures x in NewIds(infos - {id}) <==> x in NewIds(infos) - {id} {}
  }

  // ---- one entry changed ----

  /** An entry keeps its service and its place in the random order whatever else changes. */
  ghost predicate SamePlace(infos: Infos, id: int, i: Info) {
    id in infos && i.stats.service == infos[id].stats.service && i.randomPos == infos[id].randomPos
  }

  lemma IndexesKept(infos: Infos, id: int, i: Info, addrs: map<NetAddr, int>, random: seq<int>)
    requires SamePlace(infos, id, i) && AddrsAgree(infos, addrs) && RandomAgrees(infos, random)
    ensures AddrsAgree(infos[id := i], addrs) && RandomAgrees(infos[id := i], random)
  {
    assert infos[id := i].Keys == infos.Keys;
    assert |infos[id := i]| == |infos[id := i].Keys|;
  }

  lemma NewPlacedKept(k: Keyed, infos: Infos, id: int, i: Info, table: Table)
    requires SamePlace(infos, id, i) && NewPlaced(k, infos, table)
    ensures NewPlaced(k, infos[id := i], table)
  {
    forall s | s in table ensures s == k.InBucket(true, s.bucket, infos[id := i][table[s]].stats.service)
    {
      assert s == k.InBucket(true, s.bucket, infos[table[s]].stats.service);
    }
  }

  lemma TriedKept(k: Keyed, infos: Infos, id: int, i: Info, table: Table)
    requires SamePlace(infos, id, i) && i.inTried == infos[id].inTried && TriedAgrees(k, infos, table)
    ensures TriedAgrees(k, infos[id := i], table)
  {
    forall s | s in table
      ensures infos[id := i][table[s]].inTried && s == k.TriedSlot(infos[id := i][table[s]].stats.service)
    {
      assert s == k.TriedSlot(infos[table[s]].stats.service);
    }
  }

  lemma InfosOkKept(infos: Infos, limbo: set<int>, limbo': set<int>, idCount: int, id: int, i: Info)
    requires InfosOk(infos, limbo, idCount) && 0 <= id < idCount
    requires limbo' - {id} == limbo - {id} && InfoOk(i, id in limbo')
    ensures InfosOk(infos[id := i], limbo', idCount)
  {
    forall x | x in infos && x != id ensures 0 <= x < idCount && InfoOk(infos[x], x in limbo')
    {
      assert x in limbo' <==> x in limbo' - {id};
      assert x in limbo <==> x in limbo - {id};
      assert InfoOk(infos[x], x in limbo);
    }
    forall x | x in limbo' ensures x in infos[id := i]
    {
      assert x == id || x in limbo - {id};
    }
  }

  function WithInfo(t: Tables, id: int, i: Info): Tables {
    t.(infos := t.infos[id := i])
  }

  /** Statistics may change freely as long as the service stays. */
  lemma StatsKept(k: Keyed, t: Tables, limbo: set<int>, extra: int, id: int, st: Stats)
    requires Sound(k, t, limbo, extra) && id in t.infos
    requires st.service == t.infos[id].stats.service
    ensures Sound(k, WithInfo(t, id, t.infos[id].(stats := st)), limbo, extra)
  {
    hide AddrsAgree, RandomAgrees, TriedAgrees, NewPlaced;
    var i := t.infos[id].(stats := st);
    assert InfoOk(t.infos[id], id in limbo);
    IdsUpdated(t.infos, id, i);
    IndexesKept(t.infos, id, i, t.addrs, t.random);
    NewPlacedKept(k, t.infos, id, i, t.newTable);
    TriedKept(k, t.infos, id, i, t.triedTable);
    InfosOkKept(t.infos, limbo, limbo, t.idCount, id, i);
    RefsKept(t.infos, id, i, t.newTable);
  }

  // ---- a new-table slot given up or taken ----

  function Unref(t: Tables, s: Slot): Tables
    requires s in t.newTable && t.newTable[s] in t.infos
  {
    var id := t.newTable[s];
    WithInfo(t, id, t.infos[id].(refCount := t.infos[id].refCount - 1)).(newTable := t.newTable - {s})
  }

  lemma RefsAfterUnref(infos: Infos, table: Table, s: Slot)
    requires RefsCounted(infos, table) && s in table && table[s] in infos
    ensures RefsCounted(infos[table[s] := infos[table[s]].(refCount := infos[table[s]].refCount - 1)], table - {s})
  {
    var infos' := infos[table[s] := infos[table[s]].(refCount := infos[table[s]].refCount - 1)];
    forall x | x in infos' ensures infos'[x].refCount == |SlotsOf(table - {s}, x)|
    {
      SlotRemoved(table, s, x);
      assert infos[x].refCount == |SlotsOf(table, x)|;
    }
  }

  lemma InfoOfEntry(infos: Infos, limbo: set<int>, idCount: int, id: int)
    requires InfosOk(infos, limbo, idCount) && id in infos
    ensures 0 <= id < idCount && InfoOk(infos[id], id in limbo)
    ensures id in NewIds(infos) <==> !infos[id].inTried
    ensures id in TriedIds(infos) <==> infos[id].inTried
  {
  }

  lemma LimboGrows(ids: set<int>, limbo: set<int>, id: int)
    requires id in ids && id !in limbo
    ensures |ids - (limbo + {id})| == |ids - limbo| - 1
  {
    assert ids - (limbo + {id}) == (ids - limbo) - {id};
  }

  lemma SlotHolder(k: Keyed, infos: Infos, table: Table, s: Slot)
    requires NewPlaced(k, infos, table) && RefsCounted(infos, table) && s in table
    ensures table[s] in infos && infos[table[s]].refCount >= 1
  {
    assert s in SlotsOf(table, table[s]);
  }

  lemma NewPlacedAfterUnref(k: Keyed, infos: Infos, table: Table, s: Slot)
    requires NewPlaced(k, infos, table)
    ensures NewPlaced(k, infos, table - {s})
  {
  }

  /** The entry that holds a slot of the new table. */
  lemma HolderFacts(k: Keyed, t: Tables, limbo: set<int>, extra: int, s: Slot)
    requires Sound(k, t, limbo, extra) && s in t.newTable
    ensures var id := t.newTable[s];
            && id in t.infos && id !in limbo && !t.infos[id].inTried &&
               1 <= t.infos[id].refCount <= NEW_BUCKETS_PER_ADDRESS
            && 0 <= id < t.idCount && id in NewIds(t.infos)
  {
    hide AddrsAgree, RandomAgrees, TriedAgrees, NewPlaced, RefsCounted, SlotsOf, InfosOk, TriedIds, NewIds;
    SlotHolder(k, t.infos, t.newTable, s);
    InfoOfEntry(t.infos, limbo, t.idCount, t.newTable[s]);
  }

  lemma UnrefIndexes(k: Keyed, t: Tables, s: Slot)
    requires AddrsAgree(t.infos, t.addrs) && RandomAgrees(t.infos, t.random)
    requires TriedAgrees(k, t.infos, t.triedTable) && NewPlaced(k, t.infos, t.newTable) &&
             RefsCounted(t.infos, t.newTable)
    requires s in t.newTable && t.newTable[s] in t.infos
    ensures var u := Unref(t, s);
            && AddrsAgree(u.infos, u.addrs) && RandomAgrees(u.infos, u.random)
            && TriedAgrees(k, u.infos, u.triedTable) && NewPlaced(k, u.infos, u.newTable) &&
               RefsCounted(u.infos, u.newTable)
  {
    hide AddrsAgree, RandomAgrees, TriedAgrees, NewPlaced, RefsCounted, SlotsOf;
    var id := t.newTable[s];
    var i := t.infos[id].(refCount := t.infos[id].refCount - 1);
    IndexesKept(t.infos, id, i, t.addrs, t.random);
    NewPlacedKept(k, t.infos, id, i, t.newTable);
    NewPlacedAfterUnref(k, t.infos[id := i], t.newTable, s);
    TriedKept(k, t.infos, id, i, t.triedTable);
    RefsAfterUnref(t.infos, t.newTable, s);
  }

  lemma UnrefCounts(k: Keyed, t: Tables, limbo: set<int>, extra: int, s: Slot)
    requires Sound(k, t, limbo, extra) && s in t.newTable && t.newTable[s] in t.infos
    ensures var u, id := Unref(t, s), t.newTable[s];
            var limbo' := if u.infos[id].refCount == 0 then limbo + {id} else limbo;
            && InfosOk(u.infos, limbo', u.idCount) && u.nTried == |TriedIds(u.infos)|
            && u.nNew == |NewIds(u.infos) - limbo'| + (if u.infos[id].refCount == 0 then extra + 1 else extra)
  {
    hide AddrsAgree, RandomAgrees, TriedAgrees, NewPlaced, RefsCounted, SlotsOf, InfosOk, TriedIds, NewIds;
    HolderFacts(k, t, limbo, extra, s);
    var id := t.newTable[s];
    var i := t.infos[id].(refCount := t.infos[id].refCount - 1);
    IdsUpdated(t.infos, id, i);
    var limbo' := if i.refCount == 0 then limbo + {id} else limbo;
    InfosOkKept(t.infos, limbo, limbo', t.idCount, id, i);
    LimboGrows(NewIds(t.infos), limbo, id);
  }

  /** Giving up a slot; an entry that loses its last one is in limbo. */
  lemma UnrefKeeps(k: Keyed, t: Tables, limbo: set<int>, extra: int, s: Slot)
    requires Sound(k, t, limbo, extra) && s in t.newTable
    ensures var id := t.newTable[s];
            && id in t.infos && id !in limbo && !t.infos[id].inTried &&
               1 <= t.infos[id].refCount <= NEW_BUCKETS_PER_ADDRESS
            && (if t.infos[id].refCount > 1 then Sound(k, Unref(t, s), limbo, extra)
                else Sound(k, Unref(t, s), limbo + {id}, extra + 1))
  {
    hide AddrsAgree, RandomAgrees, TriedAgrees, NewPlaced, RefsCounted, SlotsOf, InfosOk, TriedIds, NewIds;
    HolderFacts(k, t, limbo, extra, s);
    UnrefIndexes(k, t, s);
    UnrefCounts(k, t, limbo, extra, s);
  }

  function Ref(t: Tables, s: Slot, id: int): Tables
    requires id in t.infos
  {
    WithInfo(t, id, t.infos[id].(refCount := t.infos[id].refCount + 1)).(newTable := t.newTable[s := id])
  }

  lemma NewPlacedAfterRef(k: Keyed, infos: Infos, table: Table, s: Slot, id: int)
    requires NewPlaced(k, infos, table) && id in infos && s.bucket < NEW_BUCKET_COUNT
    requires s == k.InBucket(true, s.bucket, infos[id].stats.service)
    ensures NewPlaced(k, infos, table[s := id])
  {
  }

  lemma RefsAfterRef(infos: Infos, table: Table, s: Slot, id: int)
    requires RefsCounted(infos, table) && s !in table && id in infos
    ensures RefsCounted(infos[id := infos[id].(refCount := infos[id].refCount + 1)], table[s := id])
  {
    var infos' := infos[id := infos[id].(refCount := infos[id].refCount + 1)];
    forall x | x in infos' ensures infos'[x].refCount == |SlotsOf(table[s := id], x)|
    {
      SlotAdded(table, s, id, x);
      assert infos[x].refCount == |SlotsOf(table, x)|;
    }
  }

  /** Taking a free slot; an entry in limbo becomes a new entry. */
  lemma RefIndexes(k: Keyed, t: Tables, s: Slot, id: int)
    requires AddrsAgree(t.infos, t.addrs) && RandomAgrees(t.infos, t.random)
    requires TriedAgrees(k, t.infos, t.triedTable) && NewPlaced(k, t.infos, t.newTable) &&
             RefsCounted(t.infos, t.newTable)
    requires s !in t.newTable && s.bucket < NEW_BUCKET_COUNT && id in t.infos &&
             s == k.InBucket(true, s.bucket, t.infos[id].stats.service)
    ensures var u := Ref(t, s, id);
            && AddrsAgree(u.infos, u.addrs) && RandomAgrees(u.infos, u.random)
            && TriedAgrees(k, u.infos, u.triedTable) && NewPlaced(k, u.infos, u.newTable) &&
               RefsCounted(u.infos, u.newTable)
  {
    hide AddrsAgree, RandomAgrees, TriedAgrees, NewPlaced, RefsCounted, SlotsOf, Keyed.InBucket;
    var i := t.infos[id].(refCount := t.infos[id].refCount + 1);
    IndexesKept(t.infos, id, i, t.addrs, t.random);
    NewPlacedKept(k, t.infos, id, i, t.newTable);
    NewPlacedAfterRef(k, t.infos[id := i], t.newTable, s, id);
    TriedKept(k, t.infos, id, i, t.triedTable);
    RefsAfterRef(t.infos, t.newTable, s, id);
  }

  lemma RefCounts(k: Keyed, t: Tables, limbo: set<int>, extra: int, s: Slot, id: int)
    requires Sound(k, t, limbo, extra)
    requires id in t.infos && !t.infos[id].inTried && t.infos[id].refCount < NEW_BUCKETS_PER_ADDRESS
    ensures var u := Ref(t, s, id);
            && InfosOk(u.infos, limbo - {id}, u.idCount) && u.nTried == |TriedIds(u.infos)|
            && u.nNew == |NewIds(u.infos) - (limbo - {id})| + (if id in limbo then extra - 1 else extra)
  {
    hide AddrsAgree, RandomAgrees, TriedAgrees, NewPlaced, RefsCounted, InfosOk, TriedIds, NewIds;
    var i := t.infos[id].(refCount := t.infos[id].refCount + 1);
    InfoOfEntry(t.infos, limbo, t.idCount, id);
    IdsUpdated(t.infos, id, i);
    InfosOkKept(t.infos, limbo, limbo - {id}, t.idCount, id, i);
    if id in limbo {
      LimboGrows(NewIds(t.infos), limbo - {id}, id);
      assert (limbo - {id}) + {id} == limbo;
    } else {
      Without(limbo, id);
    }
  }

  lemma RefKeeps(k: Keyed, t: Tables, limbo: set<int>, extra: int, s: Slot, id: int)
    requires Sound(k, t, limbo, extra) && s !in t.newTable && s.bucket < NEW_BUCKET_COUNT
    requires id in t.infos && !t.infos[id].inTried && t.infos[id].refCount < NEW_BUCKETS_PER_ADDRESS
    requires s == k.InBucket(true, s.bucket, t.infos[id].stats.service)
    ensures if id in limbo then Sound(k, Ref(t, s, id), limbo - {id}, extra - 1)
            else Sound(k, Ref(t, s, id), limbo, extra)
  {
    hide AddrsAgree, RandomAgrees, TriedAgrees, NewPlaced, RefsCounted, InfosOk, TriedIds, NewIds, Ref, Keyed.InBucket;
    RefIndexes(k, t, s, id);
    RefCounts(k, t, limbo, extra, s, id);
    if id !in limbo {
      Without(limbo, id);
    }
  }

  // ---- into and out of the tried table ----

  function TakenFromTried(k: Keyed, t: Tables, id: int): Tables
    requires id in t.infos
  {
    WithInfo(t, id, t.infos[id].(inTried := false)).(
      triedTable := t.triedTable - {k.TriedSlot(t.infos[id].stats.service)}, nTried := t.nTried - 1)
  }

  lemma TakenKeeps(k: Keyed, t: Tables, limbo: set<int>, extra: int, id: int)
    requires Sound(k, t, limbo, extra) && id in t.infos && t.infos[id].inTried
    ensures id !in limbo && Sound(k, TakenFromTried(k, t, id), limbo + {id}, extra)
  {
    hide AddrsAgree, RandomAgrees, NewPlaced, TriedAgrees, RefsCounted, InfosOk, TriedIds, NewIds;
    var i := t.infos[id].(inTried := false);
    InfoOfEntry(t.infos, limbo, t.idCount, id);
    IdsUpdated(t.infos, id, i);
    IndexesKept(t.infos, id, i, t.addrs, t.random);
    NewPlacedKept(k, t.infos, id, i, t.newTable);
    TriedAfterTaken(k, t.infos, t.triedTable, id, i);
    InfosOkKept(t.infos, limbo, limbo + {id}, t.idCount, id, i);
    MoreBoth(NewIds(t.infos), limbo, id);
    RefsKept(t.infos, id, i, t.newTable);
  }

  lemma RefsKept(infos: Infos, id: int, i: Info, table: Table)
    requires RefsCounted(infos, table) && id in infos && i.refCount == infos[id].refCount
    ensures RefsCounted(infos[id := i], table)
  {
  }

  lemma TriedAfterTaken(k: Keyed, infos: Infos, table: Table, id: int, i: Info)
    requires TriedAgrees(k, infos, table) && id in infos && infos[id].inTried
    requires !i.inTried && i.stats.service == infos[id].stats.service
    ensures TriedAgrees(k, infos[id := i], table - {k.TriedSlot(i.stats.service)})
  {
    var table' := table - {k.TriedSlot(i.stats.service)};
    forall s | s in table'
      ensures table'[s] != id && infos[id := i][table'[s]].inTried &&
              s == k.TriedSlot(infos[id := i][table'[s]].stats.service)
    {
      assert s == k.TriedSlot(infos[table[s]].stats.service);
    }
    forall x | x in infos[id := i] && infos[id := i][x].inTried
      ensures k.TriedSlot(infos[x].stats.service) in table' && table'[k.TriedSlot(infos[x].stats.service)] == x
    {
      assert table[k.TriedSlot(infos[x].stats.service)] == x;
      assert table[k.TriedSlot(infos[id].stats.service)] == id;
    }
  }

  function PutInTried(k: Keyed, t: Tables, id: int): Tables
    requires id in t.infos
  {
    WithInfo(t, id, t.infos[id].(inTried := true)).(
      triedTable := t.triedTable[k.TriedSlot(t.infos[id].stats.service) := id], nTried := t.nTried + 1)
  }

  lemma PutKeeps(k: Keyed, t: Tables, limbo: set<int>, extra: int, id: int)
    requires Sound(k, t, limbo, extra) && id in limbo
    requires k.TriedSlot(t.infos[id].stats.service) !in t.triedTable
    ensures Sound(k, PutInTried(k, t, id), limbo - {id}, extra)
  {
    hide AddrsAgree, RandomAgrees, NewPlaced, TriedAgrees, RefsCounted, InfosOk, TriedIds, NewIds;
    InLimbo(t.infos, limbo, t.idCount, id);
    var i := t.infos[id].(inTried := true);
    InfoOfEntry(t.infos, limbo, t.idCount, id);
    IdsUpdated(t.infos, id, i);
    IndexesKept(t.infos, id, i, t.addrs, t.random);
    NewPlacedKept(k, t.infos, id, i, t.newTable);
    TriedAfterPut(k, t.infos, t.triedTable, id, i);
    InfosOkKept(t.infos, limbo, limbo - {id}, t.idCount, id, i);
    LessBoth(NewIds(t.infos), limbo, id);
    RefsKept(t.infos, id, i, t.newTable);
  }

  lemma InLimbo(infos: Infos, limbo: set<int>, idCount: int, id: int)
    requires InfosOk(infos, limbo, idCount) && id in limbo
    ensures id in infos
  {
  }

  lemma TriedAfterPut(k: Keyed, infos: Infos, table: Table, id: int, i: Info)
    requires TriedAgrees(k, infos, table) && id in infos && !infos[id].inTried
    requires i.inTried && i.stats.service == infos[id].stats.service
    requires k.TriedSlot(i.stats.service) !in table
    ensures TriedAgrees(k, infos[id := i], table[k.TriedSlot(i.stats.service) := id])
  {
    var slot := k.TriedSlot(i.stats.service);
    var table' := table[slot := id];
    forall s | s in table'
      ensures infos[id := i][table'[s]].inTried && s == k.TriedSlot(infos[id := i][table'[s]].stats.service)
    {
      assert s != slot ==> infos[table[s]].inTried && s == k.TriedSlot(infos[table[s]].stats.service);
    }
  }

  // ---- entries made and deleted ----

  function Created(t: Tables, st: Stats): Tables {
    t.(infos := t.infos[t.idCount := Info(st, 0, false, |t.random|)],
       addrs := t.addrs[st.service.ip := t.idCount],
       random := t.random + [t.idCount],
       idCount := t.idCount + 1)
  }

  lemma CreatedKeeps(k: Keyed, t: Tables, limbo: set<int>, extra: int, st: Stats)
    requires Sound(k, t, limbo, extra) && st.service.ip !in t.addrs
    ensures t.idCount !in t.infos && Sound(k, Created(t, st), limbo + {t.idCount}, extra)
  {
    hide AddrsAgree, RandomAgrees, NewPlaced, TriedAgrees, RefsCounted, InfosOk, TriedIds, NewIds;
    var id := t.idCount;
    var i := Info(st, 0, false, |t.random|);
    InfosOkCreated(t.infos, limbo, id, i);
    CreatedTables(k, t.infos, t.newTable, t.triedTable, id, i);
    CreatedIndexes(t.infos, t.addrs, t.random, id, i);
    IdsUpdated(t.infos, id, i);
    NotAnId(t.infos, id);
    Without(TriedIds(t.infos), id);
    MoreBoth(NewIds(t.infos), limbo, id);
  }

  lemma InfosOkCreated(infos: Infos, limbo: set<int>, id: int, i: Info)
    requires InfosOk(infos, limbo, id) && InfoOk(i, true)
    ensures id !in infos && id !in limbo && InfosOk(infos[id := i], limbo + {id}, id + 1)
  {
    assert InfosOk(infos, limbo, id + 1);
    InfosOkKept(infos, limbo, limbo + {id}, id + 1, id, i);
  }

  lemma CreatedTables(k: Keyed, infos: Infos, newTable: Table, triedTable: Table, id: int, i: Info)
    requires TriedAgrees(k, infos, triedTable) && NewPlaced(k, infos, newTable) && RefsCounted(infos, newTable)
    requires id !in infos && !i.inTried && i.refCount == 0
    ensures TriedAgrees(k, infos[id := i], triedTable) && NewPlaced(k, infos[id := i], newTable)
    ensures RefsCounted(infos[id := i], newTable)
  {
    forall s ensures s !in SlotsOf(newTable, id) {}
    assert SlotsOf(newTable, id) == {};
    forall s | s in triedTable
      ensures infos[id := i][triedTable[s]].inTried && s == k.TriedSlot(infos[id := i][triedTable[s]].stats.service)
    {
      assert s == k.TriedSlot(infos[triedTable[s]].stats.service);
    }
    forall s | s in newTable
      ensures s == k.InBucket(true, s.bucket, infos[id := i][newTable[s]].stats.service)
    {
      assert s == k.InBucket(true, s.bucket, infos[newTable[s]].stats.service);
    }
  }

  lemma CreatedIndexes(infos: Infos, addrs: map<NetAddr, int>, random: seq<int>, id: int, i: Info)
    requires AddrsAgree(infos, addrs) && RandomAgrees(infos, random)
    requires id !in infos && i.stats.service.ip !in addrs && i.randomPos == |random|
    ensures AddrsAgree(infos[id := i], addrs[i.stats.service.ip := id])
    ensures RandomAgrees(infos[id := i], random + [id])
  {
    assert infos[id := i].Keys == infos.Keys + {id};
    forall p | 0 <= p < |random| ensures random[p] in infos && infos[random[p]].randomPos == p {}
  }

  function Deleted(t: Tables, id: int): Tables
    requires id in t.infos && RandomAgrees(t.infos, t.random)
  {
    var u := Swapped(t, t.infos[id].randomPos, |t.random| - 1);
    u.(infos := u.infos - {id}, addrs := u.addrs - {t.infos[id].stats.service.ip},
       random := u.random[..|u.random| - 1], nNew := u.nNew - 1)
  }

  /** Deleted, in the two steps the code takes. */
  lemma DeletedIsPopped(t: Tables, id: int)
    requires id in t.infos && RandomAgrees(t.infos, t.random)
    ensures var u := Swapped(t, t.infos[id].randomPos, |t.random| - 1);
            && id in u.infos && u.infos[id] == t.infos[id].(randomPos := |u.random| - 1)
            && |u.random| == |t.random|
            && Deleted(t, id) == u.(infos := u.infos - {id}, addrs := u.addrs - {u.infos[id].stats.service.ip},
                                    random := u.random[..|u.random| - 1], nNew := u.nNew - 1)
  {
    var p, q := t.infos[id].randomPos, |t.random| - 1;
    assert t.random[p] == id && t.random[q] in t.infos;
    hide RandomAgrees;
    SwappedEntry(t, p, q);
  }

  /** The first entry of a swap goes to the second one's place. */
  lemma SwappedEntry(t: Tables, p: nat, q: nat)
    requires p < |t.random| && q < |t.random| && t.random[p] in t.infos && t.random[q] in t.infos
    requires t.infos[t.random[p]].randomPos == p && t.infos[t.random[q]].randomPos == q
    ensures var u := Swapped(t, p, q);
            && |u.random| == |t.random| && t.random[p] in u.infos &&
               u.infos[t.random[p]] == t.infos[t.random[p]].(randomPos := q)
  {
  }

  lemma DeletedKeeps(k: Keyed, t: Tables, limbo: set<int>, extra: int, id: int)
    requires Sound(k, t, limbo, extra) && id in limbo
    ensures Sound(k, Deleted(t, id), limbo - {id}, extra - 1)
    ensures SameButPositions(t.infos - {id}, Deleted(t, id).infos)
  {
    hide AddrsAgree, NewPlaced, TriedAgrees, RefsCounted, InfosOk, TriedIds, NewIds, Swapped, Deleted;
    InLimbo(t.infos, limbo, t.idCount, id);
    var p, q := t.infos[id].randomPos, |t.random| - 1;
    DeletedIsPopped(t, id);
    SwappedKeeps(k, t, limbo, extra, p, q);
    PoppedKeeps(k, Swapped(t, p, q), limbo, extra, id);
  }

  /** Removing the limbo entry that is last in the random order. */
  lemma PoppedKeeps(k: Keyed, t: Tables, limbo: set<int>, extra: int, id: int)
    requires Sound(k, t, limbo, extra) && id in limbo && t.infos[id].randomPos == |t.random| - 1
    ensures Sound(k, t.(infos := t.infos - {id}, addrs := t.addrs - {t.infos[id].stats.service.ip},
                        random := t.random[..|t.random| - 1], nNew := t.nNew - 1), limbo - {id}, extra - 1)
  {
    hide AddrsAgree, RandomAgrees, NewPlaced, TriedAgrees, RefsCounted, InfosOk, TriedIds, NewIds;
    InLimbo(t.infos, limbo, t.idCount, id);
    InfoOfEntry(t.infos, limbo, t.idCount, id);
    PoppedTables(k, t.infos, t.newTable, t.triedTable, id);
    PoppedIndexes(t.infos, t.addrs, t.random, id);
    IdsRemoved(t.infos, id);
    Without(TriedIds(t.infos), id);
    LessBoth(NewIds(t.infos), limbo, id);
    InfosOkRemoved(t.infos, limbo, t.idCount, id);
  }

  lemma InfosOkRemoved(infos: Infos, limbo: set<int>, idCount: int, id: int)
    requires InfosOk(infos, limbo, idCount)
    ensures InfosOk(infos - {id}, limbo - {id}, idCount)
  {
    forall x | x in infos - {id} ensures 0 <= x < idCount && InfoOk(infos[x], x in limbo - {id})
    {
      assert InfoOk(infos[x], x in limbo);
    }
  }

  lemma PoppedTables(k: Keyed, infos: Infos, newTable: Table, triedTable: Table, id: int)
    requires TriedAgrees(k, infos, triedTable) && NewPlaced(k, infos, newTable) && RefsCounted(infos, newTable)
    requires id in infos && !infos[id].inTried && infos[id].refCount == 0
    ensures TriedAgrees(k, infos - {id}, triedTable) && NewPlaced(k, infos - {id}, newTable)
    ensures RefsCounted(infos - {id}, newTable)
  {
    assert SlotsOf(newTable, id) == {};
    forall s | s in triedTable
      ensures triedTable[s] != id && s == k.TriedSlot((infos - {id})[triedTable[s]].stats.service)
    {
      assert s == k.TriedSlot(infos[triedTable[s]].stats.service);
    }
    forall s | s in newTable
      ensures newTable[s] != id && s == k.InBucket(true, s.bucket, (infos - {id})[newTable[s]].stats.service)
    {
      assert newTable[s] == id ==> s in SlotsOf(newTable, id);
      assert s == k.InBucket(true, s.bucket, infos[newTable[s]].stats.service);
    }
  }

  lemma PoppedIndexes(infos: Infos, addrs: map<NetAddr, int>, random: seq<int>, id: int)
    requires AddrsAgree(infos, addrs) && RandomAgrees(infos, random)
    requires id in infos && infos[id].randomPos == |random| - 1
    ensures AddrsAgree(infos - {id}, addrs - {infos[id].stats.service.ip})
    ensures RandomAgrees(infos - {id}, random[..|random| - 1])
  {
    assert (infos - {id}).Keys == infos.Keys - {id};
    assert |infos - {id}| == |infos| - 1;
  }

  // ---- ClearNew ----

  function Cleared(t: Tables, s: Slot): Tables
    requires s in t.newTable ==> t.newTable[s] in t.infos
    requires RandomAgrees(t.infos, t.random)
  {
    if s !in t.newTable then t else
    var id := t.newTable[s];
    var i := t.infos[id].(refCount := t.infos[id].refCount - 1);
    IndexesOfUpdate(t.infos, id, i, t.random);
    if i.refCount == 0 then Deleted(Unref(t, s), id) else Unref(t, s)
  }

  lemma IndexesOfUpdate(infos: Infos, id: int, i: Info, random: seq<int>)
    requires id in infos && i.randomPos == infos[id].randomPos && RandomAgrees(infos, random)
    ensures RandomAgrees(infos[id := i], random)
  {
    assert infos[id := i].Keys == infos.Keys;
    assert |infos[id := i]| == |infos[id := i].Keys|;
  }

  /** The survivors of a move keep their statistics. */
  ghost predicate Survivors(infos: Infos, infos': Infos) {
    infos'.Keys <= infos.Keys && forall id | id in infos' :: infos'[id].stats == infos[id].stats
  }

  lemma ClearedKeeps(k: Keyed, t: Tables, limbo: set<int>, extra: int, s: Slot)
    requires Sound(k, t, limbo, extra)
    ensures Sound(k, Cleared(t, s), limbo, extra)
  {
    hide AddrsAgree, RandomAgrees, NewPlaced, TriedAgrees, RefsCounted, InfosOk, TriedIds, NewIds, Deleted;
    if s in t.newTable {
      UnrefKeeps(k, t, limbo, extra, s);
      var id := t.newTable[s];
      if t.infos[id].refCount == 1 {
        DeletedKeeps(k, Unref(t, s), limbo + {id}, extra + 1, id);
        assert (limbo + {id}) - {id} == limbo;
      }
    }
  }

  /** Clearing a slot touches no entry but the one that held it, and drops that one only if
      the slot was its last. */
  lemma ClearedRest(t: Tables, s: Slot)
    requires s in t.newTable ==> t.newTable[s] in t.infos
    requires RandomAgrees(t.infos, t.random)
    ensures var u := Cleared(t, s);
            && u.newTable == t.newTable - {s} && u.triedTable == t.triedTable && u.idCount == t.idCount
            && u.infos.Keys == (if s in t.newTable && t.infos[t.newTable[s]].refCount == 1
               then t.infos.Keys - {t.newTable[s]} else t.infos.Keys)
            && forall x | x in u.infos ::
                 && u.infos[x].stats == t.infos[x].stats && u.infos[x].inTried == t.infos[x].inTried
                 && u.infos[x].refCount == t.infos[x].refCount - (if s in t.newTable &&
                    t.newTable[s] == x then 1 else 0)
  {
    if s in t.newTable {
      var id := t.newTable[s];
      IndexesOfUpdate(t.infos, id, t.infos[id].(refCount := t.infos[id].refCount - 1), t.random);
      var v := Unref(t, s);
      assert v.infos.Keys == t.infos.Keys;
      if t.infos[id].refCount == 1 {
        DeletedRest(v, id);
        hide Deleted, RandomAgrees;
        var u := Deleted(v, id);
        forall x | x in u.infos ensures u.infos[x].stats == t.infos[x].stats && u.infos[x].inTried == t.infos[x].inTried
                                        && u.infos[x].refCount == t.infos[x].refCount
        {
          assert u.infos[x] == v.infos[x].(randomPos := u.infos[x].randomPos);
        }
      }
    } else {
      assert t.newTable - {s} == t.newTable;
    }
  }

  lemma DeletedRest(t: Tables, id: int)
    requires id in t.infos && RandomAgrees(t.infos, t.random)
    ensures var u := Deleted(t, id);
            && u.newTable == t.newTable && u.triedTable == t.triedTable && u.idCount == t.idCount
            && u.infos.Keys == t.infos.Keys - {id}
            && forall x | x in u.infos :: u.infos[x] == t.infos[x].(randomPos := u.infos[x].randomPos)
  {
    hide Swapped;
    var p, q := t.infos[id].randomPos, |t.random| - 1;
    SwappedRandom(t, p, q);
    SwappedRest(t, p, q);
    var u := Swapped(t, p, q);
    hide RandomAgrees;
    forall x | x in Deleted(t, id).infos
      ensures Deleted(t, id).infos[x] == t.infos[x].(randomPos := Deleted(t, id).infos[x].randomPos)
    {
      assert t.infos[x] == u.infos[x].(randomPos := t.infos[x].randomPos);
    }
  }
}
