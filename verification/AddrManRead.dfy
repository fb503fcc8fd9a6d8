/** Reading a saved address manager back, and why nothing is lost. */
module AddrManRead {
  import opened Collections
  import opened AddrTables
  import opened AddrMan
  import opened AddrManDisk

  // ---- how far a reader of `t` has come ----

  /** The first `count` entries of the order have been read, numbered from 0. */
  ghost predicate EntriesRead(infos: Infos, infos': Infos, order: seq<int>, count: nat) {
    && count <= |order|
    && (forall n :: n in infos' <==> 0 <= n < count)
    && forall n | 0 <= n < count ::
         order[n] in infos && infos'[n].stats == Reread(Persist(infos[order[n]].stats)) &&
         infos'[n].inTried == infos[order[n]].inTried
  }

  /** Exactly the new-table slots of `done` have been filled, with the renumbered ids. */
  ghost predicate SlotsRead(table: Table, table': Table, order: seq<int>, done: set<Slot>) {
    && table'.Keys == done && done <= table.Keys
    && forall s | s in done :: 0 <= table'[s] < |order| && order[table'[s]] == table[s]
  }

  ghost predicate Reading(k: Keyed, t: Tables, u: Tables, order: seq<int>, count: nat, done: set<Slot>) {
    && EntriesRead(t.infos, u.infos, order, count)
    && SlotsRead(t.newTable, u.newTable, order, done)
    && AddrsAgree(u.infos, u.addrs) && RandomAgrees(u.infos, u.random)
    && TriedAgrees(k, u.infos, u.triedTable) && RefsCounted(u.infos, u.newTable)
    && u.nNew == t.nNew && u.nTried == t.nTried
  }

  /** The tables `u` are `t` with its entries renumbered in the order they were written. */
  ghost predicate Restored(t: Tables, u: Tables, order: seq<int>) {
    && Enumerates(t.infos, t.nNew, order) && EntriesRead(t.infos, u.infos, order, |order|)
    && (forall n | 0 <= n < |order| :: n in u.infos && u.infos[n].refCount == t.infos[order[n]].refCount)
    && (forall s :: s in u.newTable <==> s in t.newTable)
    && (forall s | s in u.newTable :: 0 <= u.newTable[s] < |order| && order[u.newTable[s]] == t.newTable[s])
    && (forall s :: s in u.triedTable <==> s in t.triedTable)
    && (forall s | s in u.triedTable :: 0 <= u.triedTable[s] < |order| && order[u.triedTable[s]] == t.triedTable[s])
    && u.nNew == t.nNew && u.nTried == t.nTried
  }

  // ---- one more entry ----

  /** Two entries of the order never share an address. */
  lemma NextAddress(infos: Infos, addrs: map<NetAddr, int>, infos': Infos, addrs': map<NetAddr, int>, order: seq<int>,
                    nNew: int, count: nat)
    requires Enumerates(infos, nNew, order) && EntriesRead(infos, infos', order, count) && count < |order|
    requires AddrsAgree(infos, addrs) && AddrsAgree(infos', addrs')
    ensures infos[order[count]].stats.service.ip !in addrs'
  {
    var id := order[count];
    var ip := infos[id].stats.service.ip;
    forall n | 0 <= n < count ensures infos'[n].stats.service.ip != ip
    {
      assert order[n] != id;
      assert infos'[n].stats == Reread(Persist(infos[order[n]].stats));
      assert addrs[infos[order[n]].stats.service.ip] == order[n] && addrs[ip] == id;
    }
    forall x | x in addrs' ensures x != ip
    {
      assert infos'[addrs'[x]].stats.service.ip == x;
    }
  }

  /** Two tried entries of the order never share a tried slot. */
  lemma NextTriedSlot(k: Keyed, infos: Infos, table: Table, infos': Infos, table': Table, order: seq<int>, nNew: int,
                      count: nat)
    requires Enumerates(infos, nNew, order) && EntriesRead(infos, infos', order, count) && nNew <= count < |order|
    requires TriedAgrees(k, infos, table) && TriedAgrees(k, infos', table')
    ensures k.TriedSlot(infos[order[count]].stats.service) !in table'
  {
    hide Keyed.TriedSlot;
    var id := order[count];
    var slot := k.TriedSlot(infos[id].stats.service);
    forall n | 0 <= n < count && infos'[n].inTried ensures k.TriedSlot(infos'[n].stats.service) != slot
    {
      assert order[n] != id;
      assert infos'[n].stats == Reread(Persist(infos[order[n]].stats));
      assert table[k.TriedSlot(infos[order[n]].stats.service)] == order[n] && table[slot] == id;
    }
    forall s | s in table' ensures s != slot
    {
      assert infos'[table'[s]].inTried && s == k.TriedSlot(infos'[table'[s]].stats.service);
    }
  }

  lemma NothingPlaced(k: Keyed, infos: Infos, table: Table)
    requires table.Keys == {}
    ensures NewPlaced(k, infos, table)
  {
  }

  lemma EntryRead(infos: Infos, infos': Infos, order: seq<int>, count: nat, i: Info)
    requires EntriesRead(infos, infos', order, count) && count < |order| && order[count] in infos
    requires i.stats == Reread(Persist(infos[order[count]].stats)) && i.inTried == infos[order[count]].inTried
    ensures EntriesRead(infos, infos'[count := i], order, count + 1) && count !in infos'
  {
  }

  /** Reading one new entry. */
  lemma NewEntryRead(k: Keyed, t: Tables, u: Tables, order: seq<int>)
    requires Sound(k, t, {}, 0) && Enumerates(t.infos, t.nNew, order)
    requires 0 <= u.idCount < t.nNew && Reading(k, t, u, order, u.idCount, {})
    ensures Reading(k, t, Created(u, Reread(Persist(t.infos[order[u.idCount]].stats))), order, u.idCount + 1, {})
  {
    hide AddrsAgree, RandomAgrees, TriedAgrees, NewPlaced, RefsCounted, TriedIds, NewIds, InfosOk, EntriesRead;
    NextAddress(t.infos, t.addrs, u.infos, u.addrs, order, t.nNew, u.idCount);
    var i := Info(Reread(Persist(t.infos[order[u.idCount]].stats)), 0, false, |u.random|);
    EntryRead(t.infos, u.infos, order, u.idCount, i);
    CreatedIndexes(u.infos, u.addrs, u.random, u.idCount, i);
    NothingPlaced(k, u.infos, u.newTable);
    CreatedTables(k, u.infos, u.newTable, u.triedTable, u.idCount, i);
  }

  function TriedCreated(k: Keyed, u: Tables, st: Stats): Tables {
    Created(u, st).(infos := u.infos[u.idCount := Info(st, 0, true, |u.random|)],
                    triedTable := u.triedTable[k.TriedSlot(st.service) := u.idCount])
  }

  /** Reading one tried entry: it goes to its own tried slot, which is free. */
  lemma TriedEntryRead(k: Keyed, t: Tables, u: Tables, order: seq<int>)
    requires Sound(k, t, {}, 0) && Enumerates(t.infos, t.nNew, order)
    requires t.nNew <= u.idCount < |order| && Reading(k, t, u, order, u.idCount, {})
    ensures k.TriedSlot(t.infos[order[u.idCount]].stats.service) !in u.triedTable
    ensures Reading(k, t, TriedCreated(k, u, Reread(Persist(t.infos[order[u.idCount]].stats))), order, u.idCount + 1,
              {})
  {
    hide AddrsAgree, RandomAgrees, TriedAgrees, NewPlaced, RefsCounted, TriedIds, NewIds, InfosOk, EntriesRead,
         Keyed.TriedSlot;
    NextAddress(t.infos, t.addrs, u.infos, u.addrs, order, t.nNew, u.idCount);
    NextTriedSlot(k, t.infos, t.triedTable, u.infos, u.triedTable, order, t.nNew, u.idCount);
    var id := u.idCount;
    var st := Reread(Persist(t.infos[order[id]].stats));
    var i, j := Info(st, 0, false, |u.random|), Info(st, 0, true, |u.random|);
    EntryRead(t.infos, u.infos, order, id, j);
    CreatedIndexes(u.infos, u.addrs, u.random, id, j);
    NothingPlaced(k, u.infos, u.newTable);
    CreatedTables(k, u.infos, u.newTable, u.triedTable, id, i);
    TriedAfterPut(k, u.infos[id := i], u.triedTable, id, j);
    assert u.infos[id := i][id := j] == u.infos[id := j];
    RefsKept(u.infos[id := i], id, j, u.newTable);
  }

  // ---- one more slot ----

  /** The slots of the buckets before `bucket`, and of its first `pos` places. */
  function Before(table: Table, bucket: nat, pos: nat): set<Slot> {
    set s | s in table && (s.bucket < bucket || (s.bucket == bucket && s.pos < pos))
  }

  /** The next number in a row belongs to the next occupied place. */
  lemma {:induction false} NextOccupied(infos: Infos, table: Table, bucket: nat, pos: nat) returns (q: nat)
    requires pos <= BUCKET_SIZE && Row(infos, table, bucket, pos) != []
    ensures pos <= q < BUCKET_SIZE && Slot(bucket, q) in table
    ensures Row(infos, table, bucket, pos) == [Num(Rank(infos, table[Slot(bucket, q)]))] + Row(infos, table, bucket,
              q + 1)
    ensures Before(table, bucket, pos) == Before(table, bucket, q)
    ensures Before(table, bucket, q + 1) == Before(table, bucket, q) + {Slot(bucket, q)}
    decreases BUCKET_SIZE - pos
  {
    hide Rank;
    if Slot(bucket, pos) in table {
      q := pos;
    } else {
      q := NextOccupied(infos, table, bucket, pos + 1);
      forall s ensures s in Before(table, bucket, pos + 1) <==> s in Before(table, bucket, pos) {}
    }
    forall s ensures s in Before(table, bucket, q + 1) <==> s in Before(table, bucket, q) + {Slot(bucket, q)} {}
  }

  lemma {:induction false} RowDone(infos: Infos, table: Table, bucket: nat, pos: nat)
    requires pos <= BUCKET_SIZE && Row(infos, table, bucket, pos) == []
    requires forall s | s in table :: s.pos < BUCKET_SIZE
    ensures Before(table, bucket, pos) == Before(table, bucket + 1, 0)
    decreases BUCKET_SIZE - pos
  {
    if pos == BUCKET_SIZE {
      forall s ensures s in Before(table, bucket, pos) <==> s in Before(table, bucket + 1, 0) {}
    } else {
      RowDone(infos, table, bucket, pos + 1);
      forall s ensures s in Before(table, bucket, pos + 1) <==> s in Before(table, bucket, pos) {}
    }
  }

  /** A written number leads back to its entry. */
  lemma RankInOrder(k: Keyed, t: Tables, s: Slot)
    requires Sound(k, t, {}, 0) && t.idCount >= 0 && s in t.newTable
    ensures Rank(t.infos, t.newTable[s]) < t.nNew && Rank(t.infos, t.newTable[s]) < |Order(t)|
    ensures Order(t)[Rank(t.infos, t.newTable[s])] == t.newTable[s]
  {
    hide AddrsAgree, RandomAgrees, TriedAgrees, NewPlaced, RefsCounted, TriedIds, NewIds, Rank, Ascending;
    UnrefKeeps(k, t, {}, 0, s);
    OrderCounts(k, t);
    RankIsPosition(t.infos, t.idCount, t.newTable[s]);
  }

  /** An entry whose slot `s` is still to be read has taken fewer slots than it had. */
  lemma RoomForSlot(table: Table, table': Table, order: seq<int>, done: set<Slot>, s: Slot, n: int)
    requires SlotsRead(table, table', order, done) && s in table && s !in done
    requires 0 <= n < |order| && order[n] == table[s]
    ensures |SlotsOf(table', n)| < |SlotsOf(table, order[n])|
  {
    forall r | r in SlotsOf(table', n) ensures r in SlotsOf(table, order[n]) - {s} {}
    assert SlotsOf(table', n) <= SlotsOf(table, order[n]) - {s};
    SubsetSize(SlotsOf(table', n), SlotsOf(table, order[n]) - {s});
    assert s in SlotsOf(table, order[n]);
  }

  /** Reading one slot: the hashed place is the slot it was written from, and it is free. */
  lemma SlotRead(k: Keyed, t: Tables, u: Tables, order: seq<int>, done: set<Slot>, s: Slot, n: int)
    requires Sound(k, t, {}, 0) && Reading(k, t, u, order, |order|, done)
    requires s in t.newTable && s !in done && 0 <= n < |order| && order[n] == t.newTable[s]
    ensures n in u.infos && k.InBucket(true, s.bucket, u.infos[n].stats.service) == s
    ensures s !in u.newTable && u.infos[n].refCount < NEW_BUCKETS_PER_ADDRESS
    ensures Reading(k, t, Ref(u, s, n), order, |order|, done + {s})
  {
    hide AddrsAgree, RandomAgrees, TriedAgrees, NewPlaced, RefsCounted, TriedIds, NewIds, InfosOk, SlotsOf,
         Keyed.InBucket, EntriesRead, SlotsRead;
    HolderFacts(k, t, {}, 0, s);
    PlacedAt(k, t.infos, t.newTable, s);
    EntryReadAt(t.infos, u.infos, order, |order|, n);
    SlotIsFree(t.newTable, u.newTable, order, done, s);
    RoomForSlot(t.newTable, u.newTable, order, done, s, n);
    CountedAt(t.infos, t.newTable, order[n]);
    CountedAt(u.infos, u.newTable, n);
    var i := u.infos[n].(refCount := u.infos[n].refCount + 1);
    IndexesKept(u.infos, n, i, u.addrs, u.random);
    TriedKept(k, u.infos, n, i, u.triedTable);
    RefsAfterRef(u.infos, u.newTable, s, n);
    EntriesKept(t.infos, u.infos, order, |order|, n, i);
    SlotsGrow(t.newTable, u.newTable, order, done, s, n);
  }

  lemma EntryReadAt(infos: Infos, infos': Infos, order: seq<int>, count: nat, n: int)
    requires EntriesRead(infos, infos', order, count) && 0 <= n < count
    ensures order[n] in infos && n in infos' && infos'[n].stats == Reread(Persist(infos[order[n]].stats)) &&
            infos'[n].inTried == infos[order[n]].inTried
  {
  }

  lemma EntriesKept(infos: Infos, infos': Infos, order: seq<int>, count: nat, n: int, i: Info)
    requires EntriesRead(infos, infos', order, count) && n in infos' && i.stats == infos'[n].stats &&
             i.inTried == infos'[n].inTried
    ensures EntriesRead(infos, infos'[n := i], order, count)
  {
  }

  lemma SlotIsFree(table: Table, table': Table, order: seq<int>, done: set<Slot>, s: Slot)
    requires SlotsRead(table, table', order, done) && s !in done
    ensures s !in table'
  {
  }

  lemma SlotsGrow(table: Table, table': Table, order: seq<int>, done: set<Slot>, s: Slot, n: int)
    requires SlotsRead(table, table', order, done) && s in table && 0 <= n < |order| && order[n] == table[s]
    ensures SlotsRead(table, table'[s := n], order, done + {s})
  {
  }

  lemma CountedAt(infos: Infos, table: Table, id: int)
    requires RefsCounted(infos, table) && id in infos
    ensures infos[id].refCount == |SlotsOf(table, id)|
  {
  }

  lemma PlacedAt(k: Keyed, infos: Infos, table: Table, s: Slot)
    requires NewPlaced(k, infos, table) && s in table
    ensures table[s] in infos && s == k.InBucket(true, s.bucket, infos[table[s]].stats.service)
  {
  }

  // ---- the end ----

  lemma AllRead(k: Keyed, t: Tables, u: Tables, order: seq<int>)
    requires Checked(k, t) && Enumerates(t.infos, t.nNew, order) && |order| == t.nNew + t.nTried
    requires Reading(k, t, u, order, |order|, t.newTable.Keys) && u.idCount == |order|
    ensures Checked(k, u) && Restored(t, u, order)
  {
    hide AddrsAgree, RandomAgrees, TriedAgrees, NewPlaced, RefsCounted, TriedIds, NewIds, InfosOk, EntriesRead, TimesOk;
    RefsRestored(t.infos, t.newTable, u.infos, u.newTable, order);
    PlacesRestored(k, t.infos, t.newTable, u.infos, u.newTable, order);
    TriedRestored(k, t.infos, t.triedTable, u.infos, u.triedTable, order, t.nNew);
    CountsRestored(t.infos, u.infos, order, t.nNew);
    NumbersRestored(t.infos, t.idCount, u.infos, order, t.nNew);
    assert NewIds(u.infos) - {} == NewIds(u.infos);
  }

  lemma RefsRestored(infos: Infos, table: Table, infos': Infos, table': Table, order: seq<int>)
    requires EntriesRead(infos, infos', order, |order|) && SlotsRead(table, table', order, table.Keys)
    requires RefsCounted(infos, table) && RefsCounted(infos', table')
    requires forall i, j | 0 <= i < j < |order| :: order[i] != order[j]
    ensures forall n | 0 <= n < |order| ::
              n in infos' && order[n] in infos && infos'[n].refCount == infos[order[n]].refCount
  {
    forall n | 0 <= n < |order| ensures n in infos' && infos'[n].refCount == infos[order[n]].refCount
    {
      forall s ensures s in SlotsOf(table', n) <==> s in SlotsOf(table, order[n])
      {
        assert s in table' <==> s in table;
        if s in table {
          assert order[table'[s]] == table[s];
        }
      }
      assert SlotsOf(table', n) == SlotsOf(table, order[n]);
    }
  }

  lemma PlacesRestored(k: Keyed, infos: Infos, table: Table, infos': Infos, table': Table, order: seq<int>)
    requires EntriesRead(infos, infos', order, |order|) && SlotsRead(table, table', order, table.Keys)
    requires NewPlaced(k, infos, table)
    ensures NewPlaced(k, infos', table')
  {
    hide Keyed.InBucket;
    forall s | s in table'
      ensures s.bucket < NEW_BUCKET_COUNT && table'[s] in infos' &&
              s == k.InBucket(true, s.bucket, infos'[table'[s]].stats.service)
    {
      assert s in table;
      assert order[table'[s]] == table[s];
    }
  }

  lemma TriedRestored(k: Keyed, infos: Infos, table: Table, infos': Infos, table': Table, order: seq<int>, nNew: int)
    requires Enumerates(infos, nNew, order) && EntriesRead(infos, infos', order, |order|)
    requires TriedAgrees(k, infos, table) && TriedAgrees(k, infos', table')
    ensures forall s :: s in table' <==> s in table
    ensures forall s | s in table' :: 0 <= table'[s] < |order| && order[table'[s]] == table[s]
  {
    hide Keyed.TriedSlot;
    forall s | s in table' ensures s in table && 0 <= table'[s] < |order| && order[table'[s]] == table[s]
    {
      var n := table'[s];
      assert infos'[n].inTried && s == k.TriedSlot(infos'[n].stats.service);
      var id := order[n];
      assert id in infos && infos[id].inTried;
      assert infos'[n].stats == Reread(Persist(infos[id].stats));
    }
    forall s | s in table ensures s in table'
    {
      var id := table[s];
      assert infos[id].inTried && s == k.TriedSlot(infos[id].stats.service);
      assert id in order;
      var n :| 0 <= n < |order| && order[n] == id;
      assert k.TriedSlot(infos'[n].stats.service) in table';
    }
  }

  lemma CountsRestored(infos: Infos, infos': Infos, order: seq<int>, nNew: int)
    requires Enumerates(infos, nNew, order) && EntriesRead(infos, infos', order, |order|)
    ensures |NewIds(infos')| == nNew && |TriedIds(infos')| == |order| - nNew
  {
    forall n ensures n in NewIds(infos') <==> n in Range(0, nNew) {}
    forall n ensures n in TriedIds(infos') <==> n in Range(nNew, |order|) {}
    assert NewIds(infos') == Range(0, nNew) && TriedIds(infos') == Range(nNew, |order|);
  }

  function Range(a: int, b: int): (r: set<int>)
    requires a <= b
    ensures |r| == b - a && forall n :: n in r <==> a <= n < b
    decreases b - a
  {
    if a == b then {} else Range(a, b - 1) + {b - 1}
  }

  lemma NumbersRestored(infos: Infos, idCount: int, infos': Infos, order: seq<int>, nNew: int)
    requires EntriesRead(infos, infos', order, |order|) && InfosOk(infos, {}, idCount) && TimesOk(infos)
    requires forall n | 0 <= n < |order| ::
               n in infos' && order[n] in infos && infos'[n].refCount == infos[order[n]].refCount
    ensures InfosOk(infos', {}, |order|) && TimesOk(infos')
  {
    forall n | n in infos'
      ensures 0 <= n < |order| && InfoOk(infos'[n], n in {})
      ensures infos'[n].stats.lastTry >= 0 && infos'[n].stats.lastSuccess >= 0 &&
              (infos'[n].inTried ==> infos'[n].stats.lastSuccess != 0)
    {
      var id := order[n];
      assert id in infos && id !in {};
      assert infos'[n].stats == Reread(Persist(infos[id].stats)) && infos'[n].inTried == infos[id].inTried;
      assert InfoOk(infos[id], id in {});
    }
  }

  // ---- the size limits a reader enforces ----

  function Line(bucket: nat, n: nat): (r: set<Slot>)
    ensures |r| == n && forall s :: s in r <==> s.bucket == bucket && s.pos < n
  {
    if n == 0 then {} else Line(bucket, n - 1) + {Slot(bucket, n - 1)}
  }

  function Grid(n: nat): (r: set<Slot>)
    ensures |r| == n * BUCKET_SIZE && forall s :: s in r <==> s.bucket < n && s.pos < BUCKET_SIZE
  {
    if n == 0 then {} else
    assert Grid(n - 1) !! Line(n - 1, BUCKET_SIZE);
    Grid(n - 1) + Line(n - 1, BUCKET_SIZE)
  }

  lemma TableFits(table: Table, n: nat)
    requires forall s | s in table :: s.bucket < n && s.pos < BUCKET_SIZE
    ensures |table.Keys| <= n * BUCKET_SIZE
  {
    SubsetSize(table.Keys, Grid(n));
  }

  /** Ids with a slot of their own are no more than the slots. */
  lemma {:induction false} OneSlotEach(ids: set<int>, at: map<int, Slot>, table: Table)
    requires forall id | id in ids :: id in at && at[id] in table && table[at[id]] == id
    ensures |ids| <= |table.Keys|
    decreases ids
  {
    if ids != {} {
      var id := Pick(ids);
      var s := at[id];
      var table' := table - {s};
      assert table'.Keys == table.Keys - {s};
      forall x | x in ids - {id} ensures at[x] in table' && table'[at[x]] == x
      {
        assert table[at[x]] == x && table[s] == id;
      }
      OneSlotEach(ids - {id}, at, table');
    }
  }

  lemma NewWithinLimits(k: Keyed, infos: Infos, table: Table, idCount: int)
    requires NewPlaced(k, infos, table) && RefsCounted(infos, table) && InfosOk(infos, {}, idCount)
    ensures |NewIds(infos)| <= NEW_BUCKET_COUNT * BUCKET_SIZE
  {
    forall id | id in NewIds(infos) ensures SlotsOf(table, id) != {}
    {
      assert InfoOk(infos[id], id in {});
    }
    var at := map id | id in NewIds(infos) :: var s :| s in SlotsOf(table, id); s;
    OneSlotEach(NewIds(infos), at, table);
    forall s | s in table ensures s.pos < BUCKET_SIZE
    {
      assert s == k.InBucket(true, s.bucket, infos[table[s]].stats.service);
    }
    TableFits(table, NEW_BUCKET_COUNT);
  }

  lemma TriedWithinLimits(k: Keyed, infos: Infos, table: Table)
    requires TriedAgrees(k, infos, table)
    ensures |TriedIds(infos)| <= TRIED_BUCKET_COUNT * BUCKET_SIZE
  {
    var at := map id | id in TriedIds(infos) :: k.TriedSlot(infos[id].stats.service);
    OneSlotEach(TriedIds(infos), at, table);
    forall s | s in table ensures s.bucket < TRIED_BUCKET_COUNT && s.pos < BUCKET_SIZE
    {
      assert s == k.TriedSlot(infos[table[s]].stats.service);
    }
    TableFits(table, TRIED_BUCKET_COUNT);
  }

  /** A checked manager never has more entries than the reader accepts. */
  lemma WithinLimits(k: Keyed, t: Tables)
    requires Sound(k, t, {}, 0)
    ensures t.nNew <= NEW_BUCKET_COUNT * BUCKET_SIZE && t.nTried <= TRIED_BUCKET_COUNT * BUCKET_SIZE
  {
    hide AddrsAgree, RandomAgrees, NewPlaced, RefsCounted, TriedAgrees, InfosOk, NewIds, TriedIds;
    NewWithinLimits(k, t.infos, t.newTable, t.idCount);
    TriedWithinLimits(k, t.infos, t.triedTable);
    assert NewIds(t.infos) - {} == NewIds(t.infos);
  }

  // ---- the reader ----

  lemma RandomAppended(infos: Infos, random: seq<int>, id: int, i: Info)
    requires RandomAgrees(infos, random) && id !in infos && i.randomPos == |random|
    ensures RandomAgrees(infos[id := i], random + [id])
  {
    assert infos[id := i].Keys == infos.Keys + {id};
  }

  /** Entries `0..n` are on file. */
  ghost predicate Numbered(infos: Infos, n: int) {
    forall x | 0 <= x < n :: x in infos
  }

  /** The origin of a stream: what was saved, under which key. */
  datatype Origin = Origin(key: nat, t: Tables)

  /** The stream is what Serialize wrote for a manager that passed its check. */
  ghost predicate Faithful(hashes: Hashes, o: Origin, stream: seq<Token>) {
    o.t.idCount >= 0 && Checked(Keyed(hashes, o.key), o.t) && stream == Written(o.key, o.t)
  }

  /** The next entry on the stream is the one the order says. */
  lemma NextRec(infos: Infos, idCount: nat, tried: bool, n: nat, tail: seq<Token>)
    requires n < |Ascending(infos, idCount, tried)|
    ensures |Recs(infos, idCount, tried)| == |Ascending(infos, idCount, tried)|
    ensures var input := Recs(infos, idCount, tried)[n..] + tail;
            && |input| > 0 && Ascending(infos, idCount, tried)[n] in infos
            && input[0] == Rec(Persist(infos[Ascending(infos, idCount, tried)[n]].stats))
            && input[1..] == Recs(infos, idCount, tried)[n + 1..] + tail
  {
    RecsAt(infos, idCount, tried);
    hide Recs, Ascending;
    assert (Recs(infos, idCount, tried)[n..] + tail)[1..] == Recs(infos, idCount, tried)[n + 1..] + tail;
  }

  /** One entry of the new table; without usable buckets it goes to the slot of its source if that is free. */
  method AppendNew(m: AddressManager, n: nat, st: Stats, usable: bool)
    requires RandomAgrees(m.mapInfo, m.vRandom) && Exactly(m.mapInfo, n)
    modifies m
    ensures RandomAgrees(m.mapInfo, m.vRandom) && Exactly(m.mapInfo, n + 1)
    ensures m.nKey == old(m.nKey) && m.nNew == old(m.nNew) && m.nTried == old(m.nTried)
    ensures usable ==> m.Snap().(idCount := n + 1) == Created(old(m.Snap()).(idCount := n), st)
  {
    hide RandomAgrees, Exactly, Keyed.NewSlot;
    var i := Info(st, 0, false, |m.vRandom|);
    ExactlyNext(m.mapInfo, n, i);
    RandomAppended(m.mapInfo, m.vRandom, n, i);
    m.mapInfo := m.mapInfo[n := i];
    m.mapAddr := m.mapAddr[st.service.ip := n];
    m.vRandom := m.vRandom + [n];
    if !usable {
      var slot := m.Key().NewSlot(st.service, st.source);
      if slot !in m.vvNew {
        m.vvNew := m.vvNew[slot := n];
        IndexesOfUpdate(m.mapInfo, n, i.(refCount := 1), m.vRandom);
        ExactlyAgain(m.mapInfo, n + 1, n, i.(refCount := 1));
        m.mapInfo := m.mapInfo[n := i.(refCount := 1)];
      }
    }
  }

  /** Reads the new entries. Unless the new table can be used, each tries the slot of its source. */
  method ReadNew(m: AddressManager, input: seq<Token>, usable: bool, ghost o: Origin, ghost good: bool,
                 ghost tail: seq<Token>)
    returns (ok: bool, rest: seq<Token>)
    requires m.mapInfo == map[] && m.mapAddr == map[] && m.vRandom == [] && m.vvNew == map[] && m.vvTried == map[]
    requires good ==>
               && o.t.idCount >= 0 && Checked(m.Key(), o.t) && usable && m.nNew == o.t.nNew && m.nTried == o.t.nTried
               && input == Recs(o.t.infos, o.t.idCount, false) + tail
    modifies m
    ensures m.nKey == old(m.nKey) && m.nNew == old(m.nNew) && m.nTried == old(m.nTried)
    ensures ok ==>
              RandomAgrees(m.mapInfo, m.vRandom) && Numbered(m.mapInfo, m.nNew) &&
              (forall x | x in m.mapInfo :: x < m.nIdCount) && m.nIdCount == m.nNew
    ensures good ==>
              ok && rest == tail && 0 <= m.nIdCount && Reading(m.Key(), o.t, m.Snap(), Order(o.t), m.nIdCount, {})
  {
    hide Sound, Reading, RandomAgrees, Recs, Ascending, TimesOk, Exactly, Numbered, Created;
    ghost var k, t := m.Key(), o.t;
    rest := input;
    ExactlyNone();
    NothingRead(k, t, m.Snap().(idCount := 0));
    if good {
      OrderEnumerates(k, t);
      OrderCounts(k, t);
      RecsAt(t.infos, t.idCount, false);
      assert Recs(t.infos, t.idCount, false)[0..] == Recs(t.infos, t.idCount, false);
    }
    var n := 0;
    while n < m.nNew
      invariant 0 <= n && (n == 0 || n <= m.nNew) && m.Key() == k && m.nNew == old(m.nNew) && m.nTried == old(m.nTried)
      invariant RandomAgrees(m.mapInfo, m.vRandom) && Exactly(m.mapInfo, n)
      invariant good ==> && n <= t.nNew && rest == Recs(t.infos, t.idCount, false)[n..] + tail
                         && Reading(k, t, m.Snap().(idCount := n), Order(t), n, {})
    {
      if good {
        NextRec(t.infos, t.idCount, false, n, tail);
        NewEntryRead(k, t, m.Snap().(idCount := n), Order(t));
      }
      if rest == [] || !rest[0].Rec? {
        return false, rest;
      }
      var st := Reread(rest[0].entry);
      rest := rest[1..];
      AppendNew(m, n, st, usable);
      n := n + 1;
    }
    m.nIdCount := m.nNew;
    ExactlyAll(m.mapInfo, n, m.nNew);
    return true, rest;
  }

  /** The entries on file are those numbered below `n`. */
  ghost predicate Exactly(infos: Infos, n: int) {
    forall x :: x in infos <==> 0 <= x < n
  }

  lemma ExactlyNone()
    ensures Exactly(map[], 0)
  {
  }

  lemma ExactlyNext(infos: Infos, n: nat, i: Info)
    requires Exactly(infos, n)
    ensures n !in infos && Exactly(infos[n := i], n + 1)
  {
  }

  lemma ExactlyAgain(infos: Infos, n: nat, x: int, i: Info)
    requires Exactly(infos, n) && x in infos
    ensures Exactly(infos[x := i], n)
  {
  }

  lemma ExactlyAll(infos: Infos, n: int, count: int)
    requires Exactly(infos, n) && n >= count && (n == 0 || n <= count)
    ensures Numbered(infos, count) && forall x | x in infos :: x < count
  {
  }

  lemma NothingRead(k: Keyed, t: Tables, u: Tables)
    requires u.infos == map[] && u.addrs == map[] && u.random == [] && u.newTable == map[] && u.triedTable == map[]
    ensures RandomAgrees(u.infos, u.random)
    ensures t.idCount >= 0 && u.nNew == t.nNew && u.nTried == t.nTried ==> Reading(k, t, u, Order(t), 0, {})
  {
  }

  /** One entry of the tried table: it is lost when its slot is taken. */
  method AppendTried(m: AddressManager, st: Stats) returns (stored: bool)
    requires RandomAgrees(m.mapInfo, m.vRandom) && Numbered(m.mapInfo, m.nNew)
    requires forall x | x in m.mapInfo :: x < m.nIdCount
    modifies m
    ensures m.nKey == old(m.nKey) && m.nNew == old(m.nNew) && m.nTried == old(m.nTried)
    ensures RandomAgrees(m.mapInfo, m.vRandom) && Numbered(m.mapInfo, m.nNew)
    ensures forall x | x in m.mapInfo :: x < m.nIdCount
    ensures stored <==> m.Key().TriedSlot(st.service) !in old(m.vvTried)
    ensures m.Snap() == if stored then TriedCreated(m.Key(), old(m.Snap()), st) else old(m.Snap())
    ensures m.nIdCount == old(m.nIdCount) + if stored then 1 else 0
  {
    hide RandomAgrees, Keyed.TriedSlot;
    var slot := m.Key().TriedSlot(st.service);
    stored := slot !in m.vvTried;
    if stored {
      var i := Info(st, 0, true, |m.vRandom|);
      RandomAppended(m.mapInfo, m.vRandom, m.nIdCount, i);
      m.vRandom := m.vRandom + [m.nIdCount];
      m.mapInfo := m.mapInfo[m.nIdCount := i];
      m.mapAddr := m.mapAddr[st.service.ip := m.nIdCount];
      m.vvTried := m.vvTried[slot := m.nIdCount];
      m.nIdCount := m.nIdCount + 1;
    }
  }

  /** Reads the tried entries; one whose tried slot is taken is lost. */
  method ReadTried(m: AddressManager, input: seq<Token>, ghost o: Origin, ghost good: bool, ghost tail: seq<Token>)
    returns (ok: bool, rest: seq<Token>)
    requires RandomAgrees(m.mapInfo, m.vRandom) && Numbered(m.mapInfo, m.nNew) &&
             (forall x | x in m.mapInfo :: x < m.nIdCount)
    requires good ==>
               && o.t.idCount >= 0 && Checked(m.Key(), o.t) && m.nTried == o.t.nTried &&
                  0 <= m.nIdCount == m.nNew == o.t.nNew
               && input == Recs(o.t.infos, o.t.idCount, true) + tail
               && Reading(m.Key(), o.t, m.Snap(), Order(o.t), m.nIdCount, {})
    modifies m
    ensures m.nKey == old(m.nKey) && m.nNew == old(m.nNew)
    ensures RandomAgrees(m.mapInfo, m.vRandom) && Numbered(m.mapInfo, m.nNew)
    ensures good ==> && ok && rest == tail && 0 <= m.nIdCount == |Order(o.t)|
                     && Reading(m.Key(), o.t, m.Snap(), Order(o.t), m.nIdCount, {})
  {
    hide Sound, Reading, RandomAgrees, Recs, Ascending, TimesOk, Keyed.TriedSlot, TriedCreated, Numbered;
    ghost var k, t := m.Key(), o.t;
    rest := input;
    if good {
      OrderEnumerates(k, t);
      OrderCounts(k, t);
      RecsAt(t.infos, t.idCount, true);
      assert Recs(t.infos, t.idCount, true)[0..] == Recs(t.infos, t.idCount, true);
    }
    var lost := 0;
    var n := 0;
    while n < m.nTried
      invariant 0 <= n && m.Key() == k && m.nNew == old(m.nNew) && m.nTried == old(m.nTried)
      invariant RandomAgrees(m.mapInfo, m.vRandom) && Numbered(m.mapInfo, m.nNew) && forall x | x in m.mapInfo ::
                  x < m.nIdCount
      invariant good ==>
                  && n <= t.nTried && lost == 0 && m.nIdCount == t.nNew + n &&
                     rest == Recs(t.infos, t.idCount, true)[n..] + tail
                  && Reading(k, t, m.Snap(), Order(t), m.nIdCount, {})
    {
      if good {
        NextRec(t.infos, t.idCount, true, n, tail);
        TriedEntryRead(k, t, m.Snap(), Order(t));
      }
      if rest == [] || !rest[0].Rec? {
        return false, rest;
      }
      var st := Reread(rest[0].entry);
      rest := rest[1..];
      var stored := AppendTried(m, st);
      if !stored {
        lost := lost + 1;
      }
      n := n + 1;
    }
    m.nTried := m.nTried - lost;
    return true, rest;
  }

  /** Reads one number of a bucket's row and, if it can, puts the entry at its place there. */
  method ReadSlot(m: AddressManager, index: int, bucket: nat, usable: bool)
    requires RandomAgrees(m.mapInfo, m.vRandom) && Numbered(m.mapInfo, m.nNew)
    modifies m
    ensures m.nKey == old(m.nKey) && m.nNew == old(m.nNew)
    ensures RandomAgrees(m.mapInfo, m.vRandom) && Numbered(m.mapInfo, m.nNew)
    ensures var u := old(m.Snap());
            if 0 <= index < m.nNew && usable then
              var slot := m.Key().InBucket(true, bucket, u.infos[index].stats.service);
              m.Snap() == if slot !in u.newTable && u.infos[index].refCount < NEW_BUCKETS_PER_ADDRESS
                then Ref(u, slot, index) else u
            else m.Snap() == u
  {
    hide RandomAgrees, Keyed.InBucket;
    if 0 <= index < m.nNew {
      var i := m.mapInfo[index];
      var slot := m.Key().InBucket(true, bucket, i.stats.service);
      if usable && slot !in m.vvNew && i.refCount < NEW_BUCKETS_PER_ADDRESS {
        IndexesOfUpdate(m.mapInfo, index, i.(refCount := i.refCount + 1), m.vRandom);
        m.mapInfo := m.mapInfo[index := i.(refCount := i.refCount + 1)];
        m.vvNew := m.vvNew[slot := index];
      }
    }
  }

  /** Reads one bucket of the new table. */
  method ReadRow(m: AddressManager, input: seq<Token>, bucket: nat, usable: bool, ghost o: Origin, ghost good: bool,
                 ghost tail: seq<Token>)
    returns (ok: bool, rest: seq<Token>)
    requires RandomAgrees(m.mapInfo, m.vRandom) && Numbered(m.mapInfo, m.nNew)
    requires good ==> && o.t.idCount >= 0 && Checked(m.Key(), o.t) && usable && m.nNew == o.t.nNew
                      && input == [Num(|Row(o.t.infos, o.t.newTable, bucket, 0)|)] + Row(o.t.infos, o.t.newTable,
                         bucket, 0) + tail
                      && Reading(m.Key(), o.t, m.Snap(), Order(o.t), |Order(o.t)|, Before(o.t.newTable, bucket, 0))
    modifies m
    ensures m.nKey == old(m.nKey) && m.nNew == old(m.nNew) && m.nIdCount == old(m.nIdCount)
    ensures RandomAgrees(m.mapInfo, m.vRandom) && Numbered(m.mapInfo, m.nNew)
    ensures good ==> && ok && rest == tail
                     && Reading(m.Key(), o.t, m.Snap(), Order(o.t), |Order(o.t)|, Before(o.t.newTable, bucket + 1, 0))
  {
    hide Sound, Reading, RandomAgrees, TimesOk, Keyed.InBucket, Row, Before, Rank, Order, Numbered;
    ghost var k, t := m.Key(), o.t;
    ghost var pos := 0;
    rest := input;
    if rest == [] || !rest[0].Num? {
      return false, rest;
    }
    var size := rest[0].n;
    rest := rest[1..];
    var n := 0;
    while n < size
      invariant 0 <= n && pos <= BUCKET_SIZE && m.Key() == k && m.nNew == old(m.nNew) && m.nIdCount == old(m.nIdCount)
      invariant RandomAgrees(m.mapInfo, m.vRandom) && Numbered(m.mapInfo, m.nNew)
      invariant good ==> && n <= size && size - n == |Row(t.infos, t.newTable, bucket, pos)|
                         && rest == Row(t.infos, t.newTable, bucket, pos) + tail
                         && Reading(k, t, m.Snap(), Order(t), |Order(t)|, Before(t.newTable, bucket, pos))
    {
      ghost var q := pos;
      if good {
        q := NextOccupied(t.infos, t.newTable, bucket, pos);
        SlotFacts(k, t, m.Snap(), bucket, q);
      }
      if rest == [] || !rest[0].Num? {
        return false, rest;
      }
      ReadSlot(m, rest[0].n, bucket, usable);
      rest := rest[1..];
      n := n + 1;
      if good {
        pos := q + 1;
      }
    }
    if good {
      PositionsBounded(k, t);
      RowDone(t.infos, t.newTable, bucket, pos);
    }
    return true, rest;
  }

  lemma PositionsBounded(k: Keyed, t: Tables)
    requires Checked(k, t)
    ensures forall s | s in t.newTable :: s.bucket < NEW_BUCKET_COUNT && s.pos < BUCKET_SIZE
  {
    forall s | s in t.newTable ensures s.pos < BUCKET_SIZE
    {
      assert s == k.InBucket(true, s.bucket, t.infos[t.newTable[s]].stats.service);
    }
  }

  /** The next slot of a row goes back to where it was written from. */
  lemma SlotFacts(k: Keyed, t: Tables, u: Tables, bucket: nat, q: nat)
    requires t.idCount >= 0 && Checked(k, t) && Slot(bucket, q) in t.newTable
    requires Reading(k, t, u, Order(t), |Order(t)|, Before(t.newTable, bucket, q))
    ensures var s := Slot(bucket, q);
            var n := Rank(t.infos, t.newTable[s]);
            && n < t.nNew && n in u.infos && k.InBucket(true, bucket, u.infos[n].stats.service) == s
            && s !in u.newTable && u.infos[n].refCount < NEW_BUCKETS_PER_ADDRESS
            && Reading(k, t, Ref(u, s, n), Order(t), |Order(t)|, Before(t.newTable, bucket, q) + {s})
  {
    hide Sound, Reading, Rank, Order, Keyed.InBucket;
    RankInOrder(k, t, Slot(bucket, q));
    SlotRead(k, t, u, Order(t), Before(t.newTable, bucket, q), Slot(bucket, q),
      Rank(t.infos, t.newTable[Slot(bucket, q)]));
  }

  method ReadTable(m: AddressManager, input: seq<Token>, buckets: int, usable: bool, ghost o: Origin, ghost good: bool)
    returns (ok: bool)
    requires RandomAgrees(m.mapInfo, m.vRandom) && Numbered(m.mapInfo, m.nNew)
    requires good ==>
               && o.t.idCount >= 0 && Checked(m.Key(), o.t) && usable && buckets == NEW_BUCKET_COUNT &&
                  m.nNew == o.t.nNew
               && input == Rows(o.t.infos, o.t.newTable, 0)
               && Reading(m.Key(), o.t, m.Snap(), Order(o.t), |Order(o.t)|, {})
    modifies m
    ensures m.nKey == old(m.nKey) && m.nNew == old(m.nNew) && m.nIdCount == old(m.nIdCount)
    ensures RandomAgrees(m.mapInfo, m.vRandom)
    ensures good ==> ok && Reading(m.Key(), o.t, m.Snap(), Order(o.t), |Order(o.t)|, o.t.newTable.Keys)
  {
    hide Sound, Reading, RandomAgrees, TimesOk, Row, Before, Order, Numbered;
    ghost var k, t := m.Key(), o.t;
    BeforeEnds(t.newTable);
    if good {
      PositionsBounded(k, t);
    }
    var rest := input;
    var bucket := 0;
    while bucket < buckets
      invariant 0 <= bucket && m.Key() == k && m.nNew == old(m.nNew) && m.nIdCount == old(m.nIdCount)
      invariant RandomAgrees(m.mapInfo, m.vRandom) && Numbered(m.mapInfo, m.nNew)
      invariant good ==> && bucket <= NEW_BUCKET_COUNT && rest == Rows(t.infos, t.newTable, bucket)
                         && Reading(k, t, m.Snap(), Order(t), |Order(t)|, Before(t.newTable, bucket, 0))
    {
      ok, rest := ReadRow(m, rest, bucket, usable, o, good, if good then Rows(t.infos, t.newTable, bucket + 1) else []);
      if !ok {
        return false;
      }
      bucket := bucket + 1;
    }
    return true;
  }

  lemma BeforeEnds(table: Table)
    ensures Before(table, 0, 0) == {}
    ensures (forall s | s in table :: s.bucket < NEW_BUCKET_COUNT && s.pos < BUCKET_SIZE) ==>
              Before(table, NEW_BUCKET_COUNT, 0) == table.Keys
  {
    forall s ensures s !in Before(table, 0, 0) {}
    if forall s | s in table :: s.bucket < NEW_BUCKET_COUNT && s.pos < BUCKET_SIZE {
      forall s ensures s in Before(table, NEW_BUCKET_COUNT, 0) <==> s in table.Keys {}
    }
  }

  /** Every entry is in one of the tables. */
  ghost predicate NoneBare(infos: Infos, todo: set<int>) {
    forall id | id in infos && id !in todo :: infos[id].inTried || infos[id].refCount != 0
  }

  method AnyOf<T>(ids: set<T>) returns (id: T)
    requires ids != {}
    ensures id in ids
  {
    id :| id in ids;
  }

  /** Drops the new entries that ended up with no slot. */
  method Prune(m: AddressManager)
    requires RandomAgrees(m.mapInfo, m.vRandom)
    modifies m
    ensures m.nKey == old(m.nKey) && RandomAgrees(m.mapInfo, m.vRandom) && NoneBare(m.mapInfo, {})
    ensures Checked(m.Key(), old(m.Snap())) ==> m.Snap() == old(m.Snap())
  {
    hide RandomAgrees, Deleted, TimesOk, Sound;
    ghost var t := m.Snap();
    var todo := m.mapInfo.Keys;
    while todo != {}
      invariant m.nKey == old(m.nKey) && RandomAgrees(m.mapInfo, m.vRandom) && NoneBare(m.mapInfo, todo)
      invariant Checked(m.Key(), t) ==> m.Snap() == t
    {
      var id := AnyOf(todo);
      if id in m.mapInfo && !m.mapInfo[id].inTried && m.mapInfo[id].refCount == 0 {
        if Checked(m.Key(), t) {
          NoEntryBare(m.Key(), t, id);
        }
        DeletedRandom(m.Snap(), id);
        m.Delete(id);
      }
      todo := todo - {id};
    }
  }

  lemma NoEntryBare(k: Keyed, t: Tables, id: int)
    requires Checked(k, t) && id in t.infos
    ensures t.infos[id].inTried || t.infos[id].refCount != 0
  {
    assert InfoOk(t.infos[id], id in {});
  }

  lemma DeletedRandom(t: Tables, id: int)
    requires id in t.infos && RandomAgrees(t.infos, t.random)
    ensures RandomAgrees(Deleted(t, id).infos, Deleted(t, id).random)
    ensures SameButPositions(t.infos - {id}, Deleted(t, id).infos)
  {
    var p, q := t.infos[id].randomPos, |t.random| - 1;
    SwappedRandom(t, p, q);
    DeletedIsPopped(t, id);
    var u := Swapped(t, p, q);
    hide Swapped, Deleted;
    assert (u.infos - {id}).Keys == u.infos.Keys - {id};
    assert |u.infos - {id}| == |u.infos| - 1;
  }

  /** The reader. Whatever it accepts, the random order lists the entries and each is in one of the tables. On a stream
      that Serialize wrote for a checked manager it succeeds and restores the manager up to the renumbering of its
      entries. */
  method Unserialize(m: AddressManager, stream: seq<Token>, randomKey: nat, ghost o: Origin) returns (ok: bool)
    modifies m
    ensures ok ==> RandomAgrees(m.mapInfo, m.vRandom) && NoneBare(m.mapInfo, {})
    ensures Faithful(m.hashes, o, stream) ==>
              ok && m.nKey == o.key && Checked(m.Key(), m.Snap()) && Restored(o.t, m.Snap(), Order(o.t))
  {
    hide Sound, Reading, RandomAgrees, TimesOk, Rows, Recs, Restored, Order, NoneBare;
    ghost var good := Faithful(m.hashes, o, stream);
    ghost var t := o.t;
    // Clear
    m.vRandom, m.nKey, m.vvNew, m.vvTried := [], randomKey, map[], map[];
    m.nIdCount, m.nTried, m.nNew, m.nLastGood, m.mapInfo, m.mapAddr := 0, 0, 0, 1, map[], map[];
    if |stream| < 6 || !(forall i | 0 <= i < 6 :: stream[i].Num?) {
      return false;
    }
    var version := stream[0].n;
    if stream[1].n != KEY_SIZE || stream[2].n < 0 {
      return false;
    }
    m.nKey, m.nNew, m.nTried := stream[2].n, stream[3].n, stream[4].n;
    var buckets := stream[5].n;
    if version != 0 {
      buckets := FlipBit30(buckets);
    }
    if good {
      WithinLimits(m.Key(), t);
      OrderEnumerates(m.Key(), t);
    }
    if m.nNew > NEW_BUCKET_COUNT * BUCKET_SIZE || m.nTried > TRIED_BUCKET_COUNT * BUCKET_SIZE {
      return false;
    }
    var usable := version == VERSION && buckets == NEW_BUCKET_COUNT;
    var rest := stream[6..];
    ghost var rows := if good then Rows(t.infos, t.newTable, 0) else [];
    ghost var trieds := if good then Recs(t.infos, t.idCount, true) else [];
    ok, rest := ReadNew(m, rest, usable, o, good, trieds + rows);
    if !ok {
      return false;
    }
    ok, rest := ReadTried(m, rest, o, good, rows);
    if !ok {
      return false;
    }
    ok := ReadTable(m, rest, buckets, usable, o, good);
    if !ok {
      return false;
    }
    if good {
      AllRead(m.Key(), t, m.Snap(), Order(t));
    }
    Prune(m);
    return true;
  }

  /** Saving and reading back: every entry, slot, reference count and counter survives, and the
      result passes the check. */
  method RoundTrip(m: AddressManager, n: AddressManager, randomKey: nat) returns (ok: bool)
    requires m.Check() && m != n && n.hashes == m.hashes
    modifies n
    ensures ok && n.Check() && n.nKey == m.nKey && m.nIdCount >= 0 && Restored(m.Snap(), n.Snap(), Order(m.Snap()))
  {
    hide Checked, Restored, Order;
    var stream := Serialize(m);
    ok := Unserialize(n, stream, randomKey, Origin(m.nKey, m.Snap()));
  }
}
