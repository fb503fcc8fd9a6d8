/** Saving the address manager and reading it back. Only entries, the two counts and the
    new-table positions are written; every index is rebuilt. */
module AddrManDisk {
  import opened AddrTables
  import opened AddrMan

  /** What is written of an entry. */
  datatype Persisted = Persisted(service: Service, source: NetAddr, time: int, services: bv64, lastSuccess: int,
                                 attempts: int)

  function Persist(st: Stats): Persisted {
    Persisted(st.service, st.source, st.time, st.services, st.lastSuccess, st.attempts)
  }

  /** An entry as read: the memory-only fields start over. */
  function Reread(p: Persisted): Stats {
    Stats(p.service, p.source, p.time, p.services, 0, 0, p.lastSuccess, p.attempts)
  }

  datatype Token = Num(n: int) | Rec(entry: Persisted)

  const VERSION := 1
  const KEY_SIZE := 32

  /** XOR with 2^30, which is how the bucket count is marked as not being version 0. */
  function FlipBit30(n: int): int {
    if n / 0x4000_0000 % 2 == 0 then n + 0x4000_0000 else n - 0x4000_0000
  }

  // ---- what Serialize writes ----

  /** The ids below `n` that are tried, or that are not, in ascending order. */
  function Ascending(infos: Infos, n: nat, tried: bool): seq<int> {
    if n == 0 then [] else
    Ascending(infos, n - 1, tried) + if n - 1 in infos && infos[n - 1].inTried == tried then [n - 1] else []
  }

  function Recs(infos: Infos, n: nat, tried: bool): seq<Token> {
    if n == 0 then [] else
    Recs(infos, n - 1, tried) + if n - 1 in infos && infos[n - 1].inTried == tried
      then [Rec(Persist(infos[n - 1].stats))] else []
  }

  /** The number an id is written as: its rank among the new entries. */
  function Rank(infos: Infos, id: int): nat {
    if id < 0 then 0 else |Ascending(infos, id, false)|
  }

  /** The ids a bucket holds from place `pos` on, as written. */
  function Row(infos: Infos, table: Table, bucket: nat, pos: nat): seq<Token>
    requires pos <= BUCKET_SIZE
    decreases BUCKET_SIZE - pos
  {
    if pos == BUCKET_SIZE then [] else
    (if Slot(bucket, pos) in table then [Num(Rank(infos, table[Slot(bucket, pos)]))] else []) +
    Row(infos, table, bucket, pos + 1)
  }

  /** All buckets from `bucket` on, each with its size in front. */
  function Rows(infos: Infos, table: Table, bucket: nat): seq<Token>
    requires bucket <= NEW_BUCKET_COUNT
    decreases NEW_BUCKET_COUNT - bucket
  {
    if bucket == NEW_BUCKET_COUNT then [] else
    var row := Row(infos, table, bucket, 0);
    [Num(|row|)] + row + Rows(infos, table, bucket + 1)
  }

  function Header(key: nat, t: Tables): seq<Token> {
    [Num(VERSION), Num(KEY_SIZE), Num(key), Num(t.nNew), Num(t.nTried), Num(FlipBit30(NEW_BUCKET_COUNT))]
  }

  function Written(key: nat, t: Tables): seq<Token>
    requires t.idCount >= 0
  {
    Header(key, t) + (Recs(t.infos, t.idCount, false) + (Recs(t.infos, t.idCount, true) + Rows(t.infos, t.newTable, 0)))
  }

  /** The order entries are written in: the new ones, then the tried ones. */
  function Order(t: Tables): seq<int>
    requires t.idCount >= 0
  {
    Ascending(t.infos, t.idCount, false) + Ascending(t.infos, t.idCount, true)
  }

  // ---- the order ----

  lemma {:induction false} AscendingExact(infos: Infos, n: nat, tried: bool)
    ensures forall id :: id in Ascending(infos, n, tried) <==> 0 <= id < n && id in infos && infos[id].inTried == tried
    ensures forall i, j | 0 <= i < j < |Ascending(infos, n, tried)| ::
              Ascending(infos, n, tried)[i] < Ascending(infos, n, tried)[j]
  {
    if n > 0 {
      AscendingExact(infos, n - 1, tried);
      var init := Ascending(infos, n - 1, tried);
      assert forall i | 0 <= i < |init| :: init[i] in init;
    }
  }

  lemma {:induction false} RankIsPosition(infos: Infos, n: nat, id: int)
    requires 0 <= id < n && id in infos && !infos[id].inTried
    ensures Rank(infos, id) < |Ascending(infos, n, false)| && Ascending(infos, n, false)[Rank(infos, id)] == id
    decreases n
  {
    if id < n - 1 {
      RankIsPosition(infos, n - 1, id);
    }
  }

  lemma {:induction false} AscendingCounts(infos: Infos, n: nat, tried: bool)
    ensures |Ascending(infos, n, tried)| == |set id | id in infos && 0 <= id < n && infos[id].inTried == tried|
  {
    var ids := set id | id in infos && 0 <= id < n && infos[id].inTried == tried;
    if n == 0 {
      forall id ensures id !in ids {}
      assert ids == {};
    } else {
      AscendingCounts(infos, n - 1, tried);
      CountsNext(infos, n, tried);
    }
  }

  lemma CountsNext(infos: Infos, n: nat, tried: bool)
    requires n > 0
    ensures |set id | id in infos && 0 <= id < n && infos[id].inTried == tried|
         == |set id | id in infos && 0 <= id < n - 1 &&
         infos[id].inTried == tried| + (if n - 1 in infos && infos[n - 1].inTried == tried then 1 else 0)
  {
    var ids := set id | id in infos && 0 <= id < n && infos[id].inTried == tried;
    var less := set id | id in infos && 0 <= id < n - 1 && infos[id].inTried == tried;
    if n - 1 in infos && infos[n - 1].inTried == tried {
      forall id ensures id in ids <==> id in less + {n - 1} {}
      assert ids == less + {n - 1};
    } else {
      forall id ensures id in ids <==> id in less {}
      assert ids == less;
    }
  }

  lemma OrderCounts(k: Keyed, t: Tables)
    requires Sound(k, t, {}, 0)
    ensures t.nNew >= 0 && t.nTried >= 0 && t.idCount >= 0
    ensures |Ascending(t.infos, t.idCount, false)| == t.nNew && |Ascending(t.infos, t.idCount, true)| == t.nTried
  {
    hide AddrsAgree, RandomAgrees, TriedAgrees, NewPlaced, RefsCounted, Ascending;
    AscendingCounts(t.infos, t.idCount, false);
    AscendingCounts(t.infos, t.idCount, true);
    var news := set id | id in t.infos && 0 <= id < t.idCount && t.infos[id].inTried == false;
    var trieds := set id | id in t.infos && 0 <= id < t.idCount && t.infos[id].inTried == true;
    forall id ensures id in news <==> id in NewIds(t.infos) - {} {}
    forall id ensures id in trieds <==> id in TriedIds(t.infos) {}
    assert news == NewIds(t.infos) - {} && trieds == TriedIds(t.infos);
  }

  /** Every entry is listed once, the first `nNew` being the new ones. */
  ghost predicate Enumerates(infos: Infos, nNew: int, order: seq<int>) {
    && 0 <= nNew <= |order|
    && (forall id :: id in order <==> id in infos)
    && (forall i | 0 <= i < |order| :: order[i] in infos && (infos[order[i]].inTried <==> i >= nNew))
    && (forall i, j | 0 <= i < j < |order| :: order[i] != order[j])
  }

  ghost predicate Lists(infos: Infos, tried: bool, ids: seq<int>) {
    && (forall id :: id in ids <==> id in infos && infos[id].inTried == tried)
    && (forall i, j | 0 <= i < j < |ids| :: ids[i] < ids[j])
  }

  lemma JoinEnumerates(infos: Infos, news: seq<int>, trieds: seq<int>)
    requires Lists(infos, false, news) && Lists(infos, true, trieds)
    ensures Enumerates(infos, |news|, news + trieds)
  {
    var order := news + trieds;
    forall i | 0 <= i < |order| ensures order[i] in infos && (infos[order[i]].inTried <==> i >= |news|)
    {
      assert i < |news| ==> news[i] in news;
      assert i >= |news| ==> trieds[i - |news|] in trieds;
    }
    forall i, j | 0 <= i < j < |order| ensures order[i] != order[j]
    {
      assert infos[order[i]].inTried <==> i >= |news|;
      assert infos[order[j]].inTried <==> j >= |news|;
    }
  }

  lemma OrderEnumerates(k: Keyed, t: Tables)
    requires Sound(k, t, {}, 0)
    ensures t.idCount >= 0 && |Order(t)| == t.nNew + t.nTried && Enumerates(t.infos, t.nNew, Order(t))
  {
    hide AddrsAgree, RandomAgrees, TriedAgrees, NewPlaced, RefsCounted, TriedIds, NewIds, Ascending, Enumerates;
    OrderCounts(k, t);
    AscendingExact(t.infos, t.idCount, false);
    AscendingExact(t.infos, t.idCount, true);
    forall id | id in t.infos ensures 0 <= id < t.idCount {}
    JoinEnumerates(t.infos, Ascending(t.infos, t.idCount, false), Ascending(t.infos, t.idCount, true));
  }

  lemma {:induction false} RecsAt(infos: Infos, n: nat, tried: bool)
    ensures |Recs(infos, n, tried)| == |Ascending(infos, n, tried)|
    ensures forall i | 0 <= i < |Recs(infos, n, tried)| ::
              && Ascending(infos, n, tried)[i] in infos
              && Recs(infos, n, tried)[i] == Rec(Persist(infos[Ascending(infos, n, tried)[i]].stats))
  {
    if n > 0 {
      RecsAt(infos, n - 1, tried);
    }
  }

  lemma {:induction false} AscendingGrows(infos: Infos, m: nat, n: nat, tried: bool)
    requires m <= n
    ensures |Ascending(infos, m, tried)| <= |Ascending(infos, n, tried)|
    decreases n
  {
    if m < n {
      AscendingGrows(infos, m, n - 1, tried);
    }
  }

  /** The first pass over the entries: the new ones, and the numbers ids are written as. */
  method SerializeNew(m: AddressManager) returns (s: seq<Token>, mapUnkIds: map<int, int>)
    requires m.Check() && m.nIdCount >= 0 && m.nNew == |Ascending(m.mapInfo, m.nIdCount, false)|
    ensures s == Recs(m.mapInfo, m.nIdCount, false)
    ensures forall x | x in m.mapInfo :: x in mapUnkIds && mapUnkIds[x] == Rank(m.mapInfo, x)
  {
    hide AddrsAgree, RandomAgrees, TriedAgrees, NewPlaced, RefsCounted, TriedIds, NewIds;
    s, mapUnkIds := [], map[];
    var nIds := 0;
    for id := 0 to m.nIdCount
      invariant nIds == |Ascending(m.mapInfo, id, false)|
      invariant s == Recs(m.mapInfo, id, false)
      invariant forall x | x in m.mapInfo && x < id :: x in mapUnkIds && mapUnkIds[x] == Rank(m.mapInfo, x)
    {
      if id in m.mapInfo {
        mapUnkIds := mapUnkIds[id := nIds];
        assert InfoOk(m.mapInfo[id], false);
        if m.mapInfo[id].refCount != 0 {
          AscendingGrows(m.mapInfo, id + 1, m.nIdCount, false);
          assert nIds != m.nNew;
          s := s + [Rec(Persist(m.mapInfo[id].stats))];
          nIds := nIds + 1;
        }
      }
    }
  }

  method SerializeTried(m: AddressManager) returns (s: seq<Token>)
    requires m.nIdCount >= 0 && m.nTried == |Ascending(m.mapInfo, m.nIdCount, true)|
    ensures s == Recs(m.mapInfo, m.nIdCount, true)
  {
    s := [];
    var nIds := 0;
    for id := 0 to m.nIdCount
      invariant nIds == |Ascending(m.mapInfo, id, true)|
      invariant s == Recs(m.mapInfo, id, true)
    {
      if id in m.mapInfo && m.mapInfo[id].inTried {
        AscendingGrows(m.mapInfo, id + 1, m.nIdCount, true);
        assert nIds != m.nTried;
        s := s + [Rec(Persist(m.mapInfo[id].stats))];
        nIds := nIds + 1;
      }
    }
  }

  lemma RowStep(infos: Infos, table: Table, bucket: nat, pos: nat)
    requires pos < BUCKET_SIZE
    ensures Row(infos, table, bucket, pos) ==
            (if Slot(bucket, pos) in table then [Num(Rank(infos, table[Slot(bucket, pos)]))] else []) + Row(infos,
              table, bucket, pos + 1)
    ensures Row(infos, table, bucket, BUCKET_SIZE) == []
  {
  }

  method SerializeRow(ghost infos: Infos, table: Table, bucket: nat, mapUnkIds: map<int, int>) returns (s: seq<Token>)
    requires forall slot | slot in table ::
               table[slot] in mapUnkIds && mapUnkIds[table[slot]] == Rank(infos, table[slot])
    ensures s == [Num(|Row(infos, table, bucket, 0)|)] + Row(infos, table, bucket, 0)
  {
    hide Rank, Row;
    ghost var row := Row(infos, table, bucket, 0);
    var size := 0;
    for i := 0 to BUCKET_SIZE
      invariant size + |Row(infos, table, bucket, i)| == |row|
    {
      RowStep(infos, table, bucket, i);
      if Slot(bucket, i) in table {
        size := size + 1;
      }
    }
    RowStep(infos, table, bucket, 0);
    s := [Num(size)];
    for i := 0 to BUCKET_SIZE
      invariant s + Row(infos, table, bucket, i) == [Num(|row|)] + row
    {
      RowStep(infos, table, bucket, i);
      if Slot(bucket, i) in table {
        s := s + [Num(mapUnkIds[table[Slot(bucket, i)]])];
      }
    }
  }

  method SerializeTable(ghost infos: Infos, table: Table, mapUnkIds: map<int, int>) returns (s: seq<Token>)
    requires forall slot | slot in table ::
               table[slot] in mapUnkIds && mapUnkIds[table[slot]] == Rank(infos, table[slot])
    ensures s == Rows(infos, table, 0)
  {
    hide Rank, Row, Rows;
    s := [];
    var bucket := 0;
    while bucket < NEW_BUCKET_COUNT
      invariant 0 <= bucket <= NEW_BUCKET_COUNT
      invariant s + Rows(infos, table, bucket) == Rows(infos, table, 0)
    {
      var row := SerializeRow(infos, table, bucket, mapUnkIds);
      RowsNext(infos, table, bucket);
      Joined(s, row, Rows(infos, table, bucket + 1));
      s := s + row;
      bucket := bucket + 1;
    }
    RowsEnd(infos, table);
  }

  lemma RowsNext(infos: Infos, table: Table, bucket: nat)
    requires bucket < NEW_BUCKET_COUNT
    ensures var row := Row(infos, table, bucket, 0);
            Rows(infos, table, bucket) == ([Num(|row|)] + row) + Rows(infos, table, bucket + 1)
  {
    hide Row;
  }

  lemma RowsEnd(infos: Infos, table: Table)
    ensures Rows(infos, table, NEW_BUCKET_COUNT) == []
  {
  }

  lemma Joined(a: seq<Token>, b: seq<Token>, c: seq<Token>)
    ensures a + (b + c) == (a + b) + c
  {
  }

  /** The writer: entries in id order, then the new table, exactly as `Written` says. */
  method Serialize(m: AddressManager) returns (s: seq<Token>)
    requires m.Check()
    ensures m.nIdCount >= 0 && s == Written(m.nKey, m.Snap())
  {
    hide AddrsAgree, RandomAgrees, TriedAgrees, RefsCounted, TriedIds, NewIds, Recs, Rows, Rank, Keyed.InBucket;
    OrderCounts(m.Key(), m.Snap());
    s := [Num(VERSION), Num(KEY_SIZE), Num(m.nKey), Num(m.nNew), Num(m.nTried), Num(FlipBit30(NEW_BUCKET_COUNT))];
    var news, mapUnkIds := SerializeNew(m);
    var trieds := SerializeTried(m);
    forall slot | slot in m.vvNew
      ensures m.vvNew[slot] in mapUnkIds && mapUnkIds[m.vvNew[slot]] == Rank(m.mapInfo, m.vvNew[slot])
    {
      var id := m.vvNew[slot];
      assert id in m.mapInfo;
    }
    var rows := SerializeTable(m.mapInfo, m.vvNew, mapUnkIds);
    s := s + (news + (trieds + rows));
  }
}
