/** The stochastic address manager as an object. Random choices and the clock are arguments. */
module AddrMan {
  import opened Collections
  import opened AddrTables
  import opened Powers

  const GETADDR_MAX_PCT := 23
  const GETADDR_MAX := 2500

  class AddressManager {
    const hashes: Hashes
    const isRoutable: Service -> bool
    var nIdCount: int
    var mapInfo: Infos
    var mapAddr: map<NetAddr, int>
    var vRandom: seq<int>
    var nTried: int
    var vvTried: Table
    var nNew: int
    var vvNew: Table
    var nLastGood: int
    var nKey: nat

    ghost function Snap(): Tables
      reads this
    {
      Tables(mapInfo, mapAddr, vRandom, vvNew, vvTried, nNew, nTried, nIdCount)
    }

    function Key(): Keyed
      reads this
    {
      Keyed(hashes, nKey)
    }

    /** What Check_ would accept. */
    ghost predicate Check()
      reads this
    {
      Checked(Key(), Snap())
    }

    constructor (h: Hashes, routable: Service -> bool, key: nat)
      requires key != 0
      ensures Check() && mapInfo == map[] && hashes == h && isRoutable == routable && nKey == key && nLastGood == 1
    {
      hashes, isRoutable, nKey := h, routable, key;
      nIdCount, mapInfo, mapAddr, vRandom := 0, map[], map[], [];
      nTried, vvTried, nNew, vvNew, nLastGood := 0, map[], 0, map[], 1;
      new;
      assert TriedIds(mapInfo) == {} && NewIds(mapInfo) == {};
    }

    method Find(ip: NetAddr) returns (found: Option<int>)
      requires AddrsAgree(mapInfo, mapAddr)
      ensures found.Some? ==>
                ip in mapAddr && found.value == mapAddr[ip] && found.value in mapInfo &&
                mapInfo[found.value].stats.service.ip == ip
      ensures found.None? ==> ip !in mapAddr && forall id | id in mapInfo :: mapInfo[id].stats.service.ip != ip
    {
      if ip !in mapAddr {
        return None;
      }
      return if mapAddr[ip] in mapInfo then Some(mapAddr[ip]) else None;
    }

    method Create(st: Stats) returns (id: int)
      modifies this
      ensures Snap() == Created(old(Snap()), st) && id == old(nIdCount)
      ensures nKey == old(nKey) && nLastGood == old(nLastGood)
    {
      id := nIdCount;
      nIdCount := nIdCount + 1;
      mapInfo := mapInfo[id := Info(st, 0, false, |vRandom|)];
      mapAddr := mapAddr[st.service.ip := id];
      vRandom := vRandom + [id];
    }

    method SwapRandom(p: nat, q: nat)
      requires p < |vRandom| && q < |vRandom| && vRandom[p] in mapInfo && vRandom[q] in mapInfo
      modifies this
      ensures Snap() == Swapped(old(Snap()), p, q)
      ensures nKey == old(nKey) && nLastGood == old(nLastGood)
    {
      if p == q {
        return;
      }
      var id1, id2 := vRandom[p], vRandom[q];
      mapInfo := mapInfo[id1 := mapInfo[id1].(randomPos := q)];
      mapInfo := mapInfo[id2 := mapInfo[id2].(randomPos := p)];
      vRandom := vRandom[p := id2];
      vRandom := vRandom[q := id1];
    }

    method Delete(id: int)
      requires id in mapInfo && !mapInfo[id].inTried && mapInfo[id].refCount == 0
      requires RandomAgrees(mapInfo, vRandom)
      modifies this
      ensures Snap() == Deleted(old(Snap()), id)
      ensures nKey == old(nKey) && nLastGood == old(nLastGood)
    {
      var ip := mapInfo[id].stats.service.ip;
      SwapRandom(mapInfo[id].randomPos, |vRandom| - 1);
      vRandom := vRandom[..|vRandom| - 1];
      mapAddr := mapAddr - {ip};
      mapInfo := mapInfo - {id};
      nNew := nNew - 1;
    }

    method ClearNew(s: Slot)
      requires s in vvNew ==> vvNew[s] in mapInfo && !mapInfo[vvNew[s]].inTried && mapInfo[vvNew[s]].refCount > 0
      requires RandomAgrees(mapInfo, vRandom)
      modifies this
      ensures Snap() == Cleared(old(Snap()), s)
      ensures nKey == old(nKey) && nLastGood == old(nLastGood)
    {
      if s in vvNew {
        var id := vvNew[s];
        var i := mapInfo[id].(refCount := mapInfo[id].refCount - 1);
        IndexesOfUpdate(mapInfo, id, i, vRandom);
        mapInfo := mapInfo[id := i];
        vvNew := vvNew - {s};
        if mapInfo[id].refCount == 0 {
          Delete(id);
        }
      }
    }

    /** Takes an entry out of every new bucket: its only place in a bucket is the hashed one. */
    method LeaveNew(id: int)
      requires Sound(Key(), Snap(), {}, 0) && id in mapInfo && !mapInfo[id].inTried
      modifies this
      ensures Sound(Key(), Snap(), {id}, 0) && nKey == old(nKey) && nLastGood == old(nLastGood)
      ensures mapInfo == old(mapInfo)[id := old(mapInfo[id]).(refCount := 0)]
      ensures vvNew == old(vvNew) - SlotsOf(old(vvNew), id)
      ensures Snap() == old(Snap()).(infos := mapInfo, newTable := vvNew, nNew := old(nNew) - 1)
    {
      hide Sound, Leaving, SlotsOf;
      ghost var k, t := Key(), Snap();
      var service := mapInfo[id].stats.service;
      LeavingStarts(k, t, id);
      var bucket := 0;
      while bucket < NEW_BUCKET_COUNT
        invariant 0 <= bucket <= NEW_BUCKET_COUNT
        invariant Key() == k && nLastGood == old(nLastGood)
        invariant Leaving(k, t, Snap(), id, bucket)
      {
        LeavingShape(k, t, Snap(), id, bucket);
        var slot := Key().InBucket(true, bucket, service);
        LeavingStep(k, t, Snap(), id, bucket);
        if slot in vvNew && vvNew[slot] == id {
          mapInfo := mapInfo[id := mapInfo[id].(refCount := mapInfo[id].refCount - 1)];
          vvNew := vvNew - {slot};
        }
        bucket := bucket + 1;
      }
      LeavingEnds(k, t, Snap(), id);
      nNew := nNew - 1;
    }

    /** The tried entry at `kslot` goes back to the new slot of its own source, whatever is there. */
    method Evict(kslot: Slot, ghost id: int)
      requires Sound(Key(), Snap(), {id}, 0) && kslot in vvTried
      modifies this
      ensures vvTried == old(vvTried) - {kslot} && nKey == old(nKey) && nLastGood == old(nLastGood)
      ensures Sound(Key(), Snap(), {id}, 0)
      ensures BackInNew(Key(), old(mapInfo), old(vvNew), mapInfo, vvNew, old(vvTried)[kslot])
    {
      hide Sound, Taken, BackInNew, Cleared, RandomAgrees, Keyed.NewSlot, Keyed.TriedSlot;
      ghost var k, t := Key(), Snap();
      EvictionStarts(k, t, id, kslot);
      var evict := vvTried[kslot];
      mapInfo := mapInfo[evict := mapInfo[evict].(inTried := false)];
      vvTried := vvTried - {kslot};
      nTried := nTried - 1;
      ghost var a := Snap();
      var uslot := Key().NewSlot(mapInfo[evict].stats.service, mapInfo[evict].stats.source);
      TakenShape(k, t, a, id, evict, uslot);
      ClearNew(uslot);
      TakenCleared(k, t, a, id, evict, uslot);
      mapInfo := mapInfo[evict := mapInfo[evict].(refCount := 1)];
      vvNew := vvNew[uslot := evict];
      nNew := nNew + 1;
    }

    /** Frees a tried slot for `id`: an entry that holds it goes back to the new table. */
    method MakeRoom(kslot: Slot, ghost id: int, ghost t: Tables)
      requires Sound(Key(), Snap(), {id}, 0) && Survivors(t.infos, mapInfo) && mapInfo.Keys == t.infos.Keys &&
               TriedOnlyAlso(t.infos, mapInfo, id)
      modifies this
      ensures Sound(Key(), Snap(), {id}, 0) && nKey == old(nKey) && nLastGood == old(nLastGood)
      ensures Survivors(t.infos, mapInfo) && TriedOnlyAlso(t.infos, mapInfo, id) && vvTried == old(vvTried) - {kslot}
      ensures kslot !in old(vvTried) ==> mapInfo == old(mapInfo)
      ensures kslot in old(vvTried) ==>
                var evict := old(vvTried)[kslot];
                && evict != id && evict in mapInfo && !mapInfo[evict].inTried && mapInfo[evict].refCount == 1
                && |t.infos.Keys - mapInfo.Keys| <= 1
    {
      hide Sound, BackInNew, Survivors, TriedOnlyAlso;
      ghost var u := Snap();
      if kslot in vvTried {
        Evict(kslot, id);
        EvictionSurvivors(Key(), t, u, Snap(), id, kslot);
      } else {
        assert vvTried - {kslot} == vvTried;
      }
    }

    method MakeTried(id: int)
      requires Sound(Key(), Snap(), {}, 0) && id in mapInfo && !mapInfo[id].inTried
      modifies this
      ensures Sound(Key(), Snap(), {}, 0) && nKey == old(nKey) && nLastGood == old(nLastGood)
      ensures id in mapInfo && mapInfo[id].inTried && Survivors(old(mapInfo), mapInfo) &&
              TriedOnlyAlso(old(mapInfo), mapInfo, id)
      ensures |old(mapInfo.Keys) - mapInfo.Keys| <= 1
      ensures var kslot := Key().TriedSlot(old(mapInfo[id].stats.service));
              && vvTried == old(vvTried)[kslot := id]
              && (kslot !in old(vvTried) ==> mapInfo.Keys == old(mapInfo.Keys))
              && (kslot in old(vvTried) ==>
                    var evict := old(vvTried)[kslot];
                    evict in mapInfo && !mapInfo[evict].inTried && mapInfo[evict].refCount == 1)
    {
      hide Sound, BackInNew, SlotsOf, Keyed.TriedSlot, Survivors, TriedOnlyAlso;
      ghost var k, t := Key(), Snap();
      LeaveNew(id);
      ghost var u := Snap();
      LeftSurvivors(t, u, id);
      var kslot := Key().TriedSlot(mapInfo[id].stats.service);
      MakeRoom(kslot, id, t);
      ghost var v := Snap();
      PutFacts(k, t, v, id);
      SameKeys(mapInfo, id, mapInfo[id].(inTried := true));
      Replaced(u.triedTable, kslot, id);
      vvTried := vvTried[kslot := id];
      nTried := nTried + 1;
      mapInfo := mapInfo[id := mapInfo[id].(inTried := true)];
    }

    /** The exact same service, port included, is on file. */
    ghost predicate Known(addr: Service)
      reads this
    {
      addr.ip in mapAddr && mapAddr[addr.ip] in mapInfo && mapInfo[mapAddr[addr.ip]].stats.service == addr
    }

    /** The search for a bucket that holds the entry, from a random start. */
    method FindBucket(id: int, rnd: nat) returns (bucket: int)
      requires Sound(Key(), Snap(), {}, 0) && id in mapInfo && !mapInfo[id].inTried && rnd < NEW_BUCKET_COUNT
      ensures 0 <= bucket < NEW_BUCKET_COUNT
      ensures var s := Key().InBucket(true, bucket, mapInfo[id].stats.service); s in vvNew && vvNew[s] == id
    {
      hide AddrsAgree, RandomAgrees, TriedAgrees, TriedIds, NewIds;
      bucket := -1;
      var n := 0;
      while n < NEW_BUCKET_COUNT && bucket == -1
        invariant 0 <= n <= NEW_BUCKET_COUNT && -1 <= bucket < NEW_BUCKET_COUNT
        invariant bucket != -1 ==>
                    var s := Key().InBucket(true, bucket, mapInfo[id].stats.service); s in vvNew && vvNew[s] == id
        invariant bucket == -1 ==>
                    forall m | 0 <= m < n :: !HoldsAfter(Key(), vvNew, rnd, m, mapInfo[id].stats.service, id)
        decreases NEW_BUCKET_COUNT - n, bucket == -1
      {
        var b := (n + rnd) % NEW_BUCKET_COUNT;
        var s := Key().InBucket(true, b, mapInfo[id].stats.service);
        if s in vvNew && vvNew[s] == id {
          bucket := b;
        } else {
          n := n + 1;
        }
      }
      if bucket == -1 {
        SomeBucketHolds(Key(), Snap(), id, rnd);
      }
    }

    /** Gives a known entry its new statistics and puts it in the tried table if it is not there. */
    method MakeGood(id: int, st: Stats, rnd: nat)
      requires Check() && id in mapInfo && st.service == mapInfo[id].stats.service
      requires st.lastTry == st.lastSuccess && rnd < NEW_BUCKET_COUNT
      modifies this
      ensures nKey == old(nKey) && nLastGood == old(nLastGood)
      ensures id in mapInfo && mapInfo[id].inTried && mapInfo[id].stats == st
      ensures vvTried == if old(mapInfo[id].inTried) then old(vvTried)
                         else old(vvTried)[Key().TriedSlot(st.service) := id]
      ensures |old(mapInfo.Keys) - mapInfo.Keys| <= 1
      ensures forall x | x in mapInfo && x != id :: x in old(mapInfo) && mapInfo[x].stats == old(mapInfo)[x].stats
      ensures Sound(Key(), Snap(), {}, 0) && (TimesOk(mapInfo) <==> st.lastSuccess > 0)
    {
      hide Sound, Survivors, TriedOnlyAlso, TimesOk, Keyed.TriedSlot;
      ghost var t := Snap();
      StatsKept(Key(), t, {}, 0, id, st);
      mapInfo := mapInfo[id := mapInfo[id].(stats := st)];
      ghost var u := Snap();
      if mapInfo[id].inTried {
        GoodTimes(t.infos, u.infos, mapInfo, id, st);
        assert old(mapInfo.Keys) - mapInfo.Keys == {};
        return;
      }
      // FindBucket always succeeds, so the bail-out that follows it in the source is never taken.
      var bucket := FindBucket(id, rnd);
      MakeTried(id);
      assert u.infos.Keys == old(mapInfo.Keys);
      GoodTimes(t.infos, u.infos, mapInfo, id, st);
    }

    method Good(addr: Service, time: int, rnd: nat)
      requires Check() && rnd < NEW_BUCKET_COUNT
      modifies this
      ensures nLastGood == time && nKey == old(nKey)
      ensures !old(Known(addr)) ==> Snap() == old(Snap())
      ensures old(Known(addr)) ==>
                var id := old(mapAddr[addr.ip]);
                && id in mapInfo && mapInfo[id].inTried
                && mapInfo[id].stats == old(mapInfo[id].stats).(lastSuccess := time, lastTry := time, attempts := 0)
                && vvTried == (if old(mapInfo[id].inTried) then old(vvTried)
                   else old(vvTried)[Key().TriedSlot(addr) := id])
                && |old(mapInfo.Keys) - mapInfo.Keys| <= 1
                && forall x | x in mapInfo && x != id :: x in old(mapInfo) && mapInfo[x].stats == old(mapInfo)[x].stats
      ensures Sound(Key(), Snap(), {}, 0)
      ensures Check() <==> !old(Known(addr)) || time > 0
    {
      hide Sound, Survivors, TriedOnlyAlso, TimesOk, Keyed.TriedSlot, RandomAgrees;
      CheckedIndexes(Key(), Snap());
      nLastGood := time;
      var found := Find(addr.ip);
      if found.None? {
        return;
      }
      var id := found.value;
      if mapInfo[id].stats.service != addr {
        return;
      }
      MakeGood(id, mapInfo[id].stats.(lastSuccess := time, lastTry := time, attempts := 0), rnd);
    }

    method Attempt(addr: Service, countFailure: bool, time: int)
      requires Check()
      modifies this
      ensures nLastGood == old(nLastGood) && nKey == old(nKey)
      ensures !old(Known(addr)) ==> Snap() == old(Snap())
      ensures old(Known(addr)) ==>
                var id := old(mapAddr[addr.ip]);
                var st := old(mapInfo[id].stats).(lastTry := time);
                var counted := countFailure && st.lastCountAttempt < nLastGood;
                Snap() == WithInfo(old(Snap()), id, old(mapInfo[id]).(
                  stats := if counted then st.(lastCountAttempt := time, attempts := st.attempts + 1) else st))
      ensures Sound(Key(), Snap(), {}, 0)
      ensures Check() <==> !old(Known(addr)) || time >= 0
    {
      hide Sound, TimesOk;
      CheckedIndexes(Key(), Snap());
      var found := Find(addr.ip);
      if found.None? || mapInfo[found.value].stats.service != addr {
        return;
      }
      var id := found.value;
      ghost var t := Snap();
      var st := mapInfo[id].stats.(lastTry := time);
      if countFailure && st.lastCountAttempt < nLastGood {
        st := st.(lastCountAttempt := time, attempts := st.attempts + 1);
      }
      StatsKept(Key(), t, {}, 0, id, st);
      mapInfo := mapInfo[id := mapInfo[id].(stats := st)];
      AttemptTimes(t.infos, id, st);
    }

    method Connected(addr: Service, time: int)
      requires Check()
      modifies this
      ensures Check() && nLastGood == old(nLastGood) && nKey == old(nKey)
      ensures Snap() == if old(Known(addr)) && time - old(mapInfo[mapAddr[addr.ip]].stats.time) > 20 * 60
                        then WithInfo(old(Snap()), old(mapAddr[addr.ip]),
                          old(mapInfo[mapAddr[addr.ip]]).(stats := old(mapInfo[mapAddr[addr.ip]].stats).(time := time)))
                        else old(Snap())
    {
      hide Sound, TimesOk;
      CheckedIndexes(Key(), Snap());
      var found := Find(addr.ip);
      if found.None? || mapInfo[found.value].stats.service != addr {
        return;
      }
      var id := found.value;
      if time - mapInfo[id].stats.time > 20 * 60 {
        var st := mapInfo[id].stats.(time := time);
        StatsKept(Key(), Snap(), {}, 0, id, st);
        SameTimes(mapInfo, id, st);
        mapInfo := mapInfo[id := mapInfo[id].(stats := st)];
      }
    }

    method SetServices(addr: Service, services: bv64)
      requires Check()
      modifies this
      ensures Check() && nLastGood == old(nLastGood) && nKey == old(nKey)
      ensures Snap() == if old(Known(addr))
                        then WithInfo(old(Snap()), old(mapAddr[addr.ip]),
                          old(mapInfo[mapAddr[addr.ip]]).(
                            stats := old(mapInfo[mapAddr[addr.ip]].stats).(services := services)))
                        else old(Snap())
    {
      hide Sound, TimesOk;
      CheckedIndexes(Key(), Snap());
      var found := Find(addr.ip);
      if found.None? || mapInfo[found.value].stats.service != addr {
        return;
      }
      var id := found.value;
      var st := mapInfo[id].stats.(services := services);
      StatsKept(Key(), Snap(), {}, 0, id, st);
      SameTimes(mapInfo, id, st);
      mapInfo := mapInfo[id := mapInfo[id].(stats := st)];
    }

    /** Gives an entry the new slot its source hashes to, unless a better entry is there. An
        entry that has no slot yet (in limbo) does not survive losing. */
    method Insert(id: int, source: NetAddr, now: int)
      requires id in mapInfo && Insertable(Key(), Snap(), id)
      modifies this
      ensures Sound(Key(), Snap(), {}, 0) && nKey == old(nKey) && nLastGood == old(nLastGood)
      ensures Inserted(Key(), old(Snap()), Snap(), id, source, now)
    {
      hide Insertable, Inserted, Sound, Cleared, Deleted;
      ghost var k, t := Key(), Snap();
      var slot := Key().NewSlot(mapInfo[id].stats.service, source);
      InsertFacts(k, t, id, source, now);
      if !(slot in vvNew && vvNew[slot] == id) {
        var insert := slot !in vvNew;
        if !insert {
          var existing := mapInfo[vvNew[slot]];
          if existing.stats.IsTerrible(now) || (existing.refCount > 1 && mapInfo[id].refCount == 0) {
            insert := true;
          }
        }
        if insert {
          ClearNew(slot);
          mapInfo := mapInfo[id := mapInfo[id].(refCount := mapInfo[id].refCount + 1)];
          vvNew := vvNew[slot := id];
        } else if mapInfo[id].refCount == 0 {
          Delete(id);
        }
      }
    }

    /** Add on an entry already on file: what is news about it, and whether to seek it another slot. */
    method Refresh(id: int, time: int, services: bv64, penalty: int, now: int, rnd: nat) returns (insert: bool)
      requires Check() && id in mapInfo
      modifies this
      ensures Check() && nKey == old(nKey) && nLastGood == old(nLastGood)
      ensures Snap() == WithInfo(old(Snap()), id, old(mapInfo[id]).(
                stats := Refreshed(old(mapInfo[id].stats), time, services, penalty, now)))
      ensures insert <==> SeeksSlot(mapInfo[id], time, rnd)
      ensures insert ==> Insertable(Key(), Snap(), id)
    {
      hide Sound, TimesOk, Insertable, Pow2, Refreshed;
      var i := mapInfo[id];
      var st := News(i.stats, time, services, penalty, now);
      RefreshedKeeps(i.stats, time, services, penalty, now);
      StatsKept(Key(), Snap(), {}, 0, id, st);
      SameTimes(mapInfo, id, st);
      mapInfo := mapInfo[id := i.(stats := st)];
      if time == 0 || (st.time != 0 && time <= st.time) || i.inTried || i.refCount == NEW_BUCKETS_PER_ADDRESS {
        return false;
      }
      OldInsertable(Key(), Snap(), id);
      insert := WinsDraw(i.refCount, rnd);
    }

    method Add(addr: Service, time: int, services: bv64, source: NetAddr, timePenalty: int, now: int, rnd: nat)
      returns (added: bool)
      requires Check()
      modifies this
      ensures Check() && nKey == old(nKey) && nLastGood == old(nLastGood)
      ensures added <==> isRoutable(addr) && addr.ip !in old(mapAddr)
      ensures !isRoutable(addr) ==> Snap() == old(Snap())
      // An added address is kept exactly when its slot was free or its occupant could be displaced.
      ensures added ==>
                var slot := Key().NewSlot(addr, source);
                && (addr.ip in mapAddr <==>
                      || slot !in old(vvNew)
                      || old(vvNew)[slot] !in old(mapInfo)
                      || old(mapInfo)[old(vvNew)[slot]].stats.IsTerrible(now)
                      || old(mapInfo)[old(vvNew)[slot]].refCount > 1)
                && (addr.ip in mapAddr ==>
                      && slot in vvNew && vvNew[slot] == mapAddr[addr.ip] && mapAddr[addr.ip] in mapInfo
                      && mapInfo[mapAddr[addr.ip]].refCount == 1
                      && mapInfo[mapAddr[addr.ip]].stats == NewStats(addr, source, time, services,
                         if addr.ip == source then 0 else timePenalty))
      // A known one is refreshed, and seeks one more slot with odds that halve with each slot it has.
      ensures isRoutable(addr) && addr.ip in old(mapAddr) ==>
                var id := old(mapAddr)[addr.ip];
                && id in old(mapInfo)
                && var i := old(mapInfo)[id].(stats := Refreshed(old(mapInfo)[id].stats, time, services,
                   if addr.ip == source then 0 else timePenalty, now));
                   if SeeksSlot(i, time, rnd) then Inserted(Key(), WithInfo(old(Snap()), id, i), Snap(), id, source,
                     now)
                   else Snap() == WithInfo(old(Snap()), id, i)
    {
      hide Sound, TimesOk, Insertable, Inserted, AddrsAgree, RandomAgrees, Stats.IsTerrible, Keyed.NewSlot, Refreshed,
           SeeksSlot;
      if !isRoutable(addr) {
        return false;
      }
      CheckedIndexes(Key(), Snap());
      var penalty := if addr.ip == source then 0 else timePenalty;
      var found := Find(addr.ip);
      if found.Some? {
        var insert := Refresh(found.value, time, services, penalty, now, rnd);
        if insert {
          ghost var u := Snap();
          Insert(found.value, source, now);
          InsertedTimes(Key(), u, Snap(), found.value, source, now);
        }
        return false;
      }
      ghost var k, t := Key(), Snap();
      var st := NewStats(addr, source, time, services, penalty);
      NewInsertable(k, t, st);
      var id := Create(st);
      nNew := nNew + 1;
      ghost var u := Snap();
      Insert(id, source, now);
      InsertedTimes(k, u, Snap(), id, source, now);
      InsertedNew(k, t, u, Snap(), st, now);
      return true;
    }

    /** A random selection: the good entries among a random prefix of the random order. */
    method GetAddr(now: int, rnd: nat -> nat) returns (selected: seq<Stats>)
      requires Check()
      modifies this
      ensures Check() && nKey == old(nKey) && nLastGood == old(nLastGood)
      ensures Snap() == old(Snap()).(infos := mapInfo, random := vRandom) && SameButPositions(old(mapInfo), mapInfo)
      ensures |selected| <= GETADDR_MAX && |selected| <= GETADDR_MAX_PCT * |vRandom| / 100
      ensures forall a | a in selected ::
                !a.IsTerrible(now) && a.service.ip in mapAddr && mapInfo[mapAddr[a.service.ip]].stats == a
      ensures forall m, n | 0 <= m < n < |selected| :: selected[m].service.ip != selected[n].service.ip
      ensures |selected| < GETADDR_MAX && |selected| < GETADDR_MAX_PCT * |vRandom| / 100 ==>
                forall id | id in mapInfo && !mapInfo[id].stats.IsTerrible(now) :: mapInfo[id].stats in selected
    {
      hide Sound, SameButPositions, Swapped, RandomAgrees, AddrsAgree, TimesOk, Checked, Gathered, Stats.IsTerrible;
      ghost var k, t := Key(), Snap();
      SelectionStarts(k, t);
      var nodes := GETADDR_MAX_PCT * |vRandom| / 100;
      if nodes > GETADDR_MAX {
        nodes := GETADDR_MAX;
      }
      selected := [];
      var n := 0;
      while n < |vRandom| && |selected| < nodes
        invariant 0 <= n <= |vRandom| == |t.random| && |selected| <= nodes
        invariant Key() == k && nLastGood == old(nLastGood)
        invariant Snap() == t.(infos := mapInfo, random := vRandom)
        invariant Sound(k, Snap(), {}, 0) && SameButPositions(t.infos, mapInfo)
        invariant selected == Gathered(t.infos, vRandom[..n], now)
      {
        ghost var u := Snap();
        var p := rnd(n) % (|vRandom| - n) + n;
        SwapFacts(k, t.infos, u, n, p);
        SwapRandom(n, p);
        var ai := mapInfo[vRandom[n]].stats;
        assert vRandom[..n] == u.random[..n];
        assert vRandom[..n + 1] == vRandom[..n] + [vRandom[n]];
        GatheredStep(t.infos, vRandom[..n], vRandom[n], now);
        if !ai.IsTerrible(now) {
          selected := selected + [ai];
        }
        n := n + 1;
      }
      SelectedFacts(k, t, Snap(), n, now);
    }
  }

  /** What an announcement tells about an address on file: a time that is news, and more services. */
  function Refreshed(st: Stats, time: int, services: bv64, penalty: int, now: int): Stats {
    var interval := if now - time < 24 * 60 * 60 then 60 * 60 else 24 * 60 * 60;
    var news := time != 0 && (st.time == 0 || st.time < time - interval - penalty);
    st.(time := if news then Max(0, time - penalty) else st.time, services := Joined(st.services, services))
  }

  /** Service flags, or-ed together. */
  function Joined(a: bv64, b: bv64): bv64 {
    a | b
  }

  method News(st: Stats, time: int, services: bv64, penalty: int, now: int) returns (st': Stats)
    ensures st' == Refreshed(st, time, services, penalty, now)
  {
    hide Joined;
    var online := now - time < 24 * 60 * 60;
    var updateInterval := if online then 60 * 60 else 24 * 60 * 60;
    st' := st;
    if time != 0 && (st.time == 0 || st.time < time - updateInterval - penalty) {
      st' := st'.(time := Max(0, time - penalty));
    }
    st' := st'.(services := Joined(st'.services, services));
  }

  lemma RefreshedKeeps(st: Stats, time: int, services: bv64, penalty: int, now: int)
    ensures Refreshed(st, time, services, penalty, now) == st.(
              time := Refreshed(st, time, services, penalty, now).time,
                services := Refreshed(st, time, services, penalty, now).services)
  {
  }

  /** The entry has news, is not tried, has a slot to spare, and wins one draw in 2^refCount. */
  predicate SeeksSlot(i: Info, time: int, rnd: nat)
    requires i.refCount >= 0
  {
    && time != 0 && !(i.stats.time != 0 && time <= i.stats.time)
    && !i.inTried && i.refCount != NEW_BUCKETS_PER_ADDRESS && rnd % Pow2(i.refCount) == 0
  }

  function NewStats(addr: Service, source: NetAddr, time: int, services: bv64, penalty: int): Stats {
    Stats(addr, source, Max(0, time - penalty), services, 0, 0, 0, 0)
  }

  function Max(a: int, b: int): int {
    if a < b then b else a
  }

  /** The stochastic test: each slot an entry has makes another one twice as hard to get. */
  method WinsDraw(refCount: nat, rnd: nat) returns (wins: bool)
    ensures wins <==> rnd % Pow2(refCount) == 0
  {
    hide Pow2;
    var factor := 1;
    Doubling(0);
    for n := 0 to refCount
      invariant factor == Pow2(n)
    {
      Doubling(n);
      factor := factor * 2;
    }
    wins := factor == 1 || rnd % factor == 0;
  }

  lemma Doubling(n: nat)
    ensures Pow2(0) == 1 && Pow2(n + 1) == 2 * Pow2(n)
  {
  }

  /** The statistics of the good ones among some ids, in order. */
  function Gathered(infos: Infos, ids: seq<int>, now: int): (r: seq<Stats>)
    ensures ids == [] ==> r == []
  {
    if ids == [] then [] else
    var last := ids[|ids| - 1];
    Gathered(infos, ids[..|ids| - 1], now) +
    if last in infos && !infos[last].stats.IsTerrible(now) then [infos[last].stats] else []
  }

  lemma GatheredStep(infos: Infos, ids: seq<int>, id: int, now: int)
    ensures Gathered(infos, ids + [id], now)
         == Gathered(infos, ids, now) + if id in infos &&
         !infos[id].stats.IsTerrible(now) then [infos[id].stats] else []
  {
    assert (ids + [id])[..|ids|] == ids;
  }

  /** Gathered holds exactly the good ones. */
  lemma {:induction false} GatheredExact(infos: Infos, ids: seq<int>, now: int)
    ensures |Gathered(infos, ids, now)| <= |ids|
    ensures forall a | a in Gathered(infos, ids, now) ::
              !a.IsTerrible(now) && exists id | id in ids :: id in infos && infos[id].stats == a
    ensures forall id | id in ids && id in infos && !infos[id].stats.IsTerrible(now) ::
              infos[id].stats in Gathered(infos, ids, now)
  {
    if ids != [] {
      var init := ids[..|ids| - 1];
      GatheredExact(infos, init, now);
      assert ids == init + [ids[|ids| - 1]];
    }
  }

  /** Distinct ids have distinct addresses, so nothing is selected twice. */
  lemma {:induction false} GatheredDistinct(infos: Infos, addrs: map<NetAddr, int>, ids: seq<int>, now: int)
    requires AddrsAgree(infos, addrs)
    requires forall m, n | 0 <= m < n < |ids| :: ids[m] != ids[n]
    ensures var r := Gathered(infos, ids, now); forall m, n | 0 <= m < n < |r| :: r[m].service.ip != r[n].service.ip
  {
    if ids != [] {
      var init := ids[..|ids| - 1];
      GatheredDistinct(infos, addrs, init, now);
      GatheredExact(infos, init, now);
      var last := ids[|ids| - 1];
      forall a | last in infos && a in Gathered(infos, init, now) ensures a.service.ip != infos[last].stats.service.ip
      {
        var id :| id in init && id in infos && infos[id].stats == a;
        assert id != last;
      }
    }
  }

  lemma SelectionStarts(k: Keyed, t: Tables)
    requires Checked(k, t)
    ensures SameButPositions(t.infos, t.infos) && Sound(k, t, {}, 0)
  {
  }

  lemma SwapFacts(k: Keyed, infos: Infos, u: Tables, n: nat, p: nat)
    requires Sound(k, u, {}, 0) && SameButPositions(infos, u.infos) && n <= p < |u.random|
    ensures u.random[n] in u.infos && u.random[p] in u.infos
    ensures var v := Swapped(u, n, p);
            && Sound(k, v, {}, 0) && RandomAgrees(v.infos, v.random) && SameButPositions(infos, v.infos)
            && v == u.(infos := v.infos, random := v.random)
            && |v.random| == |u.random| && v.random[..n] == u.random[..n]
            && v.random[n] in v.infos && v.random[n] in infos && v.infos[v.random[n]].stats == infos[v.random[n]].stats
  {
    hide AddrsAgree, TriedAgrees, RefsCounted, NewPlaced, InfosOk, TriedIds, NewIds;
    SwappedKeeps(k, u, {}, 0, n, p);
    var v := Swapped(u, n, p);
    assert infos.Keys == u.infos.Keys == v.infos.Keys;
    forall id | id in infos ensures infos[id] == v.infos[id].(randomPos := infos[id].randomPos)
    {
      assert u.infos[id] == v.infos[id].(randomPos := u.infos[id].randomPos);
    }
  }

  /** What a gathered prefix of a random order amounts to. */
  lemma SelectedFacts(k: Keyed, t: Tables, u: Tables, n: nat, now: int)
    requires Checked(k, t) && Sound(k, u, {}, 0) && SameButPositions(t.infos, u.infos) && n <= |u.random|
    requires u == t.(infos := u.infos, random := u.random)
    ensures var r := Gathered(t.infos, u.random[..n], now);
            && Checked(k, u) && |u.random| == |t.random|
            && (forall a | a in r ::
                 !a.IsTerrible(now) && a.service.ip in u.addrs && u.addrs[a.service.ip] in u.infos &&
                 u.infos[u.addrs[a.service.ip]].stats == a)
            && (forall a, b | 0 <= a < b < |r| :: r[a].service.ip != r[b].service.ip)
            && (n == |u.random| ==>
                 forall id | id in u.infos && !u.infos[id].stats.IsTerrible(now) :: u.infos[id].stats in r)
  {
    hide TriedAgrees, RefsCounted, NewPlaced, InfosOk, TriedIds, NewIds, Stats.IsTerrible;
    var ids := u.random[..n];
    assert t.infos.Keys == u.infos.Keys;
    assert forall id | id in t.infos :: t.infos[id] == u.infos[id].(randomPos := t.infos[id].randomPos);
    GatheredExact(t.infos, ids, now);
    assert forall a, b | 0 <= a < b < |ids| :: ids[a] != ids[b];
    GatheredDistinct(t.infos, t.addrs, ids, now);
    if n == |u.random| {
      forall id | id in u.infos ensures id in ids && t.infos[id].stats == u.infos[id].stats
      {
        assert ids[u.infos[id].randomPos] == id;
      }
    }
  }

  /** Survivors that also stay in or out of the tried table. */
  ghost predicate Kept(infos: Infos, infos': Infos) {
    Survivors(infos, infos') && forall id | id in infos' :: infos'[id].inTried == infos[id].inTried
  }

  /** A new entry that may take one more slot, or a limbo entry still counted as new. */
  ghost predicate Insertable(k: Keyed, t: Tables, id: int)
    requires id in t.infos
  {
    && !t.infos[id].inTried && 0 <= t.infos[id].refCount < NEW_BUCKETS_PER_ADDRESS
    && if t.infos[id].refCount == 0 then Sound(k, t, {id}, 1) else Sound(k, t, {}, 0)
  }

  /** The slot is free for `id`: empty, held by a terrible entry, or held by an entry with other
      slots while `id` has none. */
  ghost predicate Displaceable(t: Tables, slot: Slot, id: int, now: int)
    requires id in t.infos
  {
    || slot !in t.newTable
    || t.newTable[slot] !in t.infos
    || t.infos[t.newTable[slot]].stats.IsTerrible(now)
    || (t.infos[t.newTable[slot]].refCount > 1 && t.infos[id].refCount == 0)
  }

  /** What Insert does. */
  ghost predicate Inserted(k: Keyed, t: Tables, u: Tables, id: int, source: NetAddr, now: int) {
    && id in t.infos && Kept(t.infos, u.infos)
    && var slot := k.NewSlot(t.infos[id].stats.service, source);
    && if slot in t.newTable && t.newTable[slot] == id then u == t
       else if Displaceable(t, slot, id, now) then
         && u.newTable == t.newTable[slot := id] && id in u.infos && u.infos[id].refCount == t.infos[id].refCount + 1
         && forall x | x in t.infos && x !in u.infos :: slot in t.newTable && t.newTable[slot] == x
       else
         u.newTable == t.newTable && u.infos.Keys == (if t.infos[id].refCount == 0 then t.infos.Keys - {id}
           else t.infos.Keys)
  }

  /** Both outcomes of Insert, before it happens. */
  lemma InsertFacts(k: Keyed, t: Tables, id: int, source: NetAddr, now: int)
    requires id in t.infos && Insertable(k, t, id)
    ensures RandomAgrees(t.infos, t.random) && !t.infos[id].inTried
    ensures var slot := k.NewSlot(t.infos[id].stats.service, source);
            && (slot in t.newTable ==>
                 t.newTable[slot] in t.infos && !t.infos[t.newTable[slot]].inTried &&
                 t.infos[t.newTable[slot]].refCount > 0)
            && (slot in t.newTable && t.newTable[slot] == id ==>
                 Sound(k, t, {}, 0) && Inserted(k, t, t, id, source, now))
            && (!(slot in t.newTable && t.newTable[slot] == id) ==>
                  && id in Cleared(t, slot).infos && Cleared(t, slot).infos[id].refCount == t.infos[id].refCount
                  && Sound(k, Ref(Cleared(t, slot), slot, id), {}, 0)
                  && (Displaceable(t, slot, id, now) ==>
                       Inserted(k, t, Ref(Cleared(t, slot), slot, id), id, source, now)))
            && (!(slot in t.newTable && t.newTable[slot] == id) && !Displaceable(t, slot, id, now) ==>
                  if t.infos[id].refCount == 0
                  then Sound(k, Deleted(t, id), {}, 0) && Inserted(k, t, Deleted(t, id), id, source, now)
                  else Sound(k, t, {}, 0) && Inserted(k, t, t, id, source, now))
  {
    hide AddrsAgree, RandomAgrees, TriedAgrees, RefsCounted, NewPlaced, InfosOk, TriedIds, NewIds, Cleared, Deleted,
         Inserted, Displaceable;
    var limbo: set<int>, extra := if t.infos[id].refCount == 0 then {id} else {}, if t.infos[id].refCount == 0 then 1
      else 0;
    assert Sound(k, t, limbo, extra);
    var slot := k.NewSlot(t.infos[id].stats.service, source);
    if slot in t.newTable {
      UnrefKeeps(k, t, limbo, extra, slot);
    }
    if slot in t.newTable && t.newTable[slot] == id {
      StayedShape(k, t, id, source, now);
    } else {
      ClearedKeeps(k, t, limbo, extra, slot);
      ClearedRest(t, slot);
      assert Cleared(t, slot).infos[id].stats == t.infos[id].stats;
      RefKeeps(k, Cleared(t, slot), limbo, extra, slot, id);
      assert {id} - {id} == {};
      if Displaceable(t, slot, id, now) {
        DisplacedShape(k, t, id, source, now);
      } else if t.infos[id].refCount == 0 {
        DeletedKeeps(k, t, limbo, extra, id);
        LostShape(k, t, id, source, now);
      } else {
        StayedShape(k, t, id, source, now);
      }
    }
  }

  lemma StayedShape(k: Keyed, t: Tables, id: int, source: NetAddr, now: int)
    requires id in t.infos
    requires var slot := k.NewSlot(t.infos[id].stats.service, source);
             (slot in t.newTable && t.newTable[slot] == id) ||
               (!Displaceable(t, slot, id, now) && t.infos[id].refCount != 0)
    ensures Inserted(k, t, t, id, source, now)
  {
  }

  lemma DisplacedShape(k: Keyed, t: Tables, id: int, source: NetAddr, now: int)
    requires id in t.infos && RandomAgrees(t.infos, t.random)
    requires var slot := k.NewSlot(t.infos[id].stats.service, source);
             (slot in t.newTable ==> t.newTable[slot] in t.infos && t.newTable[slot] != id) &&
             Displaceable(t, slot, id, now)
    ensures var slot := k.NewSlot(t.infos[id].stats.service, source);
            id in Cleared(t, slot).infos && Inserted(k, t, Ref(Cleared(t, slot), slot, id), id, source, now)
  {
    hide RandomAgrees, Cleared, Displaceable, Keyed.NewSlot, Kept;
    var slot := k.NewSlot(t.infos[id].stats.service, source);
    ClearedRest(t, slot);
    var b := Cleared(t, slot);
    var u := Ref(b, slot, id);
    SameKeys(b.infos, id, u.infos[id]);
    Replaced(t.newTable, slot, id);
    ClearedKept(t, slot, id);
  }

  lemma ClearedKept(t: Tables, slot: Slot, id: int)
    requires id in t.infos && RandomAgrees(t.infos, t.random)
    requires slot in t.newTable ==> t.newTable[slot] in t.infos && t.newTable[slot] != id
    ensures id in Cleared(t, slot).infos && Kept(t.infos, Ref(Cleared(t, slot), slot, id).infos)
  {
    hide RandomAgrees, Cleared;
    ClearedRest(t, slot);
    var b := Cleared(t, slot);
    var u := Ref(b, slot, id);
    forall x | x in u.infos
      ensures x in t.infos && u.infos[x].stats == t.infos[x].stats && u.infos[x].inTried == t.infos[x].inTried
    {
      assert b.infos[x].stats == t.infos[x].stats && b.infos[x].inTried == t.infos[x].inTried;
    }
  }

  lemma LostShape(k: Keyed, t: Tables, id: int, source: NetAddr, now: int)
    requires id in t.infos && RandomAgrees(t.infos, t.random) && t.infos[id].refCount == 0
    requires var slot := k.NewSlot(t.infos[id].stats.service, source);
             !(slot in t.newTable && t.newTable[slot] == id) && !Displaceable(t, slot, id, now)
    ensures Inserted(k, t, Deleted(t, id), id, source, now)
  {
    hide RandomAgrees, Deleted, Displaceable, Keyed.NewSlot;
    DeletedRest(t, id);
    var u := Deleted(t, id);
    forall x | x in u.infos
      ensures x in t.infos && u.infos[x].stats == t.infos[x].stats && u.infos[x].inTried == t.infos[x].inTried
    {
      assert u.infos[x] == t.infos[x].(randomPos := u.infos[x].randomPos);
    }
  }

  lemma OldInsertable(k: Keyed, t: Tables, id: int)
    requires Sound(k, t, {}, 0) && id in t.infos && !t.infos[id].inTried &&
             t.infos[id].refCount != NEW_BUCKETS_PER_ADDRESS
    ensures Insertable(k, t, id) && t.infos[id].refCount >= 1
  {
    assert InfoOk(t.infos[id], false);
  }

  lemma NewInsertable(k: Keyed, t: Tables, st: Stats)
    requires Checked(k, t) && st.service.ip !in t.addrs && st.lastTry == 0 && st.lastSuccess == 0
    ensures var u := Created(t, st).(nNew := t.nNew + 1);
            t.idCount in u.infos && Insertable(k, u, t.idCount) && TimesOk(u.infos)
  {
    hide AddrsAgree, RandomAgrees, TriedAgrees, RefsCounted, NewPlaced, InfosOk, TriedIds, NewIds;
    CreatedKeeps(k, t, {}, 0, st);
    assert {} + {t.idCount} == {t.idCount};
  }

  lemma InsertedTimes(k: Keyed, t: Tables, u: Tables, id: int, source: NetAddr, now: int)
    requires Inserted(k, t, u, id, source, now) && TimesOk(t.infos)
    ensures TimesOk(u.infos)
  {
    forall x | x in u.infos
      ensures u.infos[x].stats.lastTry >= 0 && u.infos[x].stats.lastSuccess >= 0 &&
              (u.infos[x].inTried ==> u.infos[x].stats.lastSuccess != 0)
    {
      assert u.infos[x].stats == t.infos[x].stats && u.infos[x].inTried == t.infos[x].inTried;
    }
  }

  /** The outcome for an address that was not on file. */
  lemma InsertedNew(k: Keyed, t: Tables, u: Tables, v: Tables, st: Stats, now: int)
    requires Checked(k, t) && st.service.ip !in t.addrs && u == Created(t, st).(nNew := t.nNew + 1)
    requires Inserted(k, u, v, t.idCount, st.source, now) && Sound(k, v, {}, 0)
    ensures var slot := k.NewSlot(st.service, st.source); var ip := st.service.ip;
            && (ip in v.addrs <==> || slot !in t.newTable || t.newTable[slot] !in t.infos
                                   || t.infos[t.newTable[slot]].stats.IsTerrible(now) ||
                                     t.infos[t.newTable[slot]].refCount > 1)
            && (ip in v.addrs ==> && slot in v.newTable && v.newTable[slot] == v.addrs[ip] && v.addrs[ip] in v.infos
                                  && v.infos[v.addrs[ip]].refCount == 1 && v.infos[v.addrs[ip]].stats == st)
  {
    hide AddrsAgree, RandomAgrees, TriedAgrees, RefsCounted, NewPlaced, InfosOk, TriedIds, NewIds, Keyed.NewSlot,
         Stats.IsTerrible;
    var slot := k.NewSlot(st.service, st.source);
    FreshId(k, t, slot);
    OnFile(t.infos, t.addrs, t.idCount, u.infos[t.idCount], v.infos, v.addrs);
  }

  lemma FreshId(k: Keyed, t: Tables, slot: Slot)
    requires Sound(k, t, {}, 0)
    ensures t.idCount !in t.infos && (slot in t.newTable ==> t.newTable[slot] in t.infos)
  {
    hide AddrsAgree, RandomAgrees, TriedAgrees, RefsCounted, TriedIds, NewIds;
  }

  /** An address new to the tables is on file afterwards exactly when its entry survived. */
  lemma OnFile(infos: Infos, addrs: map<NetAddr, int>, id: int, i: Info, infos': Infos, addrs': map<NetAddr, int>)
    requires AddrsAgree(infos, addrs) && id !in infos && i.stats.service.ip !in addrs
    requires Survivors(infos[id := i], infos') && AddrsAgree(infos', addrs')
    ensures i.stats.service.ip in addrs' <==> id in infos'
    ensures id in infos' ==> addrs'[i.stats.service.ip] == id && infos'[id].stats == i.stats
  {
    var ip := i.stats.service.ip;
    assert forall x | x in infos :: infos[x].stats.service.ip != ip;
    if ip in addrs' {
      var x := addrs'[ip];
      assert infos'[x].stats == infos[id := i][x].stats;
    }
    if id in infos' {
      assert infos'[id].stats == infos[id := i][id].stats;
    }
  }

  lemma CheckedIndexes(k: Keyed, t: Tables)
    requires Checked(k, t)
    ensures AddrsAgree(t.infos, t.addrs) && RandomAgrees(t.infos, t.random)
  {
  }

  /** The m-th bucket from a start holds the id, at the service's place in it. */
  ghost predicate HoldsAfter(k: Keyed, table: Table, start: nat, m: nat, service: Service, id: int) {
    var s := k.InBucket(true, (m + start) % NEW_BUCKET_COUNT, service);
    s in table && table[s] == id
  }

  /** A new entry is found from whichever bucket the search starts. */
  lemma SomeBucketHolds(k: Keyed, t: Tables, id: int, rnd: nat)
    requires Sound(k, t, {}, 0) && id in t.infos && !t.infos[id].inTried && rnd < NEW_BUCKET_COUNT
    ensures exists m | 0 <= m < NEW_BUCKET_COUNT :: HoldsAfter(k, t.newTable, rnd, m, t.infos[id].stats.service, id)
  {
    hide AddrsAgree, RandomAgrees, TriedAgrees, TriedIds, NewIds;
    assert InfoOk(t.infos[id], false);
    assert SlotsOf(t.newTable, id) != {};
    var s :| s in SlotsOf(t.newTable, id);
    var m := if s.bucket >= rnd then s.bucket - rnd else s.bucket + NEW_BUCKET_COUNT - rnd;
    assert s == k.InBucket(true, s.bucket, t.infos[t.newTable[s]].stats.service);
    assert (m + rnd) % NEW_BUCKET_COUNT == s.bucket;
    assert HoldsAfter(k, t.newTable, rnd, m, t.infos[id].stats.service, id);
  }

  lemma GoodTimes(infos: Infos, mid: Infos, infos': Infos, id: int, st: Stats)
    requires TimesOk(infos) && id in infos && mid == infos[id := infos[id].(stats := st)] &&
             st.lastTry == st.lastSuccess
    requires mid == infos' || (Survivors(mid, infos') && TriedOnlyAlso(mid, infos', id))
    requires id in infos' && infos'[id].inTried
    ensures infos'[id].stats == st
    ensures forall x | x in infos' && x != id :: x in infos && infos'[x].stats == infos[x].stats
    ensures TimesOk(infos') <==> st.lastSuccess > 0
  {
    assert TimesOk(infos') ==> infos'[id].stats.lastSuccess > 0;
    forall x | x in infos' && x != id
      ensures infos'[x].stats.lastTry >= 0 && infos'[x].stats.lastSuccess >= 0 &&
              (infos'[x].inTried ==> infos'[x].stats.lastSuccess != 0)
    {
      assert infos'[x].stats == mid[x].stats;
      assert mid[x] == infos[x];
    }
  }

  lemma AttemptTimes(infos: Infos, id: int, st: Stats)
    requires TimesOk(infos) && id in infos && st.lastSuccess == infos[id].stats.lastSuccess
    ensures TimesOk(infos[id := infos[id].(stats := st)]) <==> st.lastTry >= 0
  {
    assert TimesOk(infos[id := infos[id].(stats := st)]) ==>
             infos[id := infos[id].(stats := st)][id].stats.lastTry >= 0;
  }

  lemma SameTimes(infos: Infos, id: int, st: Stats)
    requires TimesOk(infos) && id in infos
    requires st.lastSuccess == infos[id].stats.lastSuccess && st.lastTry == infos[id].stats.lastTry
    ensures TimesOk(infos[id := infos[id].(stats := st)])
  {
  }

  /** Nothing but `id` has entered the tried table. */
  ghost predicate TriedOnlyAlso(infos: Infos, infos': Infos, id: int) {
    forall x | x in infos' && infos'[x].inTried :: x == id || (x in infos && infos[x].inTried)
  }

  /** `evict` has left the tried table for the new slot of its own source; the only entry that
      may be gone is the one that slot held. */
  ghost predicate BackInNew(k: Keyed, infos: Infos, table: Table, infos': Infos, table': Table, evict: int) {
    && evict in infos && evict in infos' && !infos'[evict].inTried && infos'[evict].refCount == 1
    && Survivors(infos, infos')
    && var s := k.NewSlot(infos[evict].stats.service, infos[evict].stats.source);
    && table' == table[s := evict]
    && (forall x | x in infos && x !in infos' :: s in table && table[s] == x)
    && (forall x | x in infos' && x != evict :: infos'[x].inTried == infos[x].inTried)
  }

  ghost predicate Taken(k: Keyed, t: Tables, a: Tables, id: int, evict: int) {
    && evict in t.infos && t.infos[evict].inTried && evict != id
    && a == TakenFromTried(k, t, evict) && Sound(k, a, {id, evict}, 0)
  }

  lemma EvictionStarts(k: Keyed, t: Tables, id: int, kslot: Slot)
    requires Sound(k, t, {id}, 0) && kslot in t.triedTable
    ensures t.triedTable[kslot] in t.infos
    ensures kslot == k.TriedSlot(t.infos[t.triedTable[kslot]].stats.service)
    ensures Taken(k, t, TakenFromTried(k, t, t.triedTable[kslot]), id, t.triedTable[kslot])
  {
    hide AddrsAgree, RandomAgrees, RefsCounted, NewPlaced;
    var evict := t.triedTable[kslot];
    TakenKeeps(k, t, {id}, 0, evict);
    assert {id} + {evict} == {id, evict};
  }

  /** ClearNew may be called on the slot the evicted entry goes to. */
  lemma TakenShape(k: Keyed, t: Tables, a: Tables, id: int, evict: int, s: Slot)
    requires Taken(k, t, a, id, evict)
    ensures RandomAgrees(a.infos, a.random) && evict in a.infos && a.infos[evict].refCount == 0
    ensures s in a.newTable ==> a.newTable[s] in a.infos && a.newTable[s] != evict && a.newTable[s] != id &&
                                !a.infos[a.newTable[s]].inTried && a.infos[a.newTable[s]].refCount > 0
  {
    hide AddrsAgree, RandomAgrees, TriedAgrees, RefsCounted;
    assert InfoOk(a.infos[evict], true);
    if s in a.newTable {
      UnrefKeeps(k, a, {id, evict}, 0, s);
    }
  }

  lemma TakenCleared(k: Keyed, t: Tables, a: Tables, id: int, evict: int, s: Slot)
    requires Taken(k, t, a, id, evict)
    requires s == k.NewSlot(a.infos[evict].stats.service, a.infos[evict].stats.source)
    requires RandomAgrees(a.infos, a.random) && (s in a.newTable ==> a.newTable[s] in a.infos)
    ensures var b := Cleared(a, s);
            && s !in b.newTable && evict in b.infos && b.infos[evict].refCount == 0 && b.triedTable == a.triedTable
            && Sound(k, Ref(b, s, evict).(nNew := b.nNew + 1), {id}, 0)
            && BackInNew(k, t.infos, t.newTable, Ref(b, s, evict).infos, Ref(b, s, evict).newTable, evict)
  {
    hide Sound, RandomAgrees, Cleared, BackInNew, Keyed.NewSlot;
    TakenShape(k, t, a, id, evict, s);
    ClearedRest(a, s);
    ClearedRef(k, a, id, evict, s);
    EvictedShape(k, t, a, evict, s);
  }

  /** An evicted entry gets the slot that was cleared for it. */
  lemma ClearedRef(k: Keyed, a: Tables, id: int, evict: int, s: Slot)
    requires Sound(k, a, {id, evict}, 0) && id != evict && evict in a.infos && !a.infos[evict].inTried &&
             a.infos[evict].refCount == 0
    requires s == k.NewSlot(a.infos[evict].stats.service, a.infos[evict].stats.source)
    requires RandomAgrees(a.infos, a.random) && (s in a.newTable ==> a.newTable[s] in a.infos && a.newTable[s] != evict)
    ensures var b := Cleared(a, s); evict in b.infos && Sound(k, Ref(b, s, evict).(nNew := b.nNew + 1), {id}, 0)
  {
    hide Sound, RandomAgrees, Cleared;
    ClearedKeeps(k, a, {id, evict}, 0, s);
    ClearedRest(a, s);
    var b := Cleared(a, s);
    assert b.infos[evict].stats == a.infos[evict].stats;
    RefKeeps(k, b, {id, evict}, 0, s, evict);
    assert {id, evict} - {evict} == {id};
    OneMore(k, Ref(b, s, evict), {id}, -1);
  }

  lemma OneMore(k: Keyed, t: Tables, limbo: set<int>, extra: int)
    requires Sound(k, t, limbo, extra)
    ensures Sound(k, t.(nNew := t.nNew + 1), limbo, extra + 1)
  {
    hide AddrsAgree, RandomAgrees, TriedAgrees, RefsCounted, NewPlaced, InfosOk, TriedIds, NewIds;
  }

  lemma EvictedShape(k: Keyed, t: Tables, a: Tables, evict: int, s: Slot)
    requires evict in t.infos && a.infos == t.infos[evict := t.infos[evict].(inTried := false)] &&
             a.newTable == t.newTable
    requires s == k.NewSlot(t.infos[evict].stats.service, t.infos[evict].stats.source)
    requires RandomAgrees(a.infos, a.random) && t.infos[evict].refCount == 0
    requires s in a.newTable ==> a.newTable[s] in a.infos && a.newTable[s] != evict
    ensures var b := Cleared(a, s);
            && evict in b.infos
            && BackInNew(k, t.infos, t.newTable, b.infos[evict := b.infos[evict].(refCount := 1)],
               b.newTable[s := evict], evict)
  {
    hide RandomAgrees, Cleared, Keyed.NewSlot;
    ClearedRest(a, s);
    var b := Cleared(a, s);
    var infos := b.infos[evict := b.infos[evict].(refCount := 1)];
    assert (t.newTable - {s})[s := evict] == t.newTable[s := evict];
    forall x | x in infos
      ensures infos[x].stats == t.infos[x].stats
      ensures x != evict ==> infos[x].inTried == t.infos[x].inTried
    {
      assert b.infos[x].stats == a.infos[x].stats;
      assert b.infos[x].inTried == a.infos[x].inTried;
    }
  }

  lemma SameKeys(infos: Infos, id: int, i: Info)
    requires id in infos
    ensures infos[id := i].Keys == infos.Keys
  {
  }

  lemma Replaced(table: Table, s: Slot, id: int)
    ensures (table - {s})[s := id] == table[s := id]
  {
  }

  lemma LeftSurvivors(t: Tables, u: Tables, id: int)
    requires id in t.infos && u.infos == t.infos[id := t.infos[id].(refCount := 0)]
    ensures Survivors(t.infos, u.infos) && u.infos.Keys == t.infos.Keys && TriedOnlyAlso(t.infos, u.infos, id)
  {
  }

  lemma EvictionSurvivors(k: Keyed, t: Tables, u: Tables, v: Tables, id: int, kslot: Slot)
    requires Sound(k, u, {id}, 0) && kslot in u.triedTable && Survivors(t.infos, u.infos) &&
             u.infos.Keys == t.infos.Keys
    requires TriedOnlyAlso(t.infos, u.infos, id)
    requires Sound(k, v, {id}, 0) && BackInNew(k, u.infos, u.newTable, v.infos, v.newTable, u.triedTable[kslot])
    ensures Survivors(t.infos, v.infos) && |t.infos.Keys - v.infos.Keys| <= 1 && TriedOnlyAlso(t.infos, v.infos, id)
    ensures u.triedTable[kslot] in v.infos && !v.infos[u.triedTable[kslot]].inTried &&
            v.infos[u.triedTable[kslot]].refCount == 1
    ensures u.triedTable[kslot] != id
  {
    hide AddrsAgree, RandomAgrees, RefsCounted, NewPlaced;
    var evict := u.triedTable[kslot];
    assert InfoOk(u.infos[id], true);
    var s := k.NewSlot(u.infos[evict].stats.service, u.infos[evict].stats.source);
    var gone := t.infos.Keys - v.infos.Keys;
    if gone != {} {
      assert forall x | x in gone :: x == u.newTable[s];
      var x :| x in gone;
      assert gone == {x};
    }
  }

  lemma PutFacts(k: Keyed, t: Tables, v: Tables, id: int)
    requires Sound(k, v, {id}, 0) && id in t.infos && Survivors(t.infos, v.infos)
    requires TriedOnlyAlso(t.infos, v.infos, id)
    requires k.TriedSlot(t.infos[id].stats.service) !in v.triedTable
    ensures id in v.infos && v.infos[id].stats == t.infos[id].stats
    ensures Sound(k, PutInTried(k, v, id), {}, 0) && Survivors(t.infos, PutInTried(k, v, id).infos)
    ensures TriedOnlyAlso(t.infos, PutInTried(k, v, id).infos, id)
  {
    hide AddrsAgree, RandomAgrees, RefsCounted, NewPlaced, TriedAgrees, TriedIds, NewIds;
    PutKeeps(k, v, {id}, 0, id);
    assert {id} - {id} == {};
  }

  /** How far an entry has left the new table: `u` is `t` without its slots in the first
      `bucket` buckets, and the entry is in limbo once none is left. */
  ghost predicate Leaving(k: Keyed, t: Tables, u: Tables, id: int, bucket: int) {
    && id in t.infos && id in u.infos && !t.infos[id].inTried && NewPlaced(k, t.infos, t.newTable)
    && u == t.(infos := t.infos[id := t.infos[id].(refCount := u.infos[id].refCount)], newTable := u.newTable)
    && (forall s :: s in u.newTable <==> s in t.newTable && !(t.newTable[s] == id && s.bucket < bucket))
    && (forall s | s in u.newTable :: u.newTable[s] == t.newTable[s])
    && (if u.infos[id].refCount > 0 then Sound(k, u, {}, 0) else Sound(k, u, {id}, 1))
  }

  lemma LeavingStarts(k: Keyed, t: Tables, id: int)
    requires Sound(k, t, {}, 0) && id in t.infos && !t.infos[id].inTried
    ensures Leaving(k, t, t, id, 0)
  {
    hide AddrsAgree, RandomAgrees, TriedAgrees, RefsCounted, NewPlaced;
    assert InfoOk(t.infos[id], false);
    assert t.infos == t.infos[id := t.infos[id].(refCount := t.infos[id].refCount)];
  }

  lemma LeavingShape(k: Keyed, t: Tables, u: Tables, id: int, bucket: int)
    requires Leaving(k, t, u, id, bucket)
    ensures id in t.infos && id in u.infos && u.infos[id].stats == t.infos[id].stats
  {
  }

  lemma LeavingStep(k: Keyed, t: Tables, u: Tables, id: int, bucket: nat)
    requires Leaving(k, t, u, id, bucket)
    ensures var slot := k.InBucket(true, bucket, t.infos[id].stats.service);
            if slot in u.newTable && u.newTable[slot] == id then Leaving(k, t, Unref(u, slot), id, bucket + 1)
            else Leaving(k, t, u, id, bucket + 1)
  {
    hide AddrsAgree, RandomAgrees, TriedAgrees, RefsCounted, InfosOk, TriedIds, NewIds, Sound;
    var slot := k.InBucket(true, bucket, t.infos[id].stats.service);
    forall s | s in t.newTable && t.newTable[s] == id && s.bucket == bucket ensures s == slot
    {
      assert s == k.InBucket(true, s.bucket, t.infos[t.newTable[s]].stats.service);
    }
    if slot in u.newTable && u.newTable[slot] == id {
      UnrefKeeps(k, u, if u.infos[id].refCount > 0 then {} else {id}, if u.infos[id].refCount > 0 then 0 else 1, slot);
      assert {} + {id} == {id};
    }
  }

  lemma LeavingEnds(k: Keyed, t: Tables, u: Tables, id: int)
    requires Leaving(k, t, u, id, NEW_BUCKET_COUNT)
    ensures u == t.(infos := t.infos[id := t.infos[id].(refCount := 0)],
              newTable := t.newTable - SlotsOf(t.newTable, id))
    ensures Sound(k, u.(nNew := u.nNew - 1), {id}, 0)
  {
    hide AddrsAgree, RandomAgrees, TriedAgrees, InfosOk, TriedIds, NewIds;
    forall s | s in t.newTable ensures s.bucket < NEW_BUCKET_COUNT {}
    forall s ensures s !in SlotsOf(u.newTable, id) {}
    assert SlotsOf(u.newTable, id) == {};
    assert u.infos[id].refCount == 0;
    forall s ensures s in u.newTable <==> s in t.newTable - SlotsOf(t.newTable, id) {}
    assert u.newTable == t.newTable - SlotsOf(t.newTable, id);
  }

  /** The total the check compares first: every entry is in exactly one table. */
  lemma EntriesCounted(k: Keyed, t: Tables)
    requires Checked(k, t)
    ensures |t.random| == t.nTried + t.nNew
  {
    hide AddrsAgree, TriedAgrees, NewPlaced, RefsCounted, InfosOk;
    var tried, new_ := TriedIds(t.infos), NewIds(t.infos);
    assert new_ - {} == new_;
    forall id ensures id in t.infos.Keys <==> id in tried + new_ {}
    assert t.infos.Keys == tried + new_;
    assert tried !! new_;
    assert |t.infos.Keys| == |tried + new_| == |tried| + |new_|;
  }

  // ---- whole runs ----

  datatype Call =
    | CallAdd(addr: Service, time: int, services: bv64, source: NetAddr, penalty: int, now: int, rnd: nat)
    | CallGood(addr: Service, time: int, rnd: nat)
    | CallAttempt(addr: Service, countFailure: bool, time: int)
    | CallConnected(addr: Service, time: int)
    | CallSetServices(addr: Service, services: bv64)
    | CallGetAddr(now: int, choices: nat -> nat)
  {
    /** Good needs a positive time, Attempt one that is not negative; no call needs more. */
    predicate Timely() {
      (CallGood? ==> time > 0 && rnd < NEW_BUCKET_COUNT) && (CallAttempt? ==> time >= 0)
    }
  }

  /** Every run from a fresh manager keeps every condition of the consistency check. */
  method Run(h: Hashes, routable: Service -> bool, key: nat, calls: seq<Call>) returns (m: AddressManager)
    requires key != 0 && forall c | c in calls :: c.Timely()
    ensures m.Check() && |m.vRandom| == m.nTried + m.nNew
  {
    m := new AddressManager(h, routable, key);
    for i := 0 to |calls|
      invariant fresh(m) && m.Check()
    {
      assert calls[i].Timely();
      match calls[i]
      case CallAdd(addr, time, services, source, penalty, now, rnd) =>
        var added := m.Add(addr, time, services, source, penalty, now, rnd);
      case CallGood(addr, time, rnd) =>
        m.Good(addr, time, rnd);
      case CallAttempt(addr, countFailure, time) =>
        m.Attempt(addr, countFailure, time);
      case CallConnected(addr, time) =>
        m.Connected(addr, time);
      case CallSetServices(addr, services) =>
        m.SetServices(addr, services);
      case CallGetAddr(now, choices) =>
        var selected := m.GetAddr(now, choices);
    }
    EntriesCounted(m.Key(), m.Snap());
  }
}
