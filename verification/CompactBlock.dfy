/** Compact messages: the map from short ids to slots, filling in what is missing, and the sender. */
module CompactBlock {
  import opened Collections
  import opened CompactSlots

  datatype Status = Ok | Invalid | Failed | CheckFailed
  datatype Check = Passes | CorruptionPossible | Fails

  /** A transaction the node already has, under the hash short ids are made from. */
  datatype Known<T, H> = Known(hash: H, tx: T)

  // ---- the map from short ids to slots ----

  /** A short id among the first `i` that leads to slot `v`. */
  ghost predicate Leads(ids: seq<nat>, free: seq<nat>, i: nat, k: nat, v: nat)
    requires i <= |ids| == |free|
  {
    exists j :: 0 <= j < i && ids[j] == k && v == free[j]
  }

  /** The ids seen so far lead to the first free slots; if none was seen twice, each leads to its own. */
  ghost predicate Mapped(ids: seq<nat>, free: seq<nat>, i: nat, m: map<nat, nat>)
    requires i <= |ids| == |free|
  {
    && |m| <= i
    && (forall k | k in m :: Leads(ids, free, i, k, m[k]))
    && (|m| == i ==> forall j | 0 <= j < i :: ids[j] in m && m[ids[j]] == free[j])
    && (Unique(ids, i) <==> |m| == i)
  }

  /** None of the first `i` short ids occurs twice. */
  predicate Unique(ids: seq<nat>, i: nat)
    requires i <= |ids|
  {
    forall j, k | 0 <= j < k < i :: ids[j] != ids[k]
  }

  lemma MapSize(m: map<nat, nat>, k: nat, v: nat)
    ensures |m[k := v]| == if k in m then |m| else |m| + 1
  {
    var r := m[k := v];
    assert r.Keys == m.Keys + {k};
    assert |r| == |r.Keys| && |m| == |m.Keys|;
  }

  lemma LeadsOn(ids: seq<nat>, free: seq<nat>, i: nat, k: nat, v: nat)
    requires i < |ids| == |free|
    ensures Leads(ids, free, i, k, v) ==> Leads(ids, free, i + 1, k, v)
    ensures Leads(ids, free, i + 1, ids[i], free[i])
  {
    if Leads(ids, free, i, k, v) {
      var j :| 0 <= j < i && ids[j] == k && v == free[j];
      assert 0 <= j < i + 1 && ids[j] == k && v == free[j];
    }
    assert 0 <= i < i + 1 && ids[i] == ids[i] && free[i] == free[i];
  }

  lemma MapOne(ids: seq<nat>, free: seq<nat>, i: nat, m: map<nat, nat>)
    requires i < |ids| == |free| && Mapped(ids, free, i, m)
    ensures Mapped(ids, free, i + 1, m[ids[i] := free[i]])
  {
    hide Leads;
    var r := m[ids[i] := free[i]];
    MapSize(m, ids[i], free[i]);
    if ids[i] in m {
      SeenBefore(ids, free, i, ids[i], m[ids[i]]);
    }
    forall k | k in r ensures Leads(ids, free, i + 1, k, r[k])
    {
      LeadsOn(ids, free, i, k, r[k]);
    }
  }

  lemma SeenBefore(ids: seq<nat>, free: seq<nat>, i: nat, k: nat, v: nat)
    requires i < |ids| == |free| && Leads(ids, free, i, k, v)
    ensures ids[i] == k ==> !Unique(ids, i + 1)
  {
  }

  /** The map is as large as the list of ids exactly when none occurs twice. */
  lemma MapsAll(ids: seq<nat>, free: seq<nat>, m: map<nat, nat>)
    requires |ids| == |free| && Mapped(ids, free, |ids|, m)
    ensures |m| == |ids| ==> IdMap(ids, free, m)
    ensures |m| == |ids| <==> Unique(ids, |ids|)
  {
  }

  /** Each short id leads to its slot, and nothing else is in the map. */
  ghost predicate IdMap(ids: seq<nat>, free: seq<nat>, m: map<nat, nat>)
    requires |ids| == |free|
  {
    && (forall j | 0 <= j < |ids| :: ids[j] in m && m[ids[j]] == free[j])
    && (forall k | k in m :: Leads(ids, free, |ids|, k, m[k]))
    && |m| == |ids|
  }

  // ---- slot numbers of 16 bits ----

  /** The free slots as the map can hold them. */
  function Wrapped(free: seq<nat>): (r: seq<nat>)
    ensures |r| == |free| && forall j | 0 <= j < |r| :: r[j] == free[j] % 0x1_0000
  {
    seq(|free|, j requires 0 <= j < |free| => free[j] % 0x1_0000)
  }

  /** In an acceptable message the last slot past 16 bits is free. */
  lemma LastIsFree<T>(isNull: T -> bool, msg: Message<T>)
    requires InBounds(isNull, msg, |msg.prefilled|) && Count(msg) > 0x1_0000
    ensures var free := Free(Placed(isNull, msg, |msg.prefilled|)); free != [] && free[|free| - 1] == Count(msg) - 1
  {
    hide Free;
    SlotsPartitioned(isNull, msg);
    var free, last := Free(Placed(isNull, msg, |msg.prefilled|)), Count(msg) - 1;
    forall i: nat | i < |msg.prefilled| ensures Pos(msg.prefilled, i) <= 0xFFFF
    {
      assert PrefilledOk(isNull, msg, i);
    }
    assert last in free;
    var j :| 0 <= j < |free| && free[j] == last;
  }

  /** So with distinct ids each leads to its own slot exactly when all slot numbers fit 16 bits. */
  lemma MapIsRight<T>(isNull: T -> bool, msg: Message<T>, m: map<nat, nat>)
    requires InBounds(isNull, msg, |msg.prefilled|) && Unique(msg.shortIds, |msg.shortIds|)
    requires var free := Free(Placed(isNull, msg, |msg.prefilled|));
             |free| == |msg.shortIds| && IdMap(msg.shortIds, Wrapped(free), m)
    ensures IdMap(msg.shortIds, Free(Placed(isNull, msg, |msg.prefilled|)), m) <==> Count(msg) <= 0x1_0000
  {
    hide Free, Leads;
    SlotsPartitioned(isNull, msg);
    var free := Free(Placed(isNull, msg, |msg.prefilled|));
    if Count(msg) <= 0x1_0000 {
      assert Wrapped(free) == free;
    } else {
      LastIsFree(isNull, msg);
      var last := |free| - 1;
      assert m[msg.shortIds[last]] == Wrapped(free)[last] < 0x1_0000 <= free[last];
    }
  }

  // ---- filling in the missing transactions ----

  /** The slots in order, with the empty ones taken from the list. */
  function FilledIn<T>(slots: seq<Option<T>>, missing: seq<T>): seq<T>
    requires |missing| == |Free(slots)|
  {
    if slots == [] then []
    else
      var n := |slots| - 1;
      if slots[n].Some? then FilledIn(slots[..n], missing) + [slots[n].value]
      else FilledIn(slots[..n], missing[..|missing| - 1]) + [missing[|missing| - 1]]
  }

  /** The entries of a list at the empty slots, in order. */
  function MissingOf<T>(slots: seq<Option<T>>, vtx: seq<T>): (r: seq<T>)
    requires |slots| == |vtx|
    ensures |r| == |Free(slots)|
  {
    if slots == [] then []
    else
      var n := |slots| - 1;
      MissingOf(slots[..n], vtx[..n]) + if slots[n].None? then [vtx[n]] else []
  }

  ghost predicate NothingWrong<T>(slots: seq<Option<T>>, vtx: seq<T>)
    requires |slots| == |vtx|
  {
    forall p | 0 <= p < |slots| && slots[p].Some? :: slots[p].value == vtx[p]
  }

  /** Slots filled with what is missing are the list exactly when they hold nothing wrong. */
  lemma {:induction false} FillRebuilds<T>(slots: seq<Option<T>>, vtx: seq<T>)
    requires |slots| == |vtx|
    ensures FilledIn(slots, MissingOf(slots, vtx)) == vtx <==> NothingWrong(slots, vtx)
    decreases |slots|
  {
    if slots != [] {
      var n := |slots| - 1;
      FillRebuilds(slots[..n], vtx[..n]);
      var m, r := MissingOf(slots[..n], vtx[..n]), FilledIn(slots, MissingOf(slots, vtx));
      if slots[n].None? {
        assert (m + [vtx[n]])[..|m|] == m;
      } else {
        assert m + [] == m;
      }
      assert vtx == vtx[..n] + [vtx[n]];
      FilledLength(slots[..n], m);
      assert r[..n] == FilledIn(slots[..n], m);
      WrongSplit(slots, vtx);
    }
  }

  lemma WrongSplit<T>(slots: seq<Option<T>>, vtx: seq<T>)
    requires |slots| == |vtx| > 0
    ensures var n := |slots| - 1;
            NothingWrong(slots, vtx) <==>
              NothingWrong(slots[..n], vtx[..n]) && (slots[n].Some? ==> slots[n].value == vtx[n])
  {
    var n := |slots| - 1;
    if NothingWrong(slots[..n], vtx[..n]) {
      forall p | 0 <= p < n && slots[p].Some? ensures slots[p].value == vtx[p]
      {
        assert slots[..n][p] == slots[p];
      }
    }
  }

  lemma {:induction false} FilledLength<T>(slots: seq<Option<T>>, missing: seq<T>)
    requires |missing| == |Free(slots)|
    ensures |FilledIn(slots, missing)| == |slots|
    decreases |slots|
  {
    if slots != [] {
      var n := |slots| - 1;
      FilledLength(slots[..n], if slots[n].Some? then missing else missing[..|missing| - 1]);
    }
  }

  // ---- messages that describe a block ----

  /** Prefilled transactions are the block's at their slots, and the ids are those of the other slots in order. */
  ghost predicate Describes<T(!new), H>(isNull: T -> bool, whash: T -> H, shortId: H -> nat, msg: Message<T>,
                              vtx: seq<T>)
    requires InBounds(isNull, msg, |msg.prefilled|)
  {
    var placed := Placed(isNull, msg, |msg.prefilled|);
    && |vtx| == |placed| && |Free(placed)| == |msg.shortIds|
    && (forall p | 0 <= p < |vtx| && placed[p].Some? :: placed[p].value == vtx[p])
    && (forall j | 0 <= j < |msg.shortIds| ::
         Free(placed)[j] < |vtx| && msg.shortIds[j] == shortId(whash(vtx[Free(placed)[j]])))
  }

  /** No known transaction has the short id of a different transaction of the block. */
  ghost predicate NoConfusion<T, H>(known: seq<Known<T, H>>, whash: T -> H, shortId: H -> nat, vtx: seq<T>) {
    forall k, p | 0 <= k < |known| && 0 <= p < |vtx| && shortId(known[k].hash) == shortId(whash(vtx[p])) ::
      known[k].tx == vtx[p]
  }

  // ---- the sender ----

  /** The coinbase in full and short ids for the rest. */
  method MakeCompact<T, H>(whash: T -> H, shortId: H -> nat, vtx: seq<T>) returns (msg: Message<T>)
    requires vtx != []
    ensures msg == Compact(whash, shortId, vtx)
  {
    var ids := seq(|vtx| - 1, i => 0);
    for i := 1 to |vtx|
      invariant |ids| == |vtx| - 1 && forall j | 0 <= j < i - 1 :: ids[j] == shortId(whash(vtx[j + 1]))
    {
      ids := ids[i - 1 := shortId(whash(vtx[i]))];
    }
    msg := Message(false, ids, [Prefilled(0, vtx[0])]);
  }

  function Compact<T, H>(whash: T -> H, shortId: H -> nat, vtx: seq<T>): Message<T>
    requires vtx != []
  {
    Message(false, seq(|vtx| - 1, i requires 0 <= i < |vtx| - 1 => shortId(whash(vtx[i + 1]))), [Prefilled(0, vtx[0])])
  }

  lemma CompactDescribes<T(!new), H>(isNull: T -> bool, whash: T -> H, shortId: H -> nat, vtx: seq<T>)
    requires vtx != [] && !isNull(vtx[0])
    ensures InBounds(isNull, Compact(whash, shortId, vtx), 1)
    ensures Describes(isNull, whash, shortId, Compact(whash, shortId, vtx), vtx)
  {
    var msg := Compact(whash, shortId, vtx);
    assert PrefilledOk(isNull, msg, 0);
    PlacedIs(isNull, msg, 1);
    var placed := Placed(isNull, msg, 1);
    assert placed == Empty<T>(|vtx|)[0 := Some(vtx[0])];
    FreeAfterFirst(placed);
  }

  lemma {:induction false} FreeAfterFirst<T>(slots: seq<Option<T>>)
    requires slots != [] && slots[0].Some? && forall p | 0 < p < |slots| :: slots[p] == None
    ensures |Free(slots)| == |slots| - 1 && forall j | 0 <= j < |slots| - 1 :: Free(slots)[j] == j + 1
    decreases |slots|
  {
    if |slots| > 1 {
      FreeAfterFirst(slots[..|slots| - 1]);
    } else {
      assert slots[..0] == [];
    }
  }
}
