/** What the scan of known transactions makes of one slot, apart from all others. */
module CompactScan {
  import opened Collections
  import opened CompactSlots
  import opened CompactBlock

  /** A slot no transaction was found for, one was found for, or several were. */
  datatype Seen<T> = Unseen | Held(tx: T) | Contested

  function After<T, H(==)>(whash: T -> H, s: Seen<T>, tx: T, keepSame: bool): Seen<T> {
    match s
    case Unseen => Held(tx)
    case Held(t) => if keepSame && whash(t) == whash(tx) then s else Contested
    case Contested => Contested
  }

  /** The short id of a known transaction leads to slot `p`. */
  predicate LeadsTo<T, H>(shortId: H -> nat, m: map<nat, nat>, k: Known<T, H>, p: nat) {
    shortId(k.hash) in m && m[shortId(k.hash)] == p
  }

  /** The known transactions from one position to another, as far as they lead to the slot. */
  function Judge<T, H(==)>(whash: T -> H, shortId: H -> nat, m: map<nat, nat>, known: seq<Known<T, H>>, p: nat,
                           from: nat, end: nat, keepSame: bool, s: Seen<T>): Seen<T>
    requires from <= end <= |known|
    decreases end - from
  {
    if from == end then s
    else
      var before := Judge(whash, shortId, m, known, p, from, end - 1, keepSame, s);
      if LeadsTo(shortId, m, known[end - 1], p) then After(whash, before, known[end - 1].tx, keepSame) else before
  }

  /** The first `a` pool transactions, then the extra ones from `n` to `b`. */
  function Verdict<T, H(==)>(whash: T -> H, shortId: H -> nat, m: map<nat, nat>, known: seq<Known<T, H>>, p: nat,
                             n: nat, a: nat, b: nat): Seen<T>
    requires a <= n <= b <= |known|
  {
    Judge(whash, shortId, m, known, p, n, b, true, Judge(whash, shortId, m, known, p, 0, a, false, Unseen))
  }

  ghost predicate Has<T, H>(shortId: H -> nat, m: map<nat, nat>, known: seq<Known<T, H>>, p: nat, i: nat) {
    i < |known| && LeadsTo(shortId, m, known[i], p)
  }

  ghost predicate SomeHas<T, H>(shortId: H -> nat, m: map<nat, nat>, known: seq<Known<T, H>>, p: nat, from: nat,
                                end: nat) {
    exists i: nat :: from <= i < end && Has(shortId, m, known, p, i)
  }

  /** A pool transaction is taken exactly when it is the only one that leads to the slot. */
  lemma {:induction false} PoolVerdict<T, H>(whash: T -> H, shortId: H -> nat, m: map<nat, nat>,
                                             known: seq<Known<T, H>>, p: nat, a: nat)
    requires a <= |known|
    ensures match Judge(whash, shortId, m, known, p, 0, a, false, Unseen)
            case Unseen => !SomeHas(shortId, m, known, p, 0, a)
            case Held(t) => exists i: nat :: i < a && Has(shortId, m, known, p, i) && known[i].tx == t &&
                                             (forall k: nat | k < a && Has(shortId, m, known, p, k) :: k == i)
            case Contested =>
              exists i: nat, k: nat :: i < k < a && Has(shortId, m, known, p, i) && Has(shortId, m, known, p, k)
  {
    hide LeadsTo;
    if a > 0 {
      PoolVerdict(whash, shortId, m, known, p, a - 1);
      assert Has(shortId, m, known, p, a - 1) <==> LeadsTo(shortId, m, known[a - 1], p);
    }
  }

  /** An extra transaction is taken when the pool had none, and only contests a different one. */
  lemma {:induction false} ExtraVerdict<T, H>(whash: T -> H, shortId: H -> nat, m: map<nat, nat>,
                                              known: seq<Known<T, H>>, p: nat,
                                              n: nat, b: nat, s: Seen<T>, t: T)
    requires n <= b <= |known| && s != Contested && (s.Held? ==> s.tx == t)
    requires forall i: nat | n <= i < b && Has(shortId, m, known, p, i) :: known[i].tx == t
    ensures Judge(whash, shortId, m, known, p, n, b, true, s) ==
            if s.Held? || SomeHas(shortId, m, known, p, n, b) then Held(t) else Unseen
    decreases b
  {
    hide LeadsTo;
    if n < b {
      ExtraVerdict(whash, shortId, m, known, p, n, b - 1, s, t);
      assert Has(shortId, m, known, p, b - 1) <==> LeadsTo(shortId, m, known[b - 1], p);
    }
  }

  /** A transaction that is still held has met no other one. */
  lemma {:induction false} ExtraMeans<T, H>(whash: T -> H, shortId: H -> nat, m: map<nat, nat>,
                                            known: seq<Known<T, H>>, p: nat,
                                            n: nat, b: nat, s: Seen<T>)
    requires n <= b <= |known|
    ensures match Judge(whash, shortId, m, known, p, n, b, true, s)
            case Unseen => s == Unseen && !SomeHas(shortId, m, known, p, n, b)
            case Held(t) =>
              && (s == Held(t) || (s.Unseen? && exists i: nat ::
                   n <= i < b && Has(shortId, m, known, p, i) && known[i].tx == t))
                            && forall i: nat | n <= i < b && Has(shortId, m, known, p, i) ::
                                 whash(known[i].tx) == whash(t)
            case Contested => true
    decreases b
  {
    hide LeadsTo;
    if n < b {
      ExtraMeans(whash, shortId, m, known, p, n, b - 1, s);
      assert Has(shortId, m, known, p, b - 1) <==> LeadsTo(shortId, m, known[b - 1], p);
    }
  }

  // ---- all slots at once ----

  ghost predicate Shows<T>(placed: seq<Option<T>>, slots: seq<Option<T>>, have: seq<bool>, p: nat, s: Seen<T>) {
    && p < |placed| == |slots| == |have|
    && match s
       case Unseen => !have[p] && slots[p] == placed[p]
       case Held(t) => have[p] && slots[p] == Some(t)
       case Contested => have[p] && slots[p] == None
  }

  ghost predicate Reflects<T>(placed: seq<Option<T>>, slots: seq<Option<T>>, have: seq<bool>, seen: seq<Seen<T>>) {
    && |seen| == |placed| == |slots| == |have|
    && forall p: nat | p < |seen| :: Shows(placed, slots, have, p, seen[p])
  }

  /** Where each slot stands after the known transactions from one position to another. */
  ghost predicate Judged<T(!new), H>(whash: T -> H, shortId: H -> nat, m: map<nat, nat>, known: seq<Known<T, H>>,
                                     from: nat, end: nat, keepSame: bool, start: seq<Seen<T>>, seen: seq<Seen<T>>)
  {
    && from <= end <= |known| && |start| == |seen|
    && forall p: nat | p < |seen| :: seen[p] == Judge(whash, shortId, m, known, p, from, end, keepSame, start[p])
  }

  /** The slots that hold a transaction found by the scan. */
  ghost function HeldSet<T>(seen: seq<Seen<T>>): set<nat> {
    set p: nat | p < |seen| && seen[p].Held?
  }

  /** One known transaction offered to slot `p`: it fills an untouched slot and empties a contested one. */
  function Offered<T, H(==)>(whash: T -> H, slots: seq<Option<T>>, have: seq<bool>, count: nat, p: nat, tx: T,
                        keepSame: bool):
    (seq<Option<T>>, seq<bool>, nat)
    requires p < |slots| == |have| && (have[p] && slots[p].Some? ==> count > 0)
  {
    if !have[p] then (slots[p := Some(tx)], have[p := true], count + 1)
    else if slots[p].Some? && !(keepSame && whash(slots[p].value) == whash(tx)) then (slots[p := None], have, count - 1)
    else (slots, have, count)
  }

  /** What an offer does to the slots is what it does to their standing. */
  lemma OfferShows<T, H>(whash: T -> H, placed: seq<Option<T>>, slots: seq<Option<T>>, have: seq<bool>, count: nat,
                         p: nat, tx: T, keepSame: bool,
                         seen: seq<Seen<T>>)
    requires Reflects(placed, slots, have, seen) && count == |HeldSet(seen)| && p < |seen|
    ensures p < |slots| == |have| && (have[p] && slots[p].Some? ==> count > 0)
    ensures var r := Offered(whash, slots, have, count, p, tx, keepSame);
            var seen' := seen[p := After(whash, seen[p], tx, keepSame)];
            Reflects(placed, r.0, r.1, seen') && r.2 == |HeldSet(seen')|
  {
    assert Shows(placed, slots, have, p, seen[p]);
    HeldChanges(seen, p, After(whash, seen[p], tx, keepSame));
    var r := Offered(whash, slots, have, count, p, tx, keepSame);
    var seen' := seen[p := After(whash, seen[p], tx, keepSame)];
    forall q: nat | q < |seen'| ensures Shows(placed, r.0, r.1, q, seen'[q])
    {
      assert Shows(placed, slots, have, q, seen[q]);
    }
  }

  lemma HeldChanges<T>(seen: seq<Seen<T>>, p: nat, s: Seen<T>)
    requires p < |seen|
    ensures seen[p].Held? ==> |HeldSet(seen)| > 0
    ensures |HeldSet(seen[p := s])| == |HeldSet(seen)| + (if s.Held? then 1 else 0) - (if seen[p].Held? then 1 else 0)
  {
    var before, after := HeldSet(seen), HeldSet(seen[p := s]);
    if seen[p].Held? {
      assert p in before;
    }
    assert after - {p} == before - {p};
    assert |after| == |after - {p}| + if p in after then 1 else 0;
    assert |before| == |before - {p}| + if p in before then 1 else 0;
  }

  /** The next known transaction moves on the slot it leads to and no other. */
  lemma NextJudged<T(!new), H>(whash: T -> H, shortId: H -> nat, m: map<nat, nat>, known: seq<Known<T, H>>, from: nat,
                     i: nat, keepSame: bool,
                               start: seq<Seen<T>>, seen: seq<Seen<T>>)
    requires i < |known| && Judged(whash, shortId, m, known, from, i, keepSame, start, seen)
    requires var id := shortId(known[i].hash); id in m ==> m[id] < |seen|
    ensures var id := shortId(known[i].hash);
            var seen' := if id in m then seen[m[id] := After(whash, seen[m[id]], known[i].tx, keepSame)] else seen;
            Judged(whash, shortId, m, known, from, i + 1, keepSame, start, seen')
  {
  }

  // ---- when every id has a transaction ----

  lemma {:induction false} Untargeted<T, H>(whash: T -> H, shortId: H -> nat, m: map<nat, nat>,
                                            known: seq<Known<T, H>>, p: nat,
                                            from: nat, end: nat, keepSame: bool, s: Seen<T>)
    requires from <= end <= |known| && p !in m.Values
    ensures Judge(whash, shortId, m, known, p, from, end, keepSame, s) == s
    decreases end
  {
    if from < end {
      Untargeted(whash, shortId, m, known, p, from, end - 1, keepSame, s);
    }
  }

  lemma {:induction false} ValuesAtMost(m: map<nat, nat>)
    ensures |m.Values| <= |m|
    ensures |m.Values| == |m| ==> forall k, l | k in m && l in m && m[k] == m[l] :: k == l
    decreases |m|
  {
    if m != map[] {
      var k: nat :| k in m;
      var rest := m - {k};
      assert m == rest[k := m[k]];
      assert m.Keys == rest.Keys + {k} && |m| == |m.Keys| && |rest| == |rest.Keys|;
      ValuesAtMost(rest);
      assert m.Values == rest.Values + {m[k]};
      if m[k] in rest.Values {
        assert m.Values == rest.Values;
      }
    }
  }

  /** As many slots held as there are ids: every id leads to a slot of its own, and it is held. */
  ghost predicate AllHeld<T>(m: map<nat, nat>, seen: seq<Seen<T>>) {
    && (forall k | k in m :: m[k] < |seen| && seen[m[k]].Held?)
    && forall k, l | k in m && l in m && m[k] == m[l] :: k == l
  }

  lemma FullCount<T>(m: map<nat, nat>, seen: seq<Seen<T>>)
    requires |HeldSet(seen)| == |m| && forall p: nat | p < |seen| && p !in m.Values :: !seen[p].Held?
    ensures AllHeld(m, seen)
  {
    ValuesAtMost(m);
    SubsetSize(HeldSet(seen), m.Values);
    forall k | k in m ensures m[k] < |seen| && seen[m[k]].Held?
    {
      assert m[k] in m.Values;
      assert m[k] in HeldSet(seen);
    }
  }

  /** Where the scan stood at the end: everything considered, or a transaction for every id. */
  ghost predicate Outcome<T(!new), H>(whash: T -> H, shortId: H -> nat, m: map<nat, nat>, known: seq<Known<T, H>>,
                                      placed: seq<Option<T>>, slots: seq<Option<T>>, n: nat, a: nat, b: nat)
  {
    && a <= n <= b <= |known| && |slots| == |placed|
    && (forall p: nat | p < |slots| ::
          slots[p] == match Verdict(whash, shortId, m, known, p, n, a, b)
                      case Unseen => placed[p]
                      case Held(t) => Some(t)
                      case Contested => None)
    && (a < n ==> forall k | k in m :: Judge(whash, shortId, m, known, m[k], 0, a, false, Unseen).Held?)
    && (b < |known| ==> forall k | k in m :: Verdict(whash, shortId, m, known, m[k], n, a, b).Held?)
    && (a < n || b < |known| ==> forall k, l | k in m && l in m && m[k] == m[l] :: k == l)
  }

  /** Every known transaction that leads to the slot is `t`, and the pool has it once at most. */
  ghost predicate OneMeaning<T, H>(shortId: H -> nat, m: map<nat, nat>, known: seq<Known<T, H>>, n: nat, p: nat, t: T) {
    && (forall i: nat | Has(shortId, m, known, p, i) :: known[i].tx == t)
    && (forall i: nat, k: nat | i < k < n && Has(shortId, m, known, p, i) :: !Has(shortId, m, known, p, k))
  }

  /** Then it is in the slot exactly when it is known; early exits make no difference. */
  lemma HeldWhenKnown<T(!new), H>(whash: T -> H, shortId: H -> nat, m: map<nat, nat>, known: seq<Known<T, H>>,
                                  placed: seq<Option<T>>, slots: seq<Option<T>>, n: nat, a: nat, b: nat, p: nat, t: T)
    requires Outcome(whash, shortId, m, known, placed, slots, n, a, b) && p < |slots| &&
             OneMeaning(shortId, m, known, n, p, t)
    ensures slots[p] == if SomeHas(shortId, m, known, p, 0, |known|) then Some(t) else placed[p]
  {
    hide Judge;
    var s := Judge(whash, shortId, m, known, p, 0, a, false, Unseen);
    PoolVerdict(whash, shortId, m, known, p, a);
    ExtraVerdict(whash, shortId, m, known, p, n, b, s, t);
    if SomeHas(shortId, m, known, p, 0, |known|) {
      var i: nat :| i < |known| && Has(shortId, m, known, p, i);
      var id := shortId(known[i].hash);
      assert id in m && m[id] == p;
    }
  }

  /** What the scan puts in a slot is a known transaction that leads there. */
  lemma HeldComes<T(!new), H>(whash: T -> H, shortId: H -> nat, m: map<nat, nat>, known: seq<Known<T, H>>, p: nat,
                    n: nat, a: nat, b: nat)
    requires a <= n <= b <= |known| && Verdict(whash, shortId, m, known, p, n, a, b).Held?
    ensures exists i: nat ::
              Has(shortId, m, known, p, i) && known[i].tx == Verdict(whash, shortId, m, known, p, n, a, b).tx
  {
    hide Judge;
    PoolVerdict(whash, shortId, m, known, p, a);
    ExtraMeans(whash, shortId, m, known, p, n, b, Judge(whash, shortId, m, known, p, 0, a, false, Unseen));
  }

  /** Two different transactions that lead to one slot leave it empty. */
  lemma ContestedWhenTwo<T(!new), H>(whash: T -> H, shortId: H -> nat, m: map<nat, nat>, known: seq<Known<T, H>>,
                                     placed: seq<Option<T>>, slots: seq<Option<T>>, n: nat, a: nat, b: nat, p: nat,
                                       i: nat, k: nat)
    requires Outcome(whash, shortId, m, known, placed, slots, n, a, b) && p < |slots|
    requires Has(shortId, m, known, p, i) && Has(shortId, m, known, p, k) &&
             shortId(known[i].hash) != shortId(known[k].hash)
    requires whash(known[i].tx) != whash(known[k].tx)
    ensures slots[p] == None
  {
    hide Judge;
    var s := Judge(whash, shortId, m, known, p, 0, a, false, Unseen);
    PoolVerdict(whash, shortId, m, known, p, a);
    ExtraMeans(whash, shortId, m, known, p, n, b, s);
    assert a == n && b == |known|;
  }
}
