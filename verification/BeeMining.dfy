/** The bins and the threads together. */
module BeeMining {
  import opened Collections
  import opened BeeBins
  import Workers = BeeWorkers

  /** The bees each worker goes through. */
  function Work(bins: seq<Bin>): (r: seq<seq<Bee>>)
    ensures |r| == |bins| && forall i | 0 <= i < |r| :: r[i] == BinBees(bins[i])
  {
    seq(|bins|, i requires 0 <= i < |bins| => BinBees(bins[i]))
  }

  lemma {:induction false} InSomeBin(bins: seq<Bin>, bee: Bee)
    ensures bee in BinsBees(bins) <==> Workers.InSome(Work(bins), bee)
  {
    hide BinBees;
    if bins != [] {
      var n := |bins| - 1;
      InSomeBin(bins[..n], bee);
      forall i | 0 <= i < n ensures Work(bins)[i] == Work(bins[..n])[i] {}
      assert Work(bins)[n] == BinBees(bins[n]);
      if Workers.InSome(Work(bins[..n]), bee) {
        var i: nat :| i < |Work(bins[..n])| && bee in Work(bins[..n])[i];
        assert i < |Work(bins)| && bee in Work(bins)[i];
      }
    }
  }

  /**
   * From the wallet to the result: for any bins that hold the mature bees, and any interleaving without an abort, a
   * bee is recorded exactly when a bee of a mature BCT meets the target, and the recorded bee is one of those.
   */
  lemma MiningFindsABee(wins: Bee -> bool, wallet: seq<Bct>, bins: seq<Bin>, steps: seq<Workers.Step>)
    requires BinsBees(bins) == MatureBees(wallet)
    requires Workers.Allowed(wins, Workers.Started(Work(bins)), steps)
    requires Workers.Joined(Workers.Run(wins, Workers.Started(Work(bins)), steps))
    ensures var s := Workers.Run(wins, Workers.Started(Work(bins)), steps);
            && (s.solution.Some? ==> wins(s.solution.value) && s.solution.value in MatureBees(wallet))
            && (!s.abort ==> (s.solution.Some? <==> exists bee :: bee in MatureBees(wallet) && wins(bee)))
  {
    hide Workers.Run, BinsBees, BinBees, MatureBees;
    var s := Workers.Run(wins, Workers.Started(Work(bins)), steps);
    Workers.FoundExactlyWhenThere(wins, Work(bins), steps);
    if s.solution.Some? {
      InSomeBin(bins, s.solution.value);
    }
    if bee :| bee in MatureBees(wallet) && wins(bee) {
      InSomeBin(bins, bee);
      var i: nat :| i < |Work(bins)| && bee in Work(bins)[i];
      var k: nat :| k < |Work(bins)[i]| && Work(bins)[i][k] == bee;
      assert wins(Work(bins)[i][k]);
    }
  }
}
