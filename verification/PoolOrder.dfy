/** What becomes of the order of an account's nonces when the pool changes, over plain values. */
module PoolOrder {
  import opened Options
  import opened Transactions
  import opened TxLists
  import opened ListTables
  import opened PoolState
  import opened PoolFairness
  import opened PoolAdmission

  /** Nothing is pending and the virtual nonce is below the state nonce, so that nothing can be
      promoted. */
  ghost predicate Stranded(p: Lists, state: ChainState, over: map<Address, nat>, a: Address) {
    Of(p, a) == map[] && Virtual(state, over, a) < state.Nonce(a)
  }

  ghost predicate NoneStranded(p: Lists, state: ChainState, over: map<Address, nat>) {
    forall a :: !Stranded(p, state, over, a)
  }

  /** Every account has a gap-free run up to its virtual nonce, or is stranded. */
  ghost predicate RunsOrStranded(p: Lists, state: ChainState, over: map<Address, nat>) {
    forall a :: Run(p, state, over, a) || Stranded(p, state, over, a)
  }

  lemma RunsMean(p: Lists, state: ChainState, over: map<Address, nat>)
    ensures Runs(p, state, over) <==> RunsOrStranded(p, state, over) && NoneStranded(p, state, over)
    ensures RunsOrStranded(p, state, over) ==> AllStart(p, state)
  {
    if Runs(p, state, over) {
      forall a ensures Run(p, state, over, a) && !Stranded(p, state, over, a) {
      }
    }
    if RunsOrStranded(p, state, over) {
      forall a ensures Starts(Of(p, a), state.Nonce(a)) {
        assert Run(p, state, over, a) || Stranded(p, state, over, a);
        assert Run(p, state, over, a) && Virtual(state, over, a) == state.Nonce(a) ==> Of(p, a) == map[];
      }
      if NoneStranded(p, state, over) {
        forall a ensures Run(p, state, over, a) {
          assert !Stranded(p, state, over, a);
        }
      }
    }
  }

  /** A gap-free account stays gap-free, and a stranded one stranded. */
  ghost predicate Fate(s: Tables, t: Tables, state: ChainState, a: Address) {
    && (Run(s.p, state, s.over, a) ==> Run(t.p, state, t.over, a))
    && (Stranded(s.p, state, s.over, a) ==>
         Stranded(t.p, state, t.over, a) && Virtual(state, t.over, a) == Virtual(state, s.over, a))
  }

  ghost predicate Fates(s: Tables, t: Tables, state: ChainState) {
    forall a :: Fate(s, t, state, a)
  }

  /** Exactly the accounts that were stranded are. */
  lemma FatesMean(s: Tables, t: Tables, state: ChainState)
    requires Fates(s, t, state)
    ensures Runs(s.p, state, s.over) ==> Runs(t.p, state, t.over)
    ensures RunsOrStranded(s.p, state, s.over) ==>
      && RunsOrStranded(t.p, state, t.over)
      && forall a :: Stranded(t.p, state, t.over, a) <==> Stranded(s.p, state, s.over, a)
  {
    if Runs(s.p, state, s.over) {
      forall a ensures Run(t.p, state, t.over, a) {
        assert Run(s.p, state, s.over, a) && Fate(s, t, state, a);
      }
    }
    if RunsOrStranded(s.p, state, s.over) {
      forall a
        ensures Run(t.p, state, t.over, a) || Stranded(t.p, state, t.over, a)
        ensures Stranded(t.p, state, t.over, a) <==> Stranded(s.p, state, s.over, a)
      {
        assert Run(s.p, state, s.over, a) || Stranded(s.p, state, s.over, a);
        assert Fate(s, t, state, a);
      }
    }
  }

  lemma FatesTwice(s: Tables, t: Tables, u: Tables, state: ChainState)
    requires Fates(s, t, state) && Fates(t, u, state)
    ensures Fates(s, u, state)
  {
    hide Run, Stranded;
    forall a ensures Fate(s, u, state, a) {
      assert Fate(s, t, state, a) && Fate(t, u, state, a);
    }
  }

  lemma FatesAfterCut(s: Tables, t: Tables, state: ChainState)
    requires Cut(s.p, t.p, state, s.over, t.over)
    ensures Fates(s, t, state)
  {
    forall a ensures Fate(s, t, state, a) {
      var m, m', next, next' := Of(s.p, a), Of(t.p, a), Virtual(state, s.over, a), Virtual(state, t.over, a);
      assert AccountCut(m, m', next, next');
      if Run(s.p, state, s.over, a) {
        RunAfterCut(m, m', next, next', state.Nonce(a));
      }
      if Stranded(s.p, state, s.over, a) {
        assert m' == map[];
      }
    }
  }

  lemma FatesAfterReplacement(s: Tables, t: Tables, tx: Tx, state: ChainState)
    requires tx.nonce in Of(s.p, tx.from) && t.p == s.p[tx.from := Plus(Of(s.p, tx.from), tx)] && t.over == s.over
    ensures Fates(s, t, state)
  {
    forall a ensures Fate(s, t, state, a) {
    }
  }

  /** A stranded account gets nothing promoted and keeps its virtual nonce. */
  lemma StrandedGetsNothing(qm: NonceMap, next: nat, pm: NonceMap, qm': NonceMap, next': nat,
                            nonce: nat, bad: Criterion, cap: Option<nat>)
    requires next < nonce && Promotion(map[], qm, next, pm, qm', next', nonce, bad, cap)
    ensures pm == map[] && next' == next
    ensures nonce in qm && !bad.Selects(qm[nonce]) && (cap.Some? ==> cap.value > 0) ==> nonce in qm'
  {
    hide Criterion.Selects, ReadyCut;
    var live := Others(AtLeast(qm, nonce), bad);
    ReadyRun(live, next);
    assert Below(live, ReadyCut(live, next)) == map[];
    NothingCut(live, next);
    if nonce in live && cap.Some? && cap.value > 0 {
      LowestHas(qm', live, cap.value, nonce);
    }
  }

  lemma NothingCut(live: NonceMap, next: nat)
    requires Below(live, ReadyCut(live, next)) == map[]
    ensures AtLeast(live, ReadyCut(live, next)) == live
  {
    hide ReadyCut;
    forall n | n in live ensures n >= ReadyCut(live, next) {
      assert n !in Below(live, ReadyCut(live, next));
    }
  }

  lemma LowestHas(r: NonceMap, m: NonceMap, k: nat, n: nat)
    requires Lowest(r, m, k) && k > 0 && n in m && forall i :: i in m ==> n <= i
    ensures n in r
  {
    if |m| > k {
      var cut: nat :| r == Below(m, cut);
      assert r != map[];
      var i :| i in r;
    }
  }

  /** Promotion of some accounts decides no fate. */
  lemma FatesAfterPromotion(s: Tables, t: Tables, all: map<Hash, Tx>, done: seq<Address>, r: Rules)
    requires Consistent(s.p, s.q, all, {}) && Promoted(s, t, done, r)
    ensures Fates(s, t, r.state)
  {
    hide Promotion, Consistent;
    forall a ensures Fate(s, t, r.state, a) {
      if a in done {
        AccountOwned(s.p, s.q, all, {}, a);
        assert AccountPromoted(s, t, a, r);
        FateAfterPromotion(s, t, a, r);
      } else {
        assert AccountSame(s, t, a, r.state);
      }
    }
  }

  lemma FateAfterPromotion(s: Tables, t: Tables, a: Address, r: Rules)
    requires AccountPromoted(s, t, a, r) && forall n :: n in Of(s.p, a) ==> n !in Of(s.q, a)
    ensures Fate(s, t, r.state, a)
  {
    hide Promotion;
    var nonce, bad := r.state.Nonce(a), Unpayable(r.state.Balance(a), r.maxGas);
    var next, next' := Virtual(r.state, s.over, a), Virtual(r.state, t.over, a);
    if Run(s.p, r.state, s.over, a) {
      PromotionKeepsRun(Of(s.p, a), Of(s.q, a), next, Of(t.p, a), Of(t.q, a), next', nonce, bad, r.QueueLimit(a));
    }
    if Stranded(s.p, r.state, s.over, a) {
      StrandedGetsNothing(Of(s.q, a), next, Of(t.p, a), Of(t.q, a), next', nonce, bad, r.QueueLimit(a));
    }
  }

  lemma FatesAfterRebalance(s: Tables, t: Tables, all: map<Hash, Tx>, done: seq<Address>, r: Rules, l: Limits)
    requires Rebalanced(s, t, done, r, l) && Consistent(s.p, s.q, all, {})
    ensures Fates(s, t, r.state)
  {
    hide Promoted, Fates, Cut, Fair, Trimmed, Consistent;
    var u: Tables :| Promoted(s, u, done, r) && Cut(u.p, t.p, r.state, u.over, t.over);
    FatesAfterPromotion(s, u, all, done, r);
    FatesAfterCut(u, t, r.state);
    FatesTwice(s, u, t, r.state);
  }

  lemma TailsAfterRebalance(s: Tables, t: Tables, all: map<Hash, Tx>, done: seq<Address>, r: Rules, l: Limits)
    requires Rebalanced(s, t, done, r, l) && Tails(s.p, r.state, s.over, r.maxGas) && Consistent(s.p, s.q, all, {})
    ensures Tails(t.p, r.state, t.over, r.maxGas)
  {
    hide Promoted, Tails, Cut, Fair, Trimmed, Consistent;
    var u: Tables :| Promoted(s, u, done, r) && Cut(u.p, t.p, r.state, u.over, t.over);
    TailsAfterPromotion(s, u, all, done, r);
    TailsAfterCut(u.p, t.p, r.state, u.over, t.over, r.maxGas);
  }

  /** Submitting a transaction decides no fate, through eviction and replacement. */
  lemma FatesAfterAdding(s: Image, t: Image, tx: Tx, local: bool, r: Outcome, e: Policy)
    requires Added(s, t, tx, local, r, e)
    ensures Fates(s.t, t.t, e.state)
  {
    hide Validate, Cut, Fates, Unworthy, Accepts;
    FatesSame(s.t, e.state);
    if t != s {
      var m: Image :| MadeRoom(s, m, e) && Placed(m, t, tx, local, r, e.config.priceBump);
      FatesAfterCut(s.t, m.t, e.state);
      if tx.nonce in Of(m.t.p, tx.from) && r.Accepted? {
        FatesAfterReplacement(m.t, t.t, tx, e.state);
      } else {
        FatesSamePending(m.t, t.t, e.state);
      }
      FatesTwice(s.t, m.t, t.t, e.state);
    }
  }

  lemma FatesSame(s: Tables, state: ChainState)
    ensures Fates(s, s, state)
  {
  }

  lemma FatesSamePending(s: Tables, t: Tables, state: ChainState)
    requires t.p == s.p && t.over == s.over
    ensures Fates(s, t, state)
  {
    hide Run, Stranded;
  }

  lemma TailsAfterAdding(s: Image, t: Image, tx: Tx, local: bool, r: Outcome, e: Policy)
    requires Added(s, t, tx, local, r, e) && Tails(s.t.p, e.state, s.t.over, e.maxGas)
    ensures Tails(t.t.p, e.state, t.t.over, e.maxGas)
  {
    hide Cut, Tails, Unworthy, Accepts;
    if t != s {
      var m: Image :| MadeRoom(s, m, e) && Placed(m, t, tx, local, r, e.config.priceBump);
      TailsAfterCut(s.t.p, m.t.p, e.state, s.t.over, m.t.over, e.maxGas);
      if tx.nonce in Of(m.t.p, tx.from) {
        TailsAfterReplacement(m.t.p, tx, e.state, m.t.over, e.maxGas);
      }
    }
  }

  // Which accounts get stranded.

  /** The virtual nonce is below the state nonce exactly if a used-up nonce of `m` is missing
      from `m'`, which has no others. */
  ghost predicate SpentLost(m: NonceMap, m': NonceMap, next: nat, nonce: nat) {
    && (next < nonce <==> GivesUpSpent(m, m', nonce))
    && forall n :: n in m' && n < nonce ==> n in m
  }

  ghost predicate GivesUpSpent(m: NonceMap, m': NonceMap, nonce: nat) {
    exists n :: n in m && n < nonce && n !in m'
  }

  /** How virtual nonces relate to the lists `p` that a reset starts from. */
  ghost predicate AllSpentLost(p: Lists, t: Tables, state: ChainState) {
    forall a :: SpentLost(Of(p, a), Of(t.p, a), Virtual(state, t.over, a), state.Nonce(a))
  }

  lemma SpentAtReset(p: Lists, q: Lists, state: ChainState)
    ensures AllSpentLost(p, Tables(p, q, map[]), state)
  {
  }

  lemma SpentAfterCut(p: Lists, s: Tables, t: Tables, state: ChainState)
    requires AllSpentLost(p, s, state) && Cut(s.p, t.p, state, s.over, t.over)
    ensures AllSpentLost(p, t, state)
  {
    hide SpentLost, AccountCut;
    forall a ensures SpentLost(Of(p, a), Of(t.p, a), Virtual(state, t.over, a), state.Nonce(a)) {
      assert SpentLost(Of(p, a), Of(s.p, a), Virtual(state, s.over, a), state.Nonce(a));
      assert AccountCut(Of(s.p, a), Of(t.p, a), Virtual(state, s.over, a), Virtual(state, t.over, a));
      SpentCut(Of(p, a), Of(s.p, a), Of(t.p, a), Virtual(state, s.over, a), Virtual(state, t.over, a), state.Nonce(a));
    }
  }

  lemma SpentCut(m: NonceMap, m1: NonceMap, m2: NonceMap, next1: nat, next2: nat, nonce: nat)
    requires SpentLost(m, m1, next1, nonce) && AccountCut(m1, m2, next1, next2)
    ensures SpentLost(m, m2, next2, nonce)
  {
    if GivesUpSpent(m, m1, nonce) {
      var n :| n in m && n < nonce && n !in m1;
      assert n !in m2;
    }
    if GivesUpSpent(m, m2, nonce) {
      var n :| n in m && n < nonce && n !in m2;
      assert n in m1 || GivesUpSpent(m, m1, nonce);
    }
    if next2 < nonce && next2 != next1 {
      assert next2 in m && next2 !in m2;
    }
  }

  lemma SpentAfterPromotion(p: Lists, s: Tables, t: Tables, done: seq<Address>, r: Rules)
    requires AllSpentLost(p, s, r.state) && Promoted(s, t, done, r)
    ensures AllSpentLost(p, t, r.state)
  {
    hide SpentLost, Promotion;
    forall a ensures SpentLost(Of(p, a), Of(t.p, a), Virtual(r.state, t.over, a), r.state.Nonce(a)) {
      assert SpentLost(Of(p, a), Of(s.p, a), Virtual(r.state, s.over, a), r.state.Nonce(a));
      if a in done {
        assert AccountPromoted(s, t, a, r);
        SpentPromotion(Of(p, a), Of(s.p, a), Of(s.q, a), Virtual(r.state, s.over, a), Of(t.p, a), Of(t.q, a),
                       Virtual(r.state, t.over, a), r.state.Nonce(a), Unpayable(r.state.Balance(a), r.maxGas),
                       r.QueueLimit(a));
      } else {
        assert AccountSame(s, t, a, r.state);
      }
    }
  }

  lemma SpentPromotion(m: NonceMap, pm: NonceMap, qm: NonceMap, next: nat, pm': NonceMap, qm': NonceMap, next': nat,
                       nonce: nat, bad: Criterion, cap: Option<nat>)
    requires SpentLost(m, pm, next, nonce) && Promotion(pm, qm, next, pm', qm', next', nonce, bad, cap)
    ensures SpentLost(m, pm', next', nonce)
  {
    hide Criterion.Selects, ReadyCut, Capped;
    var live := Others(AtLeast(qm, nonce), bad);
    var cut := ReadyCut(live, next);
    ReadyAbove(live, next, nonce);
    assert forall n :: n < nonce ==> (n in pm' <==> n in pm);
    if GivesUpSpent(m, pm, nonce) {
      var n :| n in m && n < nonce && n !in pm;
      assert n !in pm';
    }
  }

  lemma ReadyAbove(live: NonceMap, next: nat, nonce: nat)
    requires forall n :: n in live ==> n >= nonce
    ensures var cut := ReadyCut(live, next);
      Below(live, cut) != map[] ==> cut > nonce && next >= nonce
  {
    hide ReadyCut;
    ReadyRun(live, next);
  }

  lemma SpentSameKeys(p: Lists, s: Tables, t: Tables, state: ChainState)
    requires AllSpentLost(p, s, state) && t.over == s.over && forall a :: Of(t.p, a).Keys == Of(s.p, a).Keys
    ensures AllSpentLost(p, t, state)
  {
    forall a ensures SpentLost(Of(p, a), Of(t.p, a), Virtual(state, t.over, a), state.Nonce(a)) {
      assert SpentLost(Of(p, a), Of(s.p, a), Virtual(state, s.over, a), state.Nonce(a));
      assert Of(t.p, a).Keys == Of(s.p, a).Keys;
      assert forall n :: n in Of(t.p, a) <==> n in Of(s.p, a);
      if GivesUpSpent(Of(p, a), Of(s.p, a), state.Nonce(a)) {
        var n :| n in Of(p, a) && n < state.Nonce(a) && n !in Of(s.p, a);
        assert n !in Of(t.p, a);
      }
    }
  }

  lemma PlacedKeys(m: Image, t: Image, tx: Tx, local: bool, r: Outcome, bump: nat)
    requires Placed(m, t, tx, local, r, bump)
    ensures t.t.over == m.t.over && forall a :: Of(t.t.p, a).Keys == Of(m.t.p, a).Keys
  {
    hide Accepts, Displace;
    assert tx.nonce in Of(m.t.p, tx.from) ==> Plus(Of(m.t.p, tx.from), tx).Keys == Of(m.t.p, tx.from).Keys;
  }

  lemma SpentAfterAdding(p: Lists, s: Image, t: Image, tx: Tx, local: bool, r: Outcome, e: Policy)
    requires AllSpentLost(p, s.t, e.state) && Added(s, t, tx, local, r, e)
    ensures AllSpentLost(p, t.t, e.state)
  {
    hide Validate, Cut, Unworthy, AllSpentLost, Placed;
    if t != s {
      var m: Image :| MadeRoom(s, m, e) && Placed(m, t, tx, local, r, e.config.priceBump);
      SpentAfterCut(p, s.t, m.t, e.state);
      PlacedKeys(m, t, tx, local, r, e.config.priceBump);
      SpentSameKeys(p, m.t, t.t, e.state);
    }
  }

  lemma {:induction false} SpentAfterBatch(p: Lists, s: Image, t: Image, txs: seq<Tx>, local: bool,
                                           results: seq<Outcome>, e: Policy)
    requires AllSpentLost(p, s.t, e.state) && AddedAll(s, t, txs, local, results, e)
    ensures AllSpentLost(p, t.t, e.state)
    decreases |txs|
  {
    hide Added, AllSpentLost;
    if txs != [] {
      var i := |txs| - 1;
      var m: Image :| AddedAll(s, m, txs[..i], local, results[..i], e) && Added(m, t, txs[i], local, results[i], e);
      SpentAfterBatch(p, s, m, txs[..i], local, results[..i], e);
      SpentAfterAdding(p, m, t, txs[i], local, results[i], e);
    }
  }

  /** After a submission, virtual nonces are below the state nonce exactly where a used-up
      transaction was given up. */
  lemma SpentAfterSubmission(p: Lists, s: Image, t: Image, txs: seq<Tx>, local: bool, results: seq<Outcome>, e: Policy)
    requires AllSpentLost(p, s.t, e.state) && Submitted(s, t, txs, local, results, e)
    ensures AllSpentLost(p, t.t, e.state)
  {
    hide Added, AllSpentLost, Promoted, Cut, Fair, Trimmed;
    var m: Image :| AddedAll(s, m, txs, local, results, e) && Settled(m, t, Dirty(txs, results), e);
    SpentAfterBatch(p, s, m, txs, local, results, e);
    if Dirty(txs, results) != {} {
      var r, l := e.Rules(m.locals), e.config.GlobalLimits();
      var done :| Ordered(done, Dirty(txs, results)) && Rebalanced(m.t, t.t, done, r, l);
      var u: Tables :| Promoted(m.t, u, done, r) && Cut(u.p, t.t.p, r.state, u.over, t.t.over);
      SpentAfterPromotion(p, m.t, u, done, r);
      SpentAfterCut(p, u, t.t, e.state);
    }
  }

  /** Demotion of lists without gaps above the state nonce: every account runs or is stranded,
      and it is stranded exactly if its virtual nonce was below the state nonce. */
  lemma StrandedAfterDemotion(s: Tables, u: Tables, state: ChainState, maxGas: nat)
    requires Tails(s.p, state, s.over, maxGas) && Demoted(s.p, s.q, u.p, u.q, s.p.Keys, state, maxGas)
    requires Renumbered(u.p, state, s.over, u.over)
    ensures RunsOrStranded(u.p, state, u.over)
    ensures forall a :: Stranded(u.p, state, u.over, a) <==> Virtual(state, s.over, a) < state.Nonce(a)
  {
    hide Runnable, Criterion.Selects;
    forall a
      ensures Run(u.p, state, u.over, a) || Stranded(u.p, state, u.over, a)
      ensures Stranded(u.p, state, u.over, a) <==> Virtual(state, s.over, a) < state.Nonce(a)
    {
      assert AccountTail(s.p, state, s.over, maxGas, a);
      var nonce := state.Nonce(a);
      TailOfRunnable(Of(s.p, a), a, state, maxGas, Virtual(state, s.over, a));
      RunnableIsPart(Of(s.p, a), a, state, maxGas);
      assert Of(u.p, a) == Runnable(Of(s.p, a), a, state, maxGas);
      if a in u.p {
        assert FollowsOne(u.p[a], u.over[a]) && u.p[a] != map[];
        var top: nat :| nonce < top && GapFree(u.p[a], nonce, top);
        assert top - 1 in u.p[a] && u.over[a] - 1 in u.p[a];
      }
    }
  }

  /** How a reset turns out: every account runs or is stranded, the latter exactly if one of its
      used-up pending transactions was given up while transactions were taken back in. */
  ghost predicate Turnout(p: Lists, mid: Lists, t: Tables, state: ChainState) {
    && RunsOrStranded(t.p, state, t.over)
    && forall a :: Stranded(t.p, state, t.over, a) <==> GivesUpSpent(Of(p, a), Of(mid, a), state.Nonce(a))
  }

  lemma TurnoutMeans(p: Lists, mid: Lists, t: Tables, state: ChainState)
    requires Turnout(p, mid, t, state) && NothingSpent(p, state)
    ensures Runs(t.p, state, t.over)
  {
    hide Stranded;
    assert NoneStranded(t.p, state, t.over);
    RunsMean(t.p, state, t.over);
  }

  /** No pending transaction is used up. */
  ghost predicate NothingSpent(p: Lists, state: ChainState) {
    forall a, n :: n in Of(p, a) ==> n >= state.Nonce(a)
  }

  /** What moving to a new chain state does: the transactions that the change took off the chain
      are submitted, and then the tables are reorganised. */
  ghost predicate Moved(s: Image, t: Image, reinject: seq<Tx>, e: Policy) {
    exists m: Image, results ::
      && Submitted(s, m, reinject, false, results, e) && t.locals == m.locals
      && Reorganised(m.t, t.t, e.Rules(m.locals), e.config.GlobalLimits())
      && (s.t.over == map[] && Tails(s.t.p, e.state, map[], e.maxGas) ==> Turnout(s.t.p, m.t.p, t.t, e.state))
  }

  lemma MovedBy(s: Image, m: Image, t: Image, reinject: seq<Tx>, results: seq<Outcome>, e: Policy)
    requires Submitted(s, m, reinject, false, results, e) && t.locals == m.locals
    requires Reorganised(m.t, t.t, e.Rules(m.locals), e.config.GlobalLimits())
    requires Tails(s.t.p, e.state, s.t.over, e.maxGas) ==>
      && RunsOrStranded(t.t.p, e.state, t.t.over)
      && forall a :: Stranded(t.t.p, e.state, t.t.over, a) <==> Virtual(e.state, m.t.over, a) < e.state.Nonce(a)
    ensures Moved(s, t, reinject, e)
  {
    hide Submitted, Reorganised, Tails, RunsOrStranded, Stranded, GivesUpSpent;
    if s.t.over == map[] && Tails(s.t.p, e.state, map[], e.maxGas) {
      assert s.t == Tables(s.t.p, s.t.q, map[]);
      SpentAtReset(s.t.p, s.t.q, e.state);
      SpentAfterSubmission(s.t.p, s, m, reinject, false, results, e);
      forall a ensures Stranded(t.t.p, e.state, t.t.over, a) <==>
        GivesUpSpent(Of(s.t.p, a), Of(m.t.p, a), e.state.Nonce(a)) {
        assert SpentLost(Of(s.t.p, a), Of(m.t.p, a), Virtual(e.state, m.t.over, a), e.state.Nonce(a));
      }
    }
  }

  /** Nobody gets stranded if nothing pending is used up. */
  lemma NoneGetsStranded(s: Image, t: Image, reinject: seq<Tx>, e: Policy)
    requires Moved(s, t, reinject, e) && s.t.over == map[] && Tails(s.t.p, e.state, map[], e.maxGas)
    requires NothingSpent(s.t.p, e.state)
    ensures Runs(t.t.p, e.state, t.t.over)
  {
    hide Submitted, Reorganised, Tails, Turnout, NothingSpent, Runs;
    var m: Image :| Turnout(s.t.p, m.t.p, t.t, e.state);
    TurnoutMeans(s.t.p, m.t.p, t.t, e.state);
  }

  /** How an account gets stranded: its first pending transactions are used up by a new block,
      and the first of them is evicted before demotion. What can run is then queued. */
  lemma EvictionStrands(p: Lists, q: Lists, p': Lists, q': Lists, tx: Tx, hi: nat, state: ChainState)
    requires InLists(p, tx) && GapFree(Of(p, tx.from), tx.nonce, hi) && tx.nonce < state.Nonce(tx.from)
    requires RemovedFrom(p, q, p', q', tx) && AllOwned(p)
    ensures Stranded(p', state, OverAfter(p, state, map[], tx), tx.from)
    ensures var nonce := state.Nonce(tx.from); nonce < hi ==>
      nonce in Of(p, tx.from) && InLists(q', Of(p, tx.from)[nonce])
  {
    var a, nonce := tx.from, state.Nonce(tx.from);
    assert Below(p[a], tx.nonce) == map[];
    assert Owned(p[a], a);
    if nonce < hi {
      assert Has(AtLeast(p[a], tx.nonce + 1), p[a][nonce]);
    }
  }

  // Whether everything that can be promoted is.

  /** No account, except some, has a queued transaction that continues its pending ones. */
  ghost predicate CaughtUp(t: Tables, state: ChainState, but: set<Address>) {
    forall a :: a !in but ==> Virtual(state, t.over, a) !in Of(t.q, a)
  }

  ghost function Members(done: seq<Address>): set<Address> { set a | a in done }

  /** Promotion leaves nothing behind that could be promoted, and no nonce on both sides. */
  lemma PromotionComplete(pm: NonceMap, qm: NonceMap, next: nat, pm': NonceMap, qm': NonceMap, next': nat,
                          nonce: nat, bad: Criterion, cap: Option<nat>)
    requires Promotion(pm, qm, next, pm', qm', next', nonce, bad, cap)
    ensures next' !in qm'
    ensures (forall n :: n in pm ==> n !in qm) ==> forall n :: n in pm' ==> n !in qm'
  {
    hide Criterion.Selects, Capped;
    var live := Others(AtLeast(qm, nonce), bad);
    var cut := ReadyCut(live, next);
    CappedIsPart(qm', AtLeast(live, cut), cap);
    if live == map[] || Least(live) > next {
      assert Below(live, cut) == map[];
    } else {
      assert Least(live) in Below(live, cut);
    }
  }

  lemma CappedIsPart(r: NonceMap, m: NonceMap, cap: Option<nat>)
    requires Capped(r, m, cap)
    ensures SubMap(r, m)
  {
  }

  lemma LowestIsPart(r: NonceMap, m: NonceMap, k: nat)
    requires Lowest(r, m, k)
    ensures SubMap(r, m)
  {
  }

  lemma TrimmedIsPart(v: Lists, q: Lists, locals: set<Address>, limit: nat, a: Address)
    requires Trimmed(v, q, locals, limit)
    ensures SubMap(Of(v, a), Of(q, a))
  {
    hide Total, Lowest;
    LowestIsPart(Of(v, a), Of(q, a), |Of(v, a)|);
  }

  lemma CutIsThere(p: Lists, p': Lists, state: ChainState, over: map<Address, nat>, over': map<Address, nat>,
                   a: Address)
    requires Cut(p, p', state, over, over')
    ensures Virtual(state, over', a) == Virtual(state, over, a) || Virtual(state, over', a) in Of(p, a)
    ensures forall n :: n in Of(p, a) && n !in Of(p', a) ==> Virtual(state, over', a) <= n
  {
    assert AccountCut(Of(p, a), Of(p', a), Virtual(state, over, a), Virtual(state, over', a));
  }

  /** Promotion, truncation and trimming leave nothing to promote, if nothing but what is promoted
      had anything. */
  lemma CaughtAfterRebalance(s: Tables, t: Tables, all: map<Hash, Tx>, done: seq<Address>, r: Rules, l: Limits)
    requires Rebalanced(s, t, done, r, l) && Consistent(s.p, s.q, all, {})
    requires CaughtUp(s, r.state, Members(done))
    ensures CaughtUp(t, r.state, {})
  {
    hide Consistent, Promoted, Cut, Fair, Trimmed;
    var u: Tables :|
      && Promoted(s, u, done, r) && Cut(u.p, t.p, r.state, u.over, t.over)
      && Trimmed(t.q, u.q, r.locals, l.globalQueue);
    forall a ensures Virtual(r.state, t.over, a) !in Of(t.q, a) {
      AccountOwned(s.p, s.q, all, {}, a);
      CaughtAfterPromotion(s, u, a, done, r);
      CutIsThere(u.p, t.p, r.state, u.over, t.over, a);
      TrimmedIsPart(t.q, u.q, r.locals, l.globalQueue, a);
    }
  }

  lemma CaughtAfterPromotion(s: Tables, u: Tables, a: Address, done: seq<Address>, r: Rules)
    requires Promoted(s, u, done, r) && forall n :: n in Of(s.p, a) ==> n !in Of(s.q, a)
    requires CaughtUp(s, r.state, Members(done))
    ensures Virtual(r.state, u.over, a) !in Of(u.q, a) && forall n :: n in Of(u.p, a) ==> n !in Of(u.q, a)
  {
    hide Promotion;
    if a in done {
      assert AccountPromoted(s, u, a, r);
      PromotionComplete(Of(s.p, a), Of(s.q, a), Virtual(r.state, s.over, a), Of(u.p, a), Of(u.q, a),
                        Virtual(r.state, u.over, a), r.state.Nonce(a), Unpayable(r.state.Balance(a), r.maxGas),
                        r.QueueLimit(a));
    } else {
      assert AccountSame(s, u, a, r.state);
    }
  }

  lemma CaughtAfterEviction(s: Image, m: Image, gone: set<Tx>, state: ChainState, but: set<Address>)
    requires Evicted(s, m, gone, state) && Consistent(s.t.p, s.t.q, s.all, {})
    requires RunsOrStranded(s.t.p, state, s.t.over) && CaughtUp(s.t, state, but)
    ensures CaughtUp(m.t, state, but)
  {
    hide Consistent, Evicted;
    forall a | a !in but ensures Virtual(state, m.t.over, a) !in Of(m.t.q, a) {
      assert Run(s.t.p, state, s.t.over, a) || Stranded(s.t.p, state, s.t.over, a);
      CaughtOne(s, m, gone, state, a);
    }
  }

  lemma CaughtOne(s: Image, m: Image, gone: set<Tx>, state: ChainState, a: Address)
    requires Evicted(s, m, gone, state) && Consistent(s.t.p, s.t.q, s.all, {})
    requires Virtual(state, s.t.over, a) !in Of(s.t.p, a) && Virtual(state, s.t.over, a) !in Of(s.t.q, a)
    ensures Virtual(state, m.t.over, a) !in Of(m.t.q, a)
  {
    hide Consistent, Cut, Under;
    var next := Virtual(state, m.t.over, a);
    AccountOwned(s.t.p, s.t.q, s.all, {}, a);
    CutIsThere(s.t.p, m.t.p, state, s.t.over, m.t.over, a);
    forall n | n in Of(m.t.q, a) ensures n != next {
      OwnedByNonce(m.t.q, a, n);
      LowestIsGone(s, m, gone, state, Of(m.t.q, a)[n]);
    }
  }

  /** A transaction that was pending and is queued now has a removed one below it, to which the
      virtual nonce was lowered. */
  lemma LowestIsGone(s: Image, m: Image, gone: set<Tx>, state: ChainState, tx: Tx)
    requires Evicted(s, m, gone, state) && InLists(m.t.q, tx)
    ensures InLists(s.t.q, tx) || (InLists(s.t.p, tx) && Virtual(state, m.t.over, tx.from) < tx.nonce)
  {
    hide Cut, AllOwned;
    CutIsThere(s.t.p, m.t.p, state, s.t.over, m.t.over, tx.from);
    if !InLists(s.t.q, tx) {
      var d := LowerGone(s.t.p, gone, tx);
      UnderSelf(s.t.p, gone, d);
      assert !InLists(m.t.p, d);
      PendingIsPart(s.t.p, m.t.p, state, s.t.over, m.t.over, d);
    }
  }

  lemma LowerGone(p: Lists, gone: set<Tx>, tx: Tx) returns (d: Tx)
    requires Under(p, gone, tx) && tx !in gone && InLists(p, tx)
    ensures d in gone && InLists(p, d) && d.from == tx.from && d.nonce < tx.nonce
  {
    d :| d in gone && InLists(p, d) && d.from == tx.from && d.nonce <= tx.nonce;
  }

  lemma PendingIsPart(p: Lists, p': Lists, state: ChainState, over: map<Address, nat>, over': map<Address, nat>, d: Tx)
    requires Cut(p, p', state, over, over') && InLists(p, d) && !InLists(p', d)
    ensures d.nonce !in Of(p', d.from)
  {
    assert AccountCut(Of(p, d.from), Of(p', d.from), Virtual(state, over, d.from), Virtual(state, over', d.from));
  }

  /** After submitting a transaction only its sender may have something to promote, and only if
      it was accepted without replacing another. */
  lemma CaughtAfterAdding(s: Image, t: Image, tx: Tx, local: bool, r: Outcome, e: Policy, but: set<Address>)
    requires Added(s, t, tx, local, r, e) && Consistent(s.t.p, s.t.q, s.all, {})
    requires RunsOrStranded(s.t.p, e.state, s.t.over) && CaughtUp(s.t, e.state, but)
    ensures CaughtUp(t.t, e.state, if r == Accepted(false) then but + {tx.from} else but)
  {
    hide Consistent, RunsOrStranded, Validate, Unworthy, Evicted, Accepts;
    if t != s {
      var m: Image :| MadeRoom(s, m, e) && Placed(m, t, tx, local, r, e.config.priceBump);
      CaughtAfterEviction(s, m, GoneFrom(s.all, m.all), e.state, but);
    }
  }

  /** What becomes of order and executability when a transaction is submitted. */
  lemma OrderAfterAdding(s: Image, t: Image, tx: Tx, local: bool, r: Outcome, e: Policy)
    requires Added(s, t, tx, local, r, e)
    ensures Fates(s.t, t.t, e.state)
    ensures Tails(s.t.p, e.state, s.t.over, e.maxGas) ==> Tails(t.t.p, e.state, t.t.over, e.maxGas)
    ensures AllFit(s.all, e.state, e.maxGas) ==> AllFit(t.all, e.state, e.maxGas)
  {
    hide Added, Fates, Tails, AllFit;
    FatesAfterAdding(s, t, tx, local, r, e);
    if Tails(s.t.p, e.state, s.t.over, e.maxGas) {
      TailsAfterAdding(s, t, tx, local, r, e);
    }
    if AllFit(s.all, e.state, e.maxGas) {
      FitAfterAdding(s, t, tx, local, r, e);
    }
  }

  /** What becomes of order when accounts are promoted and the limits enforced. */
  lemma OrderAfterRebalance(s: Tables, t: Tables, all: map<Hash, Tx>, done: seq<Address>, r: Rules, l: Limits)
    requires Rebalanced(s, t, done, r, l) && Consistent(s.p, s.q, all, {})
    ensures Fates(s, t, r.state)
    ensures Tails(s.p, r.state, s.over, r.maxGas) ==> Tails(t.p, r.state, t.over, r.maxGas)
    ensures CaughtUp(s, r.state, Members(done)) ==> CaughtUp(t, r.state, {})
  {
    hide Rebalanced, Fates, Tails, Consistent, CaughtUp;
    FatesAfterRebalance(s, t, all, done, r, l);
    if Tails(s.p, r.state, s.over, r.maxGas) {
      TailsAfterRebalance(s, t, all, done, r, l);
    }
    if CaughtUp(s, r.state, Members(done)) {
      CaughtAfterRebalance(s, t, all, done, r, l);
    }
  }

  /** What becomes of order when transactions are evicted. */
  lemma OrderAfterEviction(s: Image, m: Image, gone: set<Tx>, state: ChainState, maxGas: nat)
    requires Evicted(s, m, gone, state) && Consistent(s.t.p, s.t.q, s.all, {})
    ensures Fates(s.t, m.t, state)
    ensures Tails(s.t.p, state, s.t.over, maxGas) ==> Tails(m.t.p, state, m.t.over, maxGas)
    ensures RunsOrStranded(s.t.p, state, s.t.over) && CaughtUp(s.t, state, {}) ==> CaughtUp(m.t, state, {})
  {
    hide Fates, Tails, Cut, Consistent, CaughtUp, RunsOrStranded;
    FatesAfterCut(s.t, m.t, state);
    if Tails(s.t.p, state, s.t.over, maxGas) {
      TailsAfterCut(s.t.p, m.t.p, state, s.t.over, m.t.over, maxGas);
    }
    if RunsOrStranded(s.t.p, state, s.t.over) && CaughtUp(s.t, state, {}) {
      CaughtAfterEviction(s, m, gone, state, {});
    }
  }

  /** Every queued account is among those promoted. */
  lemma CaughtButQueued(t: Tables, state: ChainState, done: seq<Address>)
    requires forall a :: a in t.q ==> a in done
    ensures CaughtUp(t, state, Members(done))
  {
  }

  lemma CaughtWithLess(t: Tables, t': Tables, state: ChainState)
    requires CaughtUp(t, state, {}) && t'.over == t.over && forall a :: SubMap(Of(t'.q, a), Of(t.q, a))
    ensures CaughtUp(t', state, {})
  {
    forall a ensures Virtual(state, t'.over, a) !in Of(t'.q, a) {
      assert SubMap(Of(t'.q, a), Of(t.q, a));
    }
  }
}
