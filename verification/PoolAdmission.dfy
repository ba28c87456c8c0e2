/** How the pool changes when transactions are submitted, over plain values. */
module PoolAdmission {
  import opened Options
  import opened Transactions
  import opened TxLists
  import opened ListTables
  import opened TxPricedLists
  import opened PoolState
  import opened PoolFairness

  datatype Config = Config(
    priceBump: nat,
    accountSlots: nat,
    globalSlots: nat,
    accountQueue: nat,
    globalQueue: nat)
  {
    function Capacity(): nat { globalSlots + globalQueue }

    function GlobalLimits(): Limits { Limits(accountSlots, globalSlots, globalQueue) }
  }

  datatype PoolError =
    | Known | Oversized | NegativeValue | GasLimit | InvalidSender | Underpriced
    | NonceTooLow | InsufficientFunds | IntrinsicGas | ReplaceUnderpriced

  /** Accepted, replacing an older transaction or not; or refused. */
  datatype Outcome = Accepted(replaced: bool) | Refused(error: PoolError)

  const MAX_TX_SIZE := 32 * 1024

  /** What transactions are judged by. */
  datatype Policy = Policy(state: ChainState, maxGas: nat, gasPrice: int, config: Config) {
    function Rules(locals: set<Address>): Rules { PoolState.Rules(state, maxGas, locals, config.accountQueue) }
  }

  /** The pool as a value: its tables, the lookup and the local accounts. */
  datatype Image = Image(t: Tables, all: map<Hash, Tx>, locals: set<Address>)

  /** The consensus rules and the pool's own limits. */
  function Validate(tx: Tx, local: bool, locals: set<Address>, e: Policy): (r: Option<PoolError>)
    ensures r == None <==>
      && tx.signed && Fits(tx, e.state, e.maxGas) && tx.value >= 0
      && tx.size <= MAX_TX_SIZE && tx.intrinsic <= tx.gas
      && (local || tx.from in locals || tx.price >= e.gasPrice)
    ensures r != Some(Known) && r != Some(ReplaceUnderpriced)
  {
    if tx.size > MAX_TX_SIZE then Some(Oversized)
    else if tx.value < 0 then Some(NegativeValue)
    else if e.maxGas < tx.gas then Some(GasLimit)
    else if !tx.signed then Some(InvalidSender)
    else if !(local || tx.from in locals) && e.gasPrice > tx.price then Some(Underpriced)
    else if e.state.Nonce(tx.from) > tx.nonce then Some(NonceTooLow)
    else if e.state.Balance(tx.from) < tx.Cost() then Some(InsufficientFunds)
    else if tx.gas < tx.intrinsic then Some(IntrinsicGas)
    else None
  }

  /** One of the removed transactions was pending for the same sender at or below the nonce. */
  ghost predicate Under(p: Lists, gone: set<Tx>, tx: Tx) {
    exists d :: d in gone && InLists(p, d) && d.from == tx.from && d.nonce <= tx.nonce
  }

  /** The effect of removing the transactions in `gone`, in whatever order: pending lists are
      cut at the lowest one removed, and the others above it are queued. */
  ghost predicate Evicted(s: Image, m: Image, gone: set<Tx>, state: ChainState) {
    && m.locals == s.locals && AllOwned(m.t.p) && AllOwned(m.t.q)
    && (forall h :: h in m.all <==> h in s.all && h.of !in gone)
    && Cut(s.t.p, m.t.p, state, s.t.over, m.t.over)
    && (forall tx :: InLists(m.t.p, tx) <==> InLists(s.t.p, tx) && !Under(s.t.p, gone, tx))
    && (forall tx :: InLists(m.t.q, tx) <==>
         tx !in gone && (InLists(s.t.q, tx) || (InLists(s.t.p, tx) && !InLists(m.t.p, tx))))
  }

  lemma EvictedNone(s: Image, state: ChainState)
    requires Consistent(s.t.p, s.t.q, s.all, {})
    ensures Evicted(s, s, {}, state)
  {
    hide Cut;
    CutNone(s.t.p, state, s.t.over);
  }

  lemma UnderMore(p: Lists, gone: set<Tx>, d: Tx, tx: Tx)
    ensures Under(p, gone + {d}, tx) <==>
      Under(p, gone, tx) || (InLists(p, d) && d.from == tx.from && d.nonce <= tx.nonce)
  {
    if Under(p, gone, tx) {
      var g :| g in gone && InLists(p, g) && g.from == tx.from && g.nonce <= tx.nonce;
      assert g in gone + {d};
    }
    if InLists(p, d) && d.from == tx.from && d.nonce <= tx.nonce {
      assert d in gone + {d};
    }
  }

  lemma UnderAbove(p: Lists, gone: set<Tx>, d: Tx, tx: Tx)
    requires Under(p, gone, d) && d.from == tx.from && d.nonce <= tx.nonce
    ensures Under(p, gone, tx)
  {
  }

  lemma EvictedStep(s: Image, m: Image, m': Image, gone: set<Tx>, tx: Tx, state: ChainState)
    requires Evicted(s, m, gone, state) && Consistent(m.t.p, m.t.q, m.all, {}) && tx.Hash() in m.all
    requires RemovedFrom(m.t.p, m.t.q, m'.t.p, m'.t.q, tx) && m'.t.over == OverAfter(m.t.p, state, m.t.over, tx)
    requires m'.all == m.all - {tx.Hash()} && m'.locals == m.locals && Consistent(m'.t.p, m'.t.q, m'.all, {})
    ensures Evicted(s, m', gone + {tx}, state)
  {
    hide Cut, Consistent, Under, OverAfter;
    ListsOwned(m'.t.p, m'.t.q, m'.all);
    CutByRemoval(m.t.p, m.t.q, m'.t.p, m'.t.q, tx, state, m.t.over);
    CutTwice(s.t.p, m.t.p, m'.t.p, state, s.t.over, m.t.over, m'.t.over);
    forall t
      ensures InLists(m'.t.p, t) <==> InLists(s.t.p, t) && !Under(s.t.p, gone + {tx}, t)
      ensures InLists(m'.t.q, t) <==>
        t !in gone + {tx} && (InLists(s.t.q, t) || (InLists(s.t.p, t) && !InLists(m'.t.p, t)))
    {
      EvictedStepTx(s, m, m', gone, tx, state, t);
    }
  }

  lemma EvictedStepTx(s: Image, m: Image, m': Image, gone: set<Tx>, tx: Tx, state: ChainState, t: Tx)
    requires Evicted(s, m, gone, state) && Consistent(m.t.p, m.t.q, m.all, {}) && tx.Hash() in m.all
    requires RemovedFrom(m.t.p, m.t.q, m'.t.p, m'.t.q, tx)
    ensures InLists(m'.t.p, t) <==> InLists(s.t.p, t) && !Under(s.t.p, gone + {tx}, t)
    ensures InLists(m'.t.q, t) <==>
      t !in gone + {tx} && (InLists(s.t.q, t) || (InLists(s.t.p, t) && !InLists(m'.t.p, t)))
  {
    hide Cut, Consistent, Under;
    RemovedMeans(m.t.p, m.t.q, m'.t.p, m'.t.q, m.all, tx, t);
    UnderMore(s.t.p, gone, tx, t);
    assert InLists(m.t.p, t) <==> InLists(s.t.p, t) && !Under(s.t.p, gone, t);
    assert InLists(m.t.p, tx) <==> InLists(s.t.p, tx) && !Under(s.t.p, gone, tx);
    assert InLists(m.t.q, t) <==> t !in gone && (InLists(s.t.q, t) || (InLists(s.t.p, t) && !InLists(m.t.p, t)));
    if InLists(s.t.p, t) && t in gone {
      assert Under(s.t.p, gone, t) by { UnderSelf(s.t.p, gone, t); }
    }
    if !InLists(m.t.p, tx) && InLists(s.t.p, tx) && t.from == tx.from && tx.nonce <= t.nonce {
      UnderAbove(s.t.p, gone, tx, t);
    }
  }

  lemma UnderSelf(p: Lists, gone: set<Tx>, tx: Tx)
    requires tx in gone && InLists(p, tx)
    ensures Under(p, gone, tx)
  {
  }

  /** Removal, transaction by transaction. */
  lemma RemovedMeans(p: Lists, q: Lists, p': Lists, q': Lists, all: map<Hash, Tx>, tx: Tx, t: Tx)
    requires Consistent(p, q, all, {}) && tx.Hash() in all && RemovedFrom(p, q, p', q', tx)
    ensures InLists(p', t) <==> InLists(p, t) && !(InLists(p, tx) && t.from == tx.from && t.nonce >= tx.nonce)
    ensures InLists(q', t) <==> t != tx && (InLists(q, t) || (InLists(p, t) && !InLists(p', t)))
  {
    KnownIsListed(p, q, all, tx);
    if InLists(p, tx) {
      InUpdated(p, tx.from, Below(p[tx.from], tx.nonce), t);
      assert InLists(q', t) <==> InLists(q, t) || Has(AtLeast(p[tx.from], tx.nonce + 1), t);
      assert t.from == tx.from && t.nonce == tx.nonce && InLists(p, t) ==> t == tx;
    } else {
      InUpdated(q, tx.from, q[tx.from] - {tx.nonce}, t);
    }
  }

  /** The transactions that left the lookup. */
  ghost function GoneFrom(all: map<Hash, Tx>, all': map<Hash, Tx>): set<Tx> {
    set h | h in all && h !in all' :: h.of
  }

  /** How a full pool makes room: remote transactions leave, the cheapest first and of equally
      priced ones those with the highest nonces, and no more than needed; with room to begin
      with nothing happens. */
  ghost predicate MadeRoom(s: Image, m: Image, e: Policy) {
    var gone := GoneFrom(s.all, m.all);
    && Evicted(s, m, gone, e.state)
    && (|s.all| < e.config.Capacity() ==> m == s)
    && (|s.all| >= e.config.Capacity() ==> |m.all| >= e.config.Capacity() - 1)
    && (forall g :: g in gone ==> !IsLocal(s.locals, g))
    && (forall g, k :: g in gone && k in m.all && !IsLocal(s.locals, k.of) ==>
         g.price < k.of.price || (g.price == k.of.price && g.nonce >= k.of.nonce))
  }

  /** A full pool has nothing worse than the remote transaction `tx`. */
  ghost predicate Unworthy(s: Image, tx: Tx, local: bool, e: Policy) {
    && |s.all| >= e.config.Capacity() && !local && !IsLocal(s.locals, tx) && s.all != map[]
    && forall h :: h in s.all ==> tx.price <= h.of.price
  }

  /** How a valid new transaction is filed: in place of a pending one with its nonce, or in the
      queue; a sender becomes local with a transaction that is queued. */
  ghost predicate Placed(m: Image, t: Image, tx: Tx, local: bool, r: Outcome, bump: nat) {
    var pending := tx.nonce in Of(m.t.p, tx.from);
    && Filed(m.t.p, m.t.q, t.t.p, t.t.q, tx, bump, r.Accepted?, r == Accepted(true))
    && (r.Refused? ==> r.error == ReplaceUnderpriced)
    && t.t.over == m.t.over
    && t.all == (if r.Refused? then m.all else Displace(m.all, Of(if pending then m.t.p else m.t.q, tx.from), tx))
    && t.locals == (if local && r.Accepted? && !pending then m.locals + {tx.from} else m.locals)
  }

  /** What submitting one transaction does, up to promotion. */
  ghost predicate Added(s: Image, t: Image, tx: Tx, local: bool, r: Outcome, e: Policy) {
    var invalid := Validate(tx, local, s.locals, e);
    if tx.Hash() in s.all then r == Refused(Known) && t == s
    else if invalid.Some? then r == Refused(invalid.value) && t == s
    else if Unworthy(s, tx, local, e) then r == Refused(Underpriced) && t == s
    else exists m: Image :: MadeRoom(s, m, e) && Placed(m, t, tx, local, r, e.config.priceBump)
  }

  /** What submitting a batch does, up to promotion. */
  ghost predicate AddedAll(s: Image, t: Image, txs: seq<Tx>, local: bool, results: seq<Outcome>, e: Policy)
    decreases |txs|
  {
    && |results| == |txs|
    && if txs == [] then t == s else
         var i := |txs| - 1;
         exists m: Image :: AddedAll(s, m, txs[..i], local, results[..i], e)
           && Added(m, t, txs[i], local, results[i], e)
  }

  /** The senders of the transactions that were accepted without replacing another. */
  ghost function Dirty(txs: seq<Tx>, results: seq<Outcome>): set<Address>
    requires |txs| == |results|
  {
    set i | 0 <= i < |txs| && results[i] == Accepted(false) :: txs[i].from
  }

  /** The promotion after a submission: that of the given accounts, if any. */
  ghost predicate Settled(m: Image, t: Image, dirty: set<Address>, e: Policy) {
    if dirty == {} then t == m
    else
      && t.locals == m.locals && (forall h :: h in t.all ==> h in m.all)
      && exists done :: Ordered(done, dirty) && Rebalanced(m.t, t.t, done, e.Rules(m.locals), e.config.GlobalLimits())
  }

  ghost predicate Ordered(done: seq<Address>, dirty: set<Address>) {
    && (forall a :: a in done <==> a in dirty)
    && (forall i, j :: 0 <= i < j < |done| ==> done[i] != done[j])
  }

  /** What submitting a batch does. */
  ghost predicate Submitted(s: Image, t: Image, txs: seq<Tx>, local: bool, results: seq<Outcome>, e: Policy) {
    exists m: Image ::
      && AddedAll(s, m, txs, local, results, e)
      && Settled(m, t, Dirty(txs, results), e)
  }

  lemma AddedNot(s: Image, tx: Tx, local: bool, e: Policy)
    requires tx.Hash() !in s.all && Validate(tx, local, s.locals, e) == None && Unworthy(s, tx, local, e)
    ensures Added(s, s, tx, local, Refused(Underpriced), e)
  {
  }

  lemma AddedBy(s: Image, m: Image, t: Image, tx: Tx, local: bool, r: Outcome, e: Policy)
    requires tx.Hash() !in s.all && Validate(tx, local, s.locals, e) == None && !Unworthy(s, tx, local, e)
    requires MadeRoom(s, m, e) && Placed(m, t, tx, local, r, e.config.priceBump)
    ensures Added(s, t, tx, local, r, e)
  {
  }

  lemma AddedStep(s: Image, m: Image, t: Image, txs: seq<Tx>, i: nat, local: bool, results: seq<Outcome>, r: Outcome,
                  e: Policy)
    requires i < |txs| && AddedAll(s, m, txs[..i], local, results, e) && Added(m, t, txs[i], local, r, e)
    ensures AddedAll(s, t, txs[..i + 1], local, results + [r], e)
    ensures Dirty(txs[..i + 1], results + [r]) ==
      if r == Accepted(false) then Dirty(txs[..i], results) + {txs[i].from} else Dirty(txs[..i], results)
  {
    hide Added;
    var now, outcomes := txs[..i + 1], results + [r];
    assert now[..i] == txs[..i] && outcomes[..i] == results && now[i] == txs[i];
    forall a ensures a in Dirty(now, outcomes) <==>
      a in Dirty(txs[..i], results) || (r == Accepted(false) && a == txs[i].from) {
      if a in Dirty(txs[..i], results) {
        var k :| 0 <= k < i && results[k] == Accepted(false) && txs[..i][k].from == a;
        assert now[k].from == a && outcomes[k] == Accepted(false);
      }
      if r == Accepted(false) && a == txs[i].from {
        assert now[i].from == a && outcomes[i] == Accepted(false);
      }
    }
  }

  /** What an outcome says about the pool before and after. */
  lemma AddedMeans(s: Image, t: Image, tx: Tx, local: bool, r: Outcome, e: Policy)
    requires Added(s, t, tx, local, r, e)
    ensures r == Refused(Known) <==> tx.Hash() in s.all
    ensures r.Accepted? ==> tx.Hash() in t.all && Validate(tx, local, s.locals, e) == None
    ensures forall h :: h in t.all ==> h in s.all || (r.Accepted? && h == tx.Hash())
    ensures r.Refused? && r.error != ReplaceUnderpriced ==> t == s
    ensures s.locals <= t.locals <= s.locals + {tx.from} && (!(local && r.Accepted?) ==> t.locals == s.locals)
  {
    hide Cut, Under, Filed, AllOwned, InLists;
  }

  /** When each error is reported: the checks come in this order, and the first that fails decides.
      What passes them all is accepted unless it replaces too cheaply, or is a remote transaction
      that is no better than anything in a full pool. */
  lemma RefusalsMean(s: Image, t: Image, tx: Tx, local: bool, r: Outcome, e: Policy)
    requires Added(s, t, tx, local, r, e)
    ensures var own := local || tx.from in s.locals;
      var unknown := tx.Hash() !in s.all;
      var small := unknown && tx.size <= 32768;
      var positive := small && tx.value >= 0;
      var within := positive && tx.gas <= e.maxGas;
      var signed := within && tx.signed;
      var priced := signed && (own || tx.price >= e.gasPrice);
      var timely := priced && tx.nonce >= e.state.Nonce(tx.from);
      var funded := timely && e.state.Balance(tx.from) >= tx.value + tx.price * tx.gas;
      var sound := funded && tx.gas >= tx.intrinsic;
      var worst := sound && !own && s.all != map[] && |s.all| >= e.config.globalSlots + e.config.globalQueue &&
        forall h :: h in s.all ==> h.of.price >= tx.price;
      && (r == Refused(Known) <==> !unknown) && (r == Refused(Oversized) <==> unknown && !small)
      && (r == Refused(NegativeValue) <==> small && !positive) && (r == Refused(GasLimit) <==> positive && !within)
      && (r == Refused(InvalidSender) <==> within && !signed) && (r == Refused(NonceTooLow) <==> priced && !timely)
      && (r == Refused(InsufficientFunds) <==> timely && !funded) && (r == Refused(IntrinsicGas) <==> funded && !sound)
      && (r == Refused(Underpriced) <==> (signed && !priced) || worst)
      && (r.Accepted? || r == Refused(ReplaceUnderpriced) <==> sound && !worst)
    // an unknown account has no balance, and any nonce will do
    ensures r.Accepted? && tx.from !in e.state.balances ==> tx.value + tx.price * tx.gas <= 0
    ensures tx.from !in e.state.nonces ==> r != Refused(NonceTooLow)
  {
    hide MadeRoom, Filed;
  }

  /** Transactions of local accounts leave only when replaced. */
  lemma LocalsStay(s: Image, t: Image, tx: Tx, local: bool, r: Outcome, e: Policy, h: Hash)
    requires Added(s, t, tx, local, r, e) && h in s.all && IsLocal(s.locals, h.of) && h !in t.all
    ensures r.Accepted? && h.of.from == tx.from && h.of.nonce == tx.nonce
  {
    hide Validate, Cut, Under, Worse, AllOwned, InLists, Filed;
    var m: Image :| MadeRoom(s, m, e) && Placed(m, t, tx, local, r, e.config.priceBump);
    assert h in m.all by {
      assert h !in m.all ==> h.of in GoneFrom(s.all, m.all);
    }
    var v := if tx.nonce in Of(m.t.p, tx.from) then m.t.p else m.t.q;
    assert tx.nonce in Of(v, tx.from) && h == Of(v, tx.from)[tx.nonce].Hash();
    OwnedByNonce(v, tx.from, tx.nonce);
  }

  lemma OwnedByNonce(v: Lists, a: Address, n: nat)
    requires AllOwned(v) && n in Of(v, a)
    ensures Of(v, a)[n].from == a && Of(v, a)[n].nonce == n
  {
    assert Owned(v[a], a);
  }

  lemma FitAfterAdding(s: Image, t: Image, tx: Tx, local: bool, r: Outcome, e: Policy)
    requires Added(s, t, tx, local, r, e) && AllFit(s.all, e.state, e.maxGas)
    ensures AllFit(t.all, e.state, e.maxGas)
  {
    hide Fits, Added;
    AddedMeans(s, t, tx, local, r, e);
  }

  lemma EvictedMeans(s: Image, m: Image, gone: set<Tx>, state: ChainState)
    requires Evicted(s, m, gone, state)
    ensures forall h :: h in m.all <==> h in s.all && h.of !in gone
  {
  }

  lemma AddedOne(s: Image, t: Image, tx: Tx, local: bool, r: Outcome, e: Policy)
    requires Added(s, t, tx, local, r, e)
    ensures AddedAll(s, t, [tx], local, [r], e)
    ensures Dirty([tx], [r]) == if r == Accepted(false) then {tx.from} else {}
  {
    hide Added;
    NoneAdded(s, local, e);
    AddedStep(s, s, t, [tx], 0, local, [], r, e);
    assert [tx][..0] == [] && [tx][..1] == [tx] && [] + [r] == [r];
  }

  lemma NoneAdded(s: Image, local: bool, e: Policy)
    ensures AddedAll(s, s, [], local, [], e) && Dirty([], []) == {}
  {
  }

  lemma NothingSubmitted(s: Image, t: Image, local: bool, results: seq<Outcome>, e: Policy)
    requires Submitted(s, t, [], local, results, e)
    ensures t == s
  {
    assert results == [] && Dirty([], []) == {};
  }

  /** There is room for another transaction, or only local ones are left. */
  ghost predicate Spare(all: map<Hash, Tx>, locals: set<Address>, cap: nat) {
    |all| < cap || forall h :: h in all ==> IsLocal(locals, h.of)
  }

  /** At most `cap` transactions, or no two remote ones. */
  ghost predicate Roomy(all: map<Hash, Tx>, locals: set<Address>, cap: nat) {
    || |all| <= cap
    || forall h, k :: h in all && k in all && !IsLocal(locals, h.of) && !IsLocal(locals, k.of) ==> h == k
  }

  lemma {:induction false} SubsetSize(s: set<Hash>, t: set<Hash>)
    requires s <= t
    ensures |s| <= |t|
  {
    assert t == s + (t - s);
  }

  lemma RoomyLess(all: map<Hash, Tx>, all': map<Hash, Tx>, locals: set<Address>, cap: nat)
    requires forall h :: h in all' ==> h in all
    ensures Roomy(all, locals, cap) ==> Roomy(all', locals, cap)
  {
    SubsetSize(all'.Keys, all.Keys);
  }

  lemma RoomyWithOne(all: map<Hash, Tx>, all': map<Hash, Tx>, locals: set<Address>, locals': set<Address>, cap: nat,
                     h: Hash)
    requires Spare(all, locals, cap) && locals <= locals' && forall k :: k in all' ==> k in all || k == h
    ensures Roomy(all', locals', cap)
  {
    SubsetSize(all'.Keys, all.Keys + {h});
  }

  lemma NoRoomNeeded(s: Image, e: Policy)
    requires |s.all| < e.config.Capacity() && Consistent(s.t.p, s.t.q, s.all, {})
    ensures MadeRoom(s, s, e)
  {
    hide Evicted;
    EvictedNone(s, e.state);
    assert GoneFrom(s.all, s.all) == {};
  }

  /** Evicting what the price heap gives up makes room as it should. */
  lemma RoomMade(s: Image, m: Image, drop: seq<Tx>, e: Policy)
    requires Evicted(s, m, TxSet(drop), e.state) && |s.all| >= e.config.Capacity() && |m.all| >= e.config.Capacity() - 1
    requires forall tx :: tx in drop ==> tx.Hash() in s.all && !IsLocal(s.locals, tx)
    requires forall d, k :: d in drop && k in s.all && k.of !in drop && !IsLocal(s.locals, k.of) ==>
      d.price < k.of.price || (d.price == k.of.price && d.nonce >= k.of.nonce)
    ensures MadeRoom(s, m, e)
  {
    hide Cut, Under, InLists, Worse, AllOwned;
    forall tx ensures tx in GoneFrom(s.all, m.all) <==> tx in TxSet(drop) {
      assert tx in drop ==> tx.Hash() in s.all && tx.Hash() !in m.all;
    }
    assert GoneFrom(s.all, m.all) == TxSet(drop);
  }

  /** Of one remote sender's transactions at one price the highest nonces leave first. */
  lemma HighestLeaveFirst(s: Image, m: Image, e: Policy, g: Tx, k: Tx)
    requires MadeRoom(s, m, e) && Consistent(s.t.p, s.t.q, s.all, {})
    requires g.Hash() in s.all && g.Hash() !in m.all && k.Hash() in m.all
    requires g.from == k.from && g.price == k.price && k.from !in s.locals
    ensures g.nonce > k.nonce
  {
    hide Cut, Under, AllOwned, Consistent;
    assert g.Hash().of == g && k.Hash().of == k && g in GoneFrom(s.all, m.all);
    assert k.Hash() in s.all;
    OneOfANonce(s.t.p, s.t.q, s.all, g, k);
  }

  lemma OneOfANonce(p: Lists, q: Lists, all: map<Hash, Tx>, g: Tx, k: Tx)
    requires Consistent(p, q, all, {}) && g.Hash() in all && k.Hash() in all
    ensures g.from == k.from && g.nonce == k.nonce ==> g == k
  {
    KnownIsListed(p, q, all, g);
    KnownIsListed(p, q, all, k);
  }

  /** Hence eviction demotes nothing of a remote sender whose pending transactions all have one
      price: what is not evicted stays pending. */
  lemma OnePriceStaysPending(s: Image, m: Image, e: Policy, a: Address, price: int, tx: Tx)
    requires MadeRoom(s, m, e) && Consistent(s.t.p, s.t.q, s.all, {}) && a !in s.locals
    requires forall n :: n in Of(s.t.p, a) ==> Of(s.t.p, a)[n].price == price
    requires tx.from == a && InLists(s.t.p, tx) && tx.Hash() in m.all
    ensures InLists(m.t.p, tx)
  {
    hide MadeRoom, Consistent, GoneFrom, Under;
    var gone := GoneFrom(s.all, m.all);
    PendingKept(s, m, e, tx);
    forall d | d in gone && InLists(s.t.p, d) && d.from == tx.from ensures d.nonce > tx.nonce {
      GoneMeans(s.all, m.all, d);
      assert Of(s.t.p, a)[d.nonce] == d && Of(s.t.p, a)[tx.nonce] == tx;
      HighestLeaveFirst(s, m, e, d, tx);
    }
    NotUnder(s.t.p, gone, tx);
  }

  lemma PendingKept(s: Image, m: Image, e: Policy, tx: Tx)
    requires MadeRoom(s, m, e)
    ensures InLists(m.t.p, tx) <==> InLists(s.t.p, tx) && !Under(s.t.p, GoneFrom(s.all, m.all), tx)
  {
    hide Cut, AllOwned, Under, InLists;
  }

  lemma GoneMeans(all: map<Hash, Tx>, all': map<Hash, Tx>, d: Tx)
    ensures d in GoneFrom(all, all') <==> d.Hash() in all && d.Hash() !in all'
  {
    assert d.Hash().of == d;
  }

  lemma NotUnder(p: Lists, gone: set<Tx>, tx: Tx)
    requires forall d :: d in gone && InLists(p, d) && d.from == tx.from ==> d.nonce > tx.nonce
    ensures !Under(p, gone, tx)
  {
  }

  /** After room was made, a transaction is known exactly if it is listed. */
  lemma ListedAfterRoom(s: Image, m: Image, e: Policy, tx: Tx)
    requires MadeRoom(s, m, e) && Consistent(s.t.p, s.t.q, s.all, {})
    ensures tx.Hash() in m.all <==> InLists(m.t.p, tx) || InLists(m.t.q, tx)
    ensures tx.Hash() in m.all ==> tx.Hash() in s.all
  {
    hide Cut, AllOwned, Under;
    var gone := GoneFrom(s.all, m.all);
    assert tx.Hash().of == tx;
    assert tx.Hash() in s.all <==> InLists(s.t.p, tx) || InLists(s.t.q, tx) || tx in {};
    if InLists(s.t.p, tx) && tx in gone {
      UnderSelf(s.t.p, gone, tx);
    }
  }

  /** A replacement is accepted exactly if it costs more than what it replaces, and at least that
      price raised by the bump, rounded down; `m` is the pool once room was made. */
  lemma ReplacementPrice(s: Image, m: Image, t: Image, tx: Tx, local: bool, r: Outcome, e: Policy)
    requires MadeRoom(s, m, e) && Placed(m, t, tx, local, r, e.config.priceBump)
    requires Consistent(s.t.p, s.t.q, s.all, {}) && tx.Hash() !in s.all
    ensures r.Accepted? <==> forall was: Tx :: was.Hash() in m.all && was.from == tx.from && was.nonce == tx.nonce ==>
      was.price < tx.price && was.price * (100 + e.config.priceBump) / 100 <= tx.price
    ensures r == Accepted(true) ==> exists was: Tx ::
      was.Hash() in m.all && was.Hash() !in t.all && was.from == tx.from && was.nonce == tx.nonce
  {
    hide MadeRoom, Consistent, Displace;
    var v := if tx.nonce in Of(m.t.p, tx.from) then m.t.p else m.t.q;
    RoomOwned(s, m, e);
    forall was: Tx | was.Hash() in m.all && was.from == tx.from && was.nonce == tx.nonce
      ensures tx.nonce in Of(v, tx.from) && was == Of(v, tx.from)[tx.nonce]
    {
      ReplacedIsListed(s, m, e, tx, v, was);
    }
    if tx.nonce in Of(v, tx.from) {
      var was := Of(v, tx.from)[tx.nonce];
      OwnedByNonce(v, tx.from, tx.nonce);
      ListedAfterRoom(s, m, e, was);
      assert was.Hash() in m.all;
      DisplacedIsGone(m.all, Of(v, tx.from), tx);
    }
  }

  lemma RoomOwned(s: Image, m: Image, e: Policy)
    requires MadeRoom(s, m, e)
    ensures AllOwned(m.t.p) && AllOwned(m.t.q)
  {
    hide Cut, Under, InLists, AllOwned;
  }

  lemma DisplacedIsGone(all: map<Hash, Tx>, list: NonceMap, tx: Tx)
    requires tx.nonce in list && list[tx.nonce] != tx
    ensures list[tx.nonce].Hash() !in Displace(all, list, tx)
  {
  }

  lemma ReplacedIsListed(s: Image, m: Image, e: Policy, tx: Tx, v: Lists, was: Tx)
    requires MadeRoom(s, m, e) && Consistent(s.t.p, s.t.q, s.all, {}) && AllOwned(m.t.p) && AllOwned(m.t.q)
    requires v == if tx.nonce in Of(m.t.p, tx.from) then m.t.p else m.t.q
    requires was.Hash() in m.all && was.from == tx.from && was.nonce == tx.nonce
    ensures tx.nonce in Of(v, tx.from) && was == Of(v, tx.from)[tx.nonce]
  {
    hide MadeRoom, Consistent;
    ListedAfterRoom(s, m, e, was);
    if tx.nonce in Of(v, tx.from) {
      var other := Of(v, tx.from)[tx.nonce];
      OwnedByNonce(v, tx.from, tx.nonce);
      ListedAfterRoom(s, m, e, other);
      OneOfANonce(s.t.p, s.t.q, s.all, was, other);
    }
  }

  lemma KeptOut(s: Image, m: Image, tx: Tx, e: Policy)
    requires MadeRoom(s, m, e) && tx.Hash() !in s.all
    ensures tx.Hash() !in m.all
  {
    hide Cut, Under, InLists, Worse, AllOwned;
  }

  /** Capacity is kept, when enough room was made. */
  lemma CapacityKept(s: Image, m: Image, t: Image, tx: Tx, local: bool, r: Outcome, e: Policy)
    requires MadeRoom(s, m, e) && Placed(m, t, tx, local, r, e.config.priceBump)
    ensures r.Accepted? && Spare(m.all, m.locals, e.config.Capacity()) ==> Roomy(t.all, t.locals, e.config.Capacity())
    ensures r.Refused? && Roomy(s.all, s.locals, e.config.Capacity()) ==> Roomy(t.all, t.locals, e.config.Capacity())
  {
    hide Cut, Under, InLists, Worse, AllOwned, Filed, Roomy, Spare;
    if r.Accepted? && Spare(m.all, m.locals, e.config.Capacity()) {
      RoomyWithOne(m.all, t.all, m.locals, t.locals, e.config.Capacity(), tx.Hash());
    }
    RoomyLess(s.all, m.all, s.locals, e.config.Capacity());
  }

  lemma SinglePuts(puts: multiset<Tx>, tx: Tx)
    ensures Single(puts + multiset{tx}) ==> Single(puts)
  {
    SingleSub(puts, puts + multiset{tx});
  }

  lemma SingleSub(a: multiset<Tx>, b: multiset<Tx>)
    requires a <= b
    ensures Single(b) ==> Single(a)
  {
    if Single(b) {
      forall tx ensures a[tx] <= 1 {
        assert b[tx] <= 1;
      }
    }
  }

  lemma MorePuts(base: multiset<Tx>, puts: multiset<Tx>, puts': multiset<Tx>, txs: seq<Tx>, i: nat)
    requires i < |txs| && base <= puts <= base + multiset(txs[..i])
      && (puts' == puts || puts' == puts + multiset{txs[i]})
    ensures base <= puts' <= base + multiset(txs[..i + 1])
    ensures Single(puts') ==> Single(puts)
  {
    assert txs[..i + 1] == txs[..i] + [txs[i]];
    SingleSub(puts, puts');
  }
}
