/** What the pool's parts must agree on, over plain values: the pending lists, the
    queued lists, the lookup, and the transactions in transit between them. */
module PoolState {
  import opened Options
  import opened Transactions
  import opened TxLists
  import opened ListTables

  /** The chain state the pool validates against. */
  datatype ChainState = ChainState(nonces: map<Address, nat>, balances: map<Address, int>) {
    function Nonce(a: Address): nat { if a in nonces then nonces[a] else 0 }
    function Balance(a: Address): int { if a in balances then balances[a] else 0 }
  }

  /** The virtual nonce of an account: an override on top of the state. */
  function Virtual(state: ChainState, over: map<Address, nat>, a: Address): nat {
    if a in over then over[a] else state.Nonce(a)
  }

  /** The pending nonces of the account run without a gap from the state nonce up
      to the virtual nonce. */
  ghost predicate Run(p: Lists, state: ChainState, over: map<Address, nat>, a: Address) {
    && state.Nonce(a) <= Virtual(state, over, a)
    && GapFree(Of(p, a), state.Nonce(a), Virtual(state, over, a))
  }

  ghost predicate Runs(p: Lists, state: ChainState, over: map<Address, nat>) {
    forall a :: Run(p, state, over, a)
  }

  /** The sender can pay for the transaction, its nonce is not used up, and it
      fits into a block. */
  predicate Fits(tx: Tx, state: ChainState, maxGas: nat) {
    tx.nonce >= state.Nonce(tx.from) && tx.Cost() <= state.Balance(tx.from) && tx.gas <= maxGas
  }

  ghost predicate AllFit(all: map<Hash, Tx>, state: ChainState, maxGas: nat) {
    forall h :: h in all ==> Fits(h.of, state, maxGas)
  }

  /** Every transaction of the list is signed by `a` and filed under its nonce. */
  ghost predicate Owned(m: NonceMap, a: Address) {
    forall n :: n in m ==> m[n].from == a && m[n].nonce == n && m[n].signed
  }

  ghost predicate AllOwned(v: Lists) {
    forall a :: a in v ==> Owned(v[a], a)
  }

  predicate InLists(v: Lists, tx: Tx) {
    tx.from in v && Has(v[tx.from], tx)
  }

  /** No account has the same nonce both pending and queued. */
  ghost predicate NoSharedNonce(p: Lists, q: Lists) {
    forall a, n :: a in p && a in q && n in p[a] ==> n !in q[a]
  }

  /** The lookup knows exactly the listed transactions and those in transit. */
  ghost predicate Tracked(p: Lists, q: Lists, all: map<Hash, Tx>, moving: set<Tx>) {
    forall tx: Tx :: tx.Hash() in all <==> InLists(p, tx) || InLists(q, tx) || tx in moving
  }

  /** Transactions in transit could be listed under their nonces. */
  ghost predicate Placeable(p: Lists, q: Lists, moving: set<Tx>) {
    && (forall tx :: tx in moving ==> tx.signed && tx.nonce !in Of(p, tx.from) && tx.nonce !in Of(q, tx.from))
    && (forall s, t :: s in moving && t in moving && s.from == t.from && s.nonce == t.nonce ==> s == t)
  }

  ghost predicate Consistent(p: Lists, q: Lists, all: map<Hash, Tx>, moving: set<Tx>) {
    && AllOwned(p) && AllOwned(q)
    && NoSharedNonce(p, q)
    && Tracked(p, q, all, moving)
    && Placeable(p, q, moving)
  }

  lemma ConsistentEmpty()
    ensures Consistent(map[], map[], map[], {})
  {
  }

  lemma ConsistentSwap(p: Lists, q: Lists, all: map<Hash, Tx>, moving: set<Tx>)
    requires Consistent(p, q, all, moving)
    ensures Consistent(q, p, all, moving)
  {
  }

  lemma LessOne(all: map<Hash, Tx>, h: Hash)
    ensures |all - {h}| == if h in all then |all| - 1 else |all|
  {
    if h in all {
      assert all.Keys == (all - {h}).Keys + {h};
    } else {
      assert all - {h} == all;
    }
  }

  ghost function TxSet(s: seq<Tx>): set<Tx> {
    set tx | tx in s
  }

  lemma TailSet(s: seq<Tx>, i: nat)
    requires Distinct(s) && i < |s|
    ensures s[i] in TxSet(s[i..]) && TxSet(s[i..]) - {s[i]} == TxSet(s[i + 1..])
    ensures forall tx :: tx in s[..i + 1] <==> tx in s[..i] || tx == s[i]
  {
    assert s[i..] == [s[i]] + s[i + 1..];
    assert s[..i + 1] == s[..i] + [s[i]];
    assert s[i] !in s[i + 1..];
  }

  /** `kept` has some of the transactions of `m`. */
  ghost predicate SubMap(kept: NonceMap, m: NonceMap) {
    forall n :: n in kept ==> n in m && kept[n] == m[n]
  }

  /** Taking transactions off a queued list puts them in transit. */
  lemma TakeOff(p: Lists, q: Lists, all: map<Hash, Tx>, moving: set<Tx>, a: Address, kept: NonceMap, taken: set<Tx>)
    requires Consistent(p, q, all, moving) && a in q && SubMap(kept, q[a])
    requires forall tx :: tx in taken <==> Has(q[a], tx) && !Has(kept, tx)
    ensures Consistent(p, q[a := kept], all, moving + taken)
  {
    var q' := q[a := kept];
    forall tx: Tx ensures tx.Hash() in all <==> InLists(p, tx) || InLists(q', tx) || tx in moving + taken {
      assert tx.Hash() in all <==> InLists(p, tx) || InLists(q, tx) || tx in moving;
      if tx.from != a {
        assert !Has(q[a], tx) by { assert Owned(q[a], a); }
      }
    }
    forall tx | tx in taken ensures tx.from == a && tx.signed && tx.nonce !in Of(p, a) && tx.nonce !in kept {
      assert Owned(q[a], a);
      assert Has(q[a], tx);
    }
    assert forall tx :: tx in moving ==> tx.nonce !in Of(q, tx.from);
  }

  /** Filing a transaction in transit under its nonce in the queue. */
  lemma PutDown(p: Lists, q: Lists, all: map<Hash, Tx>, moving: set<Tx>, tx: Tx)
    requires Consistent(p, q, all, moving) && tx in moving
    ensures Consistent(p, q[tx.from := Plus(Of(q, tx.from), tx)], all, moving - {tx})
    ensures forall t :: InLists(q[tx.from := Plus(Of(q, tx.from), tx)], t) <==> InLists(q, t) || t == tx
  {
    var m := Plus(Of(q, tx.from), tx);
    var q' := q[tx.from := m];
    forall t: Tx ensures t.Hash() in all <==> InLists(p, t) || InLists(q', t) || t in moving - {tx} {
      assert t.Hash() in all <==> InLists(p, t) || InLists(q, t) || t in moving;
    }
    assert Owned(m, tx.from) by { assert tx.from in q ==> Owned(q[tx.from], tx.from); }
  }

  /** A transaction in transit is known, and nothing is filed under its nonce. */
  lemma MovingIsNew(p: Lists, q: Lists, all: map<Hash, Tx>, moving: set<Tx>, tx: Tx, priceBump: nat)
    requires Consistent(p, q, all, moving) && tx in moving
    ensures tx.Hash() in all && tx.signed
    ensures tx.nonce !in Of(p, tx.from) && tx.nonce !in Of(q, tx.from)
    ensures Accepts(Of(p, tx.from), tx, priceBump) && Accepts(Of(q, tx.from), tx, priceBump)
  {
    assert tx in moving && tx.Hash() in all;
  }

  lemma ForgetMoving(p: Lists, q: Lists, all: map<Hash, Tx>, moving: set<Tx>, tx: Tx)
    requires Consistent(p, q, all, moving) && tx in moving
    ensures tx.Hash() in all
    ensures Consistent(p, q, all - {tx.Hash()}, moving - {tx})
  {
    var all' := all - {tx.Hash()};
    forall t: Tx ensures t.Hash() in all' <==> InLists(p, t) || InLists(q, t) || t in moving - {tx} {
      assert t.Hash() in all <==> InLists(p, t) || InLists(q, t) || t in moving;
    }
    assert tx in moving && tx.Hash() in all;
  }

  /** The lookup once `tx` has taken the place of what `m` had under its nonce. */
  function Displace(all: map<Hash, Tx>, m: NonceMap, tx: Tx): map<Hash, Tx> {
    (if tx.nonce in m then all - {m[tx.nonce].Hash()} else all)[tx.Hash() := tx]
  }

  /** A transaction unknown to the pool, whose nonce is not pending, replaces
      whatever is queued under its nonce. */
  lemma FileNew(p: Lists, q: Lists, all: map<Hash, Tx>, tx: Tx)
    requires Consistent(p, q, all, {}) && tx.signed && tx.Hash() !in all && tx.nonce !in Of(p, tx.from)
    ensures var m := Of(q, tx.from);
      && Consistent(p, q[tx.from := Plus(m, tx)], Displace(all, m, tx), {})
      && (tx.nonce in m ==> m[tx.nonce].Hash() in all && m[tx.nonce] != tx)
  {
    var m := Of(q, tx.from);
    var q' := q[tx.from := Plus(m, tx)];
    var all' := Displace(all, m, tx);
    assert Owned(m, tx.from) by { assert tx.from in q ==> Owned(q[tx.from], tx.from); }
    forall t: Tx ensures t.Hash() in all' <==> InLists(p, t) || InLists(q', t) || t in {} {
      assert t.Hash() in all <==> InLists(p, t) || InLists(q, t) || t in {};
      if tx.nonce in m && t == m[tx.nonce] {
        assert !InLists(p, t);
      }
    }
  }

  lemma DeleteEmpty(p: Lists, q: Lists, all: map<Hash, Tx>, moving: set<Tx>, a: Address)
    requires Consistent(p, q, all, moving) && Of(q, a) == map[]
    ensures Consistent(p, q - {a}, all, moving)
  {
    forall t: Tx ensures t.Hash() in all <==> InLists(p, t) || InLists(q - {a}, t) || t in moving {
      assert t.Hash() in all <==> InLists(p, t) || InLists(q, t) || t in moving;
    }
  }

  /** How the lists change when a new transaction is filed: it goes to the pending list if
      it replaces a pending one and to the queue otherwise, if the price is right. */
  ghost predicate Filed(p: Lists, q: Lists, p': Lists, q': Lists, tx: Tx, bump: nat, inserted: bool, replaced: bool) {
    var pending := tx.nonce in Of(p, tx.from);
    && inserted == Accepts(if pending then Of(p, tx.from) else Of(q, tx.from), tx, bump)
    && replaced == (inserted && (pending || tx.nonce in Of(q, tx.from)))
    && p' == (if inserted && pending then p[tx.from := Plus(Of(p, tx.from), tx)] else p)
    && q' == (if inserted && !pending then q[tx.from := Plus(Of(q, tx.from), tx)] else q)
  }

  /** How the lists change when `tx` is removed from the pool. */
  ghost predicate RemovedFrom(p: Lists, q: Lists, p': Lists, q': Lists, tx: Tx) {
    if InLists(p, tx) then
      && p' == Upd(p, tx.from, Below(p[tx.from], tx.nonce))
      && forall t :: InLists(q', t) <==> InLists(q, t) || Has(AtLeast(p[tx.from], tx.nonce + 1), t)
    else p' == p && InLists(q, tx) && q' == Upd(q, tx.from, q[tx.from] - {tx.nonce})
  }

  /** A known transaction is listed on exactly one side, under its nonce. */
  lemma KnownIsListed(p: Lists, q: Lists, all: map<Hash, Tx>, tx: Tx)
    requires Consistent(p, q, all, {}) && tx.Hash() in all
    ensures tx.nonce in Of(p, tx.from) <==> InLists(p, tx)
    ensures InLists(q, tx) <==> !InLists(p, tx)
    ensures tx.signed
  {
    assert InLists(p, tx) || InLists(q, tx) || tx in {};
    assert AllOwned(p) && AllOwned(q);
  }

  /** Removing a pending transaction: it leaves the lookup, everything above it in
      the account leaves the pending list and is in transit. */
  lemma RemoveFromPending(p: Lists, q: Lists, all: map<Hash, Tx>, tx: Tx, invalids: seq<Tx>)
    requires Consistent(p, q, all, {}) && InLists(p, tx)
    requires Enumerates(invalids, AtLeast(p[tx.from], tx.nonce + 1))
    ensures Consistent(Upd(p, tx.from, Below(p[tx.from], tx.nonce)), q, all - {tx.Hash()}, TxSet(invalids))
  {
    var m := p[tx.from];
    var kept := Below(m, tx.nonce);
    var taken := TxSet(invalids) + {tx};
    ConsistentSwap(p, q, all, {});
    assert Owned(m, tx.from);
    forall t ensures t in taken <==> Has(m, t) && !Has(kept, t) {
      assert t in invalids <==> Has(AtLeast(m, tx.nonce + 1), t);
    }
    TakeOff(q, p, all, {}, tx.from, kept, taken);
    assert {} + taken == taken;
    assert taken - {tx} == TxSet(invalids);
    ForgetMoving(q, p[tx.from := kept], all, taken, tx);
    if kept == map[] {
      DeleteEmpty(q, p[tx.from := kept], all - {tx.Hash()}, TxSet(invalids), tx.from);
      assert p[tx.from := kept] - {tx.from} == p - {tx.from};
    }
    ConsistentSwap(q, Upd(p, tx.from, kept), all - {tx.Hash()}, TxSet(invalids));
  }

  lemma RemoveFromQueue(p: Lists, q: Lists, all: map<Hash, Tx>, tx: Tx)
    requires Consistent(p, q, all, {}) && InLists(q, tx)
    ensures Consistent(p, Upd(q, tx.from, q[tx.from] - {tx.nonce}), all - {tx.Hash()}, {})
  {
    var kept := q[tx.from] - {tx.nonce};
    assert Owned(q[tx.from], tx.from);
    TakeOff(p, q, all, {}, tx.from, kept, {tx});
    assert {} + {tx} == {tx} && {tx} - {tx} == {};
    ForgetMoving(p, q[tx.from := kept], all, {tx}, tx);
    if kept == map[] {
      DeleteEmpty(p, q[tx.from := kept], all - {tx.Hash()}, {}, tx.from);
      assert q[tx.from := kept] - {tx.from} == q - {tx.from};
    }
  }

  /** The virtual nonces after removing `tx`. */
  function OverAfter(p: Lists, state: ChainState, over: map<Address, nat>, tx: Tx): map<Address, nat> {
    if InLists(p, tx) && Virtual(state, over, tx.from) > tx.nonce then over[tx.from := tx.nonce] else over
  }

  /** A list keeps the transactions below some nonce, and the virtual nonce is lowered to the
      lowest nonce given up. */
  ghost predicate AccountCut(m: NonceMap, m': NonceMap, next: nat, next': nat) {
    && SubMap(m', m) && next' <= next
    && (forall n, k :: n in m && n !in m' && k in m' ==> k < n)
    && (forall n :: n in m && n !in m' ==> next' <= n)
    && (next' == next || (next' in m && next' !in m'))
  }

  /** What eviction and truncation do to the pending lists. */
  ghost predicate Cut(p: Lists, p': Lists, state: ChainState, over: map<Address, nat>, over': map<Address, nat>) {
    forall a :: AccountCut(Of(p, a), Of(p', a), Virtual(state, over, a), Virtual(state, over', a))
  }

  lemma CutNone(p: Lists, state: ChainState, over: map<Address, nat>)
    ensures Cut(p, p, state, over, over)
  {
  }

  lemma CutTwice(p: Lists, p1: Lists, p2: Lists, state: ChainState, over: map<Address, nat>, over1: map<Address, nat>,
                 over2: map<Address, nat>)
    requires Cut(p, p1, state, over, over1) && Cut(p1, p2, state, over1, over2)
    ensures Cut(p, p2, state, over, over2)
  {
    hide AccountCut;
    forall a ensures AccountCut(Of(p, a), Of(p2, a), Virtual(state, over, a), Virtual(state, over2, a)) {
      assert AccountCut(Of(p, a), Of(p1, a), Virtual(state, over, a), Virtual(state, over1, a));
      assert AccountCut(Of(p1, a), Of(p2, a), Virtual(state, over1, a), Virtual(state, over2, a));
      AccountCutTwice(Of(p, a), Of(p1, a), Of(p2, a), Virtual(state, over, a), Virtual(state, over1, a),
                      Virtual(state, over2, a));
    }
  }

  lemma AccountCutTwice(m: NonceMap, m1: NonceMap, m2: NonceMap, next: nat, next1: nat, next2: nat)
    requires AccountCut(m, m1, next, next1) && AccountCut(m1, m2, next1, next2)
    ensures AccountCut(m, m2, next, next2)
  {
  }

  lemma CutByRemoval(p: Lists, q: Lists, p': Lists, q': Lists, tx: Tx, state: ChainState, over: map<Address, nat>)
    requires RemovedFrom(p, q, p', q', tx)
    ensures Cut(p, p', state, over, OverAfter(p, state, over, tx))
  {
    var over' := OverAfter(p, state, over, tx);
    forall a ensures AccountCut(Of(p, a), Of(p', a), Virtual(state, over, a), Virtual(state, over', a)) {
      if a == tx.from && InLists(p, tx) {
        assert Of(p', a) == Below(p[a], tx.nonce);
      } else {
        assert Of(p', a) == Of(p, a);
      }
    }
  }

  lemma RunAfterCut(m: NonceMap, m': NonceMap, next: nat, next': nat, nonce: nat)
    requires nonce <= next && GapFree(m, nonce, next) && AccountCut(m, m', next, next')
    ensures nonce <= next' && GapFree(m', nonce, next')
  {
    forall n: nat ensures n in m' <==> nonce <= n < next' {
      assert n in m <==> nonce <= n < next;
    }
  }

  lemma PendingIsNotQueued(p: Lists, q: Lists, all: map<Hash, Tx>, tx: Tx)
    requires Consistent(p, q, all, {}) && tx.nonce in Of(p, tx.from)
    ensures tx.nonce !in Of(q, tx.from)
  {
  }

  /** What happens to an account when its queue is examined: stale and unpayable
      transactions go, the run that continues the pending list is promoted, and
      what stays queued is capped unless the account is local. `pm`, `qm` and
      `next` are its lists and virtual nonce before, `pm'`, `qm'` and `next'` after. */
  ghost predicate Promotion(
    pm: NonceMap, qm: NonceMap, next: nat, pm': NonceMap, qm': NonceMap, next': nat,
    nonce: nat, payable: Criterion, cap: Option<nat>)
  {
    var live := Others(AtLeast(qm, nonce), payable);
    var cut := ReadyCut(live, next);
    && pm' == pm + Below(live, cut)
    && next' == (if Below(live, cut) == map[] then next else cut)
    && Capped(qm', AtLeast(live, cut), cap)
  }

  ghost predicate Capped(r: NonceMap, m: NonceMap, cap: Option<nat>) {
    if cap == None then r == m else Lowest(r, m, cap.value)
  }

  /** Listing a run of consecutive nonces: `ready[..i]` are those below the next. */
  ghost function NextNonce(ready: seq<Tx>, i: nat, cut: nat): nat
    requires i <= |ready|
  {
    if i < |ready| then ready[i].nonce else cut
  }

  lemma PromoteStep(ready: seq<Tx>, m: NonceMap, cut: nat, i: nat, base: NonceMap)
    requires Keyed(m) && SortedOf(ready, Below(m, cut)) && i < |ready|
    ensures Has(m, ready[i])
    ensures Plus(base + Below(m, NextNonce(ready, i, cut)), ready[i]) == base + Below(m, NextNonce(ready, i + 1, cut))
  {
    assert ready[i] in ready;
    var lo, hi := NextNonce(ready, i, cut), NextNonce(ready, i + 1, cut);
    assert i + 1 < |ready| ==> ready[i + 1] in ready;
    forall n | n in m && lo <= n < hi ensures n == ready[i].nonce {
      assert Has(Below(m, cut), m[n]);
      var j :| 0 <= j < |ready| && ready[j] == m[n];
    }
    assert Below(m, hi) == Plus(Below(m, lo), ready[i]);
  }

  lemma NothingBelowFirst(ready: seq<Tx>, m: NonceMap, cut: nat, base: NonceMap)
    requires Keyed(m) && SortedOf(ready, Below(m, cut)) && ready != []
    ensures base + Below(m, ready[0].nonce) == base
  {
    assert ready[0] in ready;
    forall n | n in m ensures n >= ready[0].nonce {
      if n < cut {
        assert Has(Below(m, cut), m[n]);
        var j :| 0 <= j < |ready| && ready[j] == m[n];
      }
    }
    assert Below(m, ready[0].nonce) == map[];
  }

  lemma SortedDistinct(s: seq<Tx>, m: NonceMap)
    requires SortedOf(s, m)
    ensures Distinct(s)
  {
  }

  /** The ready run ends right before the cut. */
  lemma ReadyEnds(ready: seq<Tx>, m: NonceMap, start: nat)
    requires Keyed(m) && SortedOf(ready, Below(m, ReadyCut(m, start)))
    ensures ready == [] <==> Below(m, ReadyCut(m, start)) == map[]
    ensures ready != [] ==> ready[|ready| - 1].nonce + 1 == ReadyCut(m, start)
  {
    var cut := ReadyCut(m, start);
    if ready == [] {
      EmptyListing(Below(m, cut));
    } else {
      assert ready[0] in ready && ready[|ready| - 1] in ready;
      assert m != map[] && Least(m) <= start && Least(m) < cut;
      assert cut - 1 in m;
      assert Has(Below(m, cut), m[cut - 1]);
      var j :| 0 <= j < |ready| && ready[j] == m[cut - 1];
    }
  }

  lemma AccountOwned(p: Lists, q: Lists, all: map<Hash, Tx>, moving: set<Tx>, a: Address)
    requires Consistent(p, q, all, moving)
    ensures Owned(Of(p, a), a) && Owned(Of(q, a), a)
    ensures forall n :: n in Of(p, a) ==> n !in Of(q, a)
  {
    assert a in p ==> Owned(p[a], a);
    assert a in q ==> Owned(q[a], a);
  }

  /** The run that is promoted continues the pending run, so that the account's
      pending nonces stay gap-free. */
  lemma RunAfterPromotion(pm: NonceMap, live: NonceMap, lo: nat, next: nat)
    requires lo <= next && GapFree(pm, lo, next)
    requires forall n :: n in live ==> n >= lo && n !in pm
    ensures var cut := ReadyCut(live, next);
      GapFree(pm + Below(live, cut), lo, if Below(live, cut) == map[] then next else cut)
    ensures Below(live, ReadyCut(live, next)) != map[] ==> lo <= ReadyCut(live, next)
  {
    var cut := ReadyCut(live, next);
    if live != map[] && Least(live) <= next {
      assert Least(live) == next;
      assert next in Below(live, cut);
      assert forall n :: n in Below(live, cut) <==> next <= n < cut;
    } else {
      assert Below(live, cut) == map[];
    }
  }

  /** The tables of the pool that describe accounts. */
  datatype Tables = Tables(p: Lists, q: Lists, over: map<Address, nat>)

  /** What an account's promotion depends on besides its lists. */
  datatype Rules = Rules(state: ChainState, maxGas: nat, locals: set<Address>, accountQueue: nat) {
    /** The limit on an account's queue; local accounts have none. */
    function QueueLimit(a: Address): Option<nat> {
      if a in locals then None else Some(accountQueue)
    }
  }

  /** Promotion of account `a`, read off the pool's tables. */
  ghost predicate AccountPromoted(s: Tables, t: Tables, a: Address, r: Rules) {
    Promotion(
      Of(s.p, a), Of(s.q, a), Virtual(r.state, s.over, a), Of(t.p, a), Of(t.q, a), Virtual(r.state, t.over, a),
      r.state.Nonce(a), Unpayable(r.state.Balance(a), r.maxGas), r.QueueLimit(a))
  }

  /** Nothing changed for account `a`. */
  ghost predicate AccountSame(s: Tables, t: Tables, a: Address, state: ChainState) {
    && Of(t.p, a) == Of(s.p, a) && Of(t.q, a) == Of(s.q, a)
    && Virtual(state, t.over, a) == Virtual(state, s.over, a)
  }

  /** The accounts in `done` were promoted, the others left alone. */
  ghost predicate Promoted(s: Tables, t: Tables, done: seq<Address>, r: Rules) {
    && (forall a :: a in done ==> AccountPromoted(s, t, a, r))
    && (forall a :: a !in done ==> AccountSame(s, t, a, r.state))
  }

  lemma PromotedNone(s: Tables, r: Rules)
    ensures Promoted(s, s, [], r)
  {
  }

  lemma PromotedStep(s: Tables, t: Tables, u: Tables, done: seq<Address>, a: Address, r: Rules)
    requires Promoted(s, t, done, r) && Promoted(t, u, [a], r) && a !in done
    ensures Promoted(s, u, done + [a], r)
  {
    hide Promotion;
    assert a in [a] && AccountPromoted(t, u, a, r) && AccountSame(s, t, a, r.state);
    forall b | b in done + [a] ensures AccountPromoted(s, u, b, r) {
      if b != a {
        assert b !in [a] && AccountSame(t, u, b, r.state);
        assert AccountPromoted(s, t, b, r);
      }
    }
    forall b | b !in done + [a] ensures AccountSame(s, u, b, r.state) {
      assert b !in [a] && AccountSame(t, u, b, r.state);
      assert b !in done && AccountSame(s, t, b, r.state);
    }
  }

  lemma NothingToPromote(s: Tables, a: Address, r: Rules)
    requires a !in s.q
    ensures Promoted(s, s, [a], r)
  {
    var payable := Unpayable(r.state.Balance(a), r.maxGas);
    assert Others(AtLeast(Of(s.q, a), r.state.Nonce(a)), payable) == map[];
    assert AccountPromoted(s, s, a, r);
  }

  /** Promotion as a whole keeps an account's pending nonces gap-free. */
  lemma PromotionKeepsRun(
    pm: NonceMap, qm: NonceMap, next: nat, pm': NonceMap, qm': NonceMap, next': nat,
    nonce: nat, payable: Criterion, cap: Option<nat>)
    requires Promotion(pm, qm, next, pm', qm', next', nonce, payable, cap)
    requires nonce <= next && GapFree(pm, nonce, next) && forall n :: n in pm ==> n !in qm
    ensures nonce <= next' && GapFree(pm', nonce, next')
  {
    hide Criterion.Selects, ReadyCut;
    RunAfterPromotion(pm, Others(AtLeast(qm, nonce), payable), nonce, next);
  }

  /** Nothing is lost or invented by a change confined to one account. */
  ghost predicate Elsewhere(v: Lists, v': Lists, a: Address) {
    forall b :: b != a ==> Of(v', b) == Of(v, b)
  }

  /** Cleaning the queue, promoting the ready run and trimming what is left add up
      to the promotion of the account. */
  lemma PromotedInStages(s: Tables, t: Tables, q: Lists, a: Address, r: Rules)
    requires a in s.q
    requires var live := Others(AtLeast(s.q[a], r.state.Nonce(a)), Unpayable(r.state.Balance(a), r.maxGas));
      var cut := ReadyCut(live, Virtual(r.state, s.over, a));
      && q == s.q[a := live][a := AtLeast(live, cut)]
      && (Below(live, cut) == map[] ==> t.p == s.p && t.over == s.over)
      && (Below(live, cut) != map[] ==> t.p == s.p[a := Of(s.p, a) + Below(live, cut)] && t.over == s.over[a := cut])
    requires Capped(Of(t.q, a), Of(q, a), r.QueueLimit(a)) && Elsewhere(q, t.q, a)
    ensures Promoted(s, t, [a], r)
  {
    hide ReadyCut, Criterion.Selects, Lowest, Capped;
    forall b | b !in [a] ensures AccountSame(s, t, b, r.state) {
      assert Of(t.q, b) == Of(q, b);
    }
  }

  lemma QueuedIsKnown(p: Lists, q: Lists, all: map<Hash, Tx>, tx: Tx)
    requires Consistent(p, q, all, {}) && InLists(q, tx)
    ensures tx.Hash() in all && !InLists(p, tx)
  {
    assert InLists(q, tx);
  }

  lemma NothingBelow(txs: seq<Tx>, m: NonceMap)
    requires Keyed(m) && SortedOf(txs, m)
    ensures txs == [] <==> m == map[]
    ensures txs != [] ==> AtLeast(m, txs[0].nonce) == m
  {
    if txs == [] {
      EmptyListing(m);
    } else {
      assert txs[0] in txs;
      forall n | n in m ensures n >= txs[0].nonce {
        assert Has(m, m[n]);
        var j :| 0 <= j < |txs| && txs[j] == m[n];
      }
    }
  }

  /** Removing the lowest transaction of what is left of a list. */
  lemma UnlistLowest(txs: seq<Tx>, m: NonceMap, i: nat)
    requires Keyed(m) && SortedOf(txs, m) && i < |txs|
    ensures Has(AtLeast(m, txs[i].nonce), txs[i])
    ensures AtLeast(m, txs[i].nonce) - {txs[i].nonce} ==
      if i + 1 < |txs| then AtLeast(m, txs[i + 1].nonce) else map[]
    ensures i + 1 < |txs| ==> AtLeast(m, txs[i + 1].nonce) != map[]
  {
    assert txs[i] in txs;
    assert i + 1 < |txs| ==> txs[i + 1] in txs && txs[i + 1].nonce in AtLeast(m, txs[i + 1].nonce);
    forall n | n in m && n > txs[i].nonce ensures i + 1 < |txs| && n >= txs[i + 1].nonce {
      assert Has(m, m[n]);
      var j :| 0 <= j < |txs| && txs[j] == m[n];
    }
  }

  /** The first `i` transactions of a list, as it is sorted. */
  ghost function LowerPart(txs: seq<Tx>, m: NonceMap, i: nat): NonceMap
    requires i <= |txs|
  {
    if i < |txs| then Below(m, txs[i].nonce) else m
  }

  /** Removing the highest transaction of what is left of a list. */
  lemma UnlistHighest(txs: seq<Tx>, m: NonceMap, a: Address, i: nat)
    requires Owned(m, a) && SortedOf(txs, m) && i < |txs|
    ensures txs[i].from == a && Has(LowerPart(txs, m, i + 1), txs[i])
    ensures LowerPart(txs, m, i + 1) - {txs[i].nonce} == LowerPart(txs, m, i)
    ensures i > 0 ==> LowerPart(txs, m, i) != map[]
  {
    assert txs[i] in txs;
    forall n | n in m && n > txs[i].nonce ensures i + 1 < |txs| && n >= txs[i + 1].nonce {
      assert Has(m, m[n]);
      var j :| 0 <= j < |txs| && txs[j] == m[n];
    }
    if i > 0 {
      assert txs[0] in txs && txs[0].nonce in LowerPart(txs, m, i);
    }
  }

  lemma LowerSize(txs: seq<Tx>, m: NonceMap, a: Address, i: nat)
    requires Owned(m, a) && SortedOf(txs, m) && i <= |txs|
    ensures |LowerPart(txs, m, i)| == i && |m| == |txs| && Lowest(LowerPart(txs, m, i), m, i)
  {
    SortedLength(txs, m);
    if i < |txs| {
      SortedCut(txs, m, txs[i].nonce, i);
      SortedLength(txs[..i], Below(m, txs[i].nonce));
    }
  }

  lemma AllLower(txs: seq<Tx>, m: NonceMap, a: Address)
    requires Owned(m, a) && SortedOf(txs, m)
    ensures |m| == |txs| && LowerPart(txs, m, |txs|) == m
  {
    SortedLength(txs, m);
  }

  lemma ListsOwned(p: Lists, q: Lists, all: map<Hash, Tx>)
    requires Consistent(p, q, all, {})
    ensures AllOwned(p) && AllOwned(q)
  {
  }

  /** A pending list counts only if it starts at the state nonce. */
  function Rooted(m: NonceMap, nonce: nat): NonceMap {
    if nonce in m then m else map[]
  }

  lemma FilteredSplit(m: NonceMap, bad: Criterion, drops: seq<Tx>, invalids: seq<Tx>)
    requires Keyed(m) && Enumerates(drops, Matching(m, bad))
    requires forall tx :: tx in invalids <==> Has(m, tx) && !Has(Filtered(true, m, bad), tx) && !bad.Selects(tx)
    ensures SubMap(Filtered(true, m, bad), m)
    ensures forall tx :: tx in drops + invalids <==> Has(m, tx) && !Has(Filtered(true, m, bad), tx)
    ensures forall tx :: tx in drops ==> tx !in invalids
  {
    hide Criterion.Selects;
    if Matching(m, bad) != map[] {
      var least := Least(Matching(m, bad));
      forall n | n in m && bad.Selects(m[n]) ensures n >= least {
        assert n in Matching(m, bad);
      }
    }
    forall tx ensures tx in drops + invalids <==> Has(m, tx) && !Has(Filtered(true, m, bad), tx) {
      assert tx in drops <==> Has(Matching(m, bad), tx);
    }
  }

  lemma LowestNone(r: NonceMap, m: NonceMap)
    requires Lowest(r, m, 0)
    ensures r == map[]
  {
  }

  lemma SplitSets(s: seq<Tx>, t: seq<Tx>)
    requires forall tx :: tx in s ==> tx !in t
    ensures {} + TxSet(s + t) - TxSet(s) == TxSet(t)
  {
  }

  /** What stays pending of a list for a new state: the payable run from the state
      nonce on. */
  ghost function Runnable(m: NonceMap, a: Address, state: ChainState, maxGas: nat): NonceMap {
    Rooted(Filtered(true, AtLeast(m, state.Nonce(a)), Unpayable(state.Balance(a), maxGas)), state.Nonce(a))
  }

  /** A pending transaction that is neither used up nor unpayable. */
  predicate StillGood(p: Lists, tx: Tx, state: ChainState, maxGas: nat) {
    InLists(p, tx) && Fits(tx, state, maxGas)
  }

  /** The accounts in `done` keep exactly what can run; the other pending
      transactions of theirs that are still good are queued, the rest is gone. */
  ghost predicate Demoted(p: Lists, q: Lists, p': Lists, q': Lists, done: set<Address>, state: ChainState,
                          maxGas: nat) {
    && (forall a :: a in done ==> Of(p', a) == Runnable(Of(p, a), a, state, maxGas))
    && (forall a :: a !in done ==> Of(p', a) == Of(p, a))
    && (forall a :: a in done && a in p' ==> p'[a] != map[])
    && (forall a :: a in p' ==> a in p)
    && (forall tx :: InLists(q', tx) <==>
         || InLists(q, tx)
         || (tx.from in done && StillGood(p, tx, state, maxGas) && !InLists(p', tx)))
  }

  /** The stages of demotion: what is used up goes, then what cannot be paid, with what comes
      after it queued, and then a list without its first nonce is queued. */
  lemma DemotedInStages(p: Lists, q: Lists, p2: Lists, q2: Lists, p': Lists, q': Lists,
                        a: Address, state: ChainState, maxGas: nat)
    requires a in p && Owned(p[a], a)
    requires var m1 := AtLeast(p[a], state.Nonce(a));
      var bad := Unpayable(state.Balance(a), maxGas);
      && p2 == p[a := m1][a := Filtered(true, m1, bad)]
      && (forall tx :: InLists(q2, tx) <==> InLists(q, tx) || (Has(m1, tx) && !Has(p2[a], tx) && !bad.Selects(tx)))
    requires p' == Upd(p2[a := Rooted(p2[a], state.Nonce(a))], a, Rooted(p2[a], state.Nonce(a)))
    requires forall tx :: InLists(q', tx) <==> InLists(q2, tx) || (Has(p2[a], tx) && state.Nonce(a) !in p2[a])
    ensures Demoted(p, q, p', q', {a}, state, maxGas)
  {
    hide Filtered, Criterion.Selects, Fits, Has, AtLeast, Rooted;
    var nonce, bad := state.Nonce(a), Unpayable(state.Balance(a), maxGas);
    var m1 := AtLeast(p[a], nonce);
    var m2 := Filtered(true, m1, bad);
    assert p2[a] == m2 && Of(p', a) == Rooted(m2, nonce);
    forall tx ensures InLists(q', tx) <==>
      || InLists(q, tx)
      || (tx.from in {a} && StillGood(p, tx, state, maxGas) && !InLists(p', tx))
    {
      assert InLists(q2, tx) <==> InLists(q, tx) || (Has(m1, tx) && !Has(m2, tx) && !bad.Selects(tx));
      assert InLists(q', tx) <==> InLists(q2, tx) || (Has(m2, tx) && nonce !in m2);
      StagesOfOne(p[a], a, state, maxGas, tx);
      InUpdated(p2[a := Rooted(m2, nonce)], a, Rooted(m2, nonce), tx);
    }
  }

  lemma InUpdated(v: Lists, a: Address, m: NonceMap, t: Tx)
    ensures InLists(Upd(v, a, m), t) <==> if t.from == a then Has(m, t) else InLists(v, t)
  {
  }

  lemma StagesOfOne(m: NonceMap, a: Address, state: ChainState, maxGas: nat, tx: Tx)
    requires Owned(m, a)
    ensures var nonce, bad := state.Nonce(a), Unpayable(state.Balance(a), maxGas);
      var m1 := AtLeast(m, nonce);
      var m2 := Filtered(true, m1, bad);
      (Has(m1, tx) && !Has(m2, tx) && !bad.Selects(tx)) || (Has(m2, tx) && nonce !in m2) <==>
        tx.from == a && Has(m, tx) && Fits(tx, state, maxGas) && !Has(Rooted(m2, nonce), tx)
  {
    hide Filtered, Criterion.Selects, Fits;
    FilteredPayable(AtLeast(m, state.Nonce(a)), Unpayable(state.Balance(a), maxGas));
    PayableFits(a, state, maxGas);
  }

  lemma PayableFits(a: Address, state: ChainState, maxGas: nat)
    ensures forall tx: Tx :: tx.from == a ==>
      (Fits(tx, state, maxGas) <==> tx.nonce >= state.Nonce(a) && !Unpayable(state.Balance(a), maxGas).Selects(tx))
  {
  }

  lemma FilteredPayable(m: NonceMap, bad: Criterion)
    ensures SubMap(Filtered(true, m, bad), m)
    ensures forall n :: n in Filtered(true, m, bad) ==> !bad.Selects(m[n])
  {
    hide Criterion.Selects;
    if Matching(m, bad) != map[] {
      var least := Least(Matching(m, bad));
      forall n | n in m && bad.Selects(m[n]) ensures n >= least {
        assert n in Matching(m, bad);
      }
    }
  }

  lemma DemotedNone(p: Lists, q: Lists, state: ChainState, maxGas: nat)
    ensures Demoted(p, q, p, q, {}, state, maxGas)
  {
  }

  lemma DemotedStep(p: Lists, q: Lists, p1: Lists, q1: Lists, p2: Lists, q2: Lists,
                    done: set<Address>, a: Address, state: ChainState, maxGas: nat)
    requires Demoted(p, q, p1, q1, done, state, maxGas) && Demoted(p1, q1, p2, q2, {a}, state, maxGas) && a !in done
    ensures Demoted(p, q, p2, q2, done + {a}, state, maxGas)
  {
    hide Runnable, Fits;
    assert Of(p1, a) == Of(p, a);
    forall b | b in done ensures Of(p2, b) == Runnable(Of(p, b), b, state, maxGas) {
      assert Of(p2, b) == Of(p1, b);
    }
    forall b | b in done + {a} && b in p2 ensures p2[b] != map[] {
      if b in done {
        assert Of(p2, b) == Of(p1, b);
      }
    }
    forall tx ensures InLists(q2, tx) <==>
      || InLists(q, tx)
      || (tx.from in done + {a} && StillGood(p, tx, state, maxGas) && !InLists(p2, tx))
    {
      DemotedStepTx(p, q, p1, q1, p2, q2, done, a, state, maxGas, tx);
    }
  }

  lemma DemotedStepTx(p: Lists, q: Lists, p1: Lists, q1: Lists, p2: Lists, q2: Lists,
                      done: set<Address>, a: Address, state: ChainState, maxGas: nat, tx: Tx)
    requires Demoted(p, q, p1, q1, done, state, maxGas) && Demoted(p1, q1, p2, q2, {a}, state, maxGas) && a !in done
    ensures InLists(q2, tx) <==>
      || InLists(q, tx)
      || (tx.from in done + {a} && StillGood(p, tx, state, maxGas) && !InLists(p2, tx))
  {
    hide Runnable, Fits;
    assert InLists(q1, tx) <==>
      InLists(q, tx) || (tx.from in done && StillGood(p, tx, state, maxGas) && !InLists(p1, tx));
    assert InLists(q2, tx) <==>
      InLists(q1, tx) || (tx.from in {a} && StillGood(p1, tx, state, maxGas) && !InLists(p2, tx));
    if tx.from == a {
      assert Of(p1, a) == Of(p, a);
    } else {
      assert Of(p2, tx.from) == Of(p1, tx.from);
    }
  }

  /** A gap-free list becomes a gap-free list from the new state nonce on, or
      nothing. */
  lemma RunnableGapFree(m: NonceMap, lo: nat, hi: nat, a: Address, state: ChainState, maxGas: nat)
    requires GapFree(m, lo, hi)
    ensures var r := Runnable(m, a, state, maxGas);
      r == map[] || exists top :: state.Nonce(a) < top && GapFree(r, state.Nonce(a), top)
  {
    hide Criterion.Selects;
    var nonce := state.Nonce(a);
    var bad := Unpayable(state.Balance(a), maxGas);
    var m1 := AtLeast(m, nonce);
    var live := Filtered(true, m1, bad);
    if nonce in live {
      var top := if Matching(m1, bad) != map[] then Least(Matching(m1, bad)) else hi;
      if Matching(m1, bad) != map[] {
        assert live == Below(m1, top);
      } else {
        forall n | n in m1 ensures !bad.Selects(m1[n]) {
          assert n !in Matching(m1, bad);
        }
        assert live == m1;
      }
      assert nonce < top && GapFree(live, nonce, top);
    }
  }

  /** A list's virtual nonce is one past its highest nonce. */
  ghost predicate NonceFollows(p: Lists, over: map<Address, nat>) {
    forall a :: a in p ==> a in over && FollowsOne(p[a], over[a])
  }

  ghost predicate FollowsOne(m: NonceMap, next: nat) {
    next > 0 && next - 1 in m && forall n :: n in m ==> n < next
  }

  /** The virtual nonces follow the lists, and accounts without one keep theirs. */
  ghost predicate Renumbered(p: Lists, state: ChainState, over: map<Address, nat>, over': map<Address, nat>) {
    NonceFollows(p, over') && forall a :: a !in p ==> Virtual(state, over', a) == Virtual(state, over, a)
  }

  lemma LastIsHighest(txs: seq<Tx>, m: NonceMap)
    requires Keyed(m) && SortedOf(txs, m) && m != map[]
    ensures txs != [] && FollowsOne(m, txs[|txs| - 1].nonce + 1)
  {
    NothingBelow(txs, m);
    assert txs[|txs| - 1] in txs;
    forall n | n in m ensures n <= txs[|txs| - 1].nonce {
      assert Has(m, m[n]);
      var j :| 0 <= j < |txs| && txs[j] == m[n];
    }
  }

  /** After a reset without reinjected transactions, every account has a gap-free
      run from its new state nonce up to its new virtual nonce. */
  lemma RunsAfterReset(p: Lists, q: Lists, old_: ChainState, over: map<Address, nat>,
                       p': Lists, q': Lists, state: ChainState, maxGas: nat, over': map<Address, nat>)
    requires Runs(p, old_, over) && Demoted(p, q, p', q', p.Keys, state, maxGas)
    requires Renumbered(p', state, map[], over')
    ensures Runs(p', state, over')
  {
    hide Runnable;
    forall a ensures Run(p', state, over', a) {
      assert Run(p, old_, over, a);
      RunnableGapFree(Of(p, a), old_.Nonce(a), Virtual(old_, over, a), a, state, maxGas);
      if a in p' {
        assert a in p.Keys && p'[a] == Runnable(p[a], a, state, maxGas) && p'[a] != map[];
        var top :| state.Nonce(a) < top && GapFree(p'[a], state.Nonce(a), top);
        assert top - 1 in p'[a] && over'[a] - 1 in p'[a];
      }
    }
  }

  /** A list that is empty or runs gap-free from a nonce on. */
  ghost predicate Starts(m: NonceMap, nonce: nat) {
    m == map[] || exists top :: nonce < top && GapFree(m, nonce, top)
  }

  /** Some transaction from `lo` up to `n` cannot be paid. */
  ghost predicate CutBy(m: NonceMap, bad: Criterion, lo: nat, n: nat) {
    exists u :: u in m && lo <= u <= n && bad.Selects(m[u])
  }

  /** What stays pending is what comes before the first unpayable transaction, if the
      state nonce is among it. */
  lemma RunnableMeans(m: NonceMap, a: Address, state: ChainState, maxGas: nat, n: nat)
    ensures var nonce, bad := state.Nonce(a), Unpayable(state.Balance(a), maxGas);
      n in Runnable(m, a, state, maxGas) <==>
        n in m && nonce <= n && !CutBy(m, bad, nonce, n) && nonce in m && !bad.Selects(m[nonce])
  {
    hide Criterion.Selects, Filtered, CutBy;
    var nonce, bad := state.Nonce(a), Unpayable(state.Balance(a), maxGas);
    LiveMeans(m, bad, nonce, n);
    LiveMeans(m, bad, nonce, nonce);
    if nonce in m {
      CutAtFirst(m, bad, nonce);
    }
  }

  lemma CutAtFirst(m: NonceMap, bad: Criterion, nonce: nat)
    requires nonce in m
    ensures CutBy(m, bad, nonce, nonce) <==> bad.Selects(m[nonce])
  {
  }

  lemma LiveMeans(m: NonceMap, bad: Criterion, nonce: nat, k: nat)
    ensures k in Filtered(true, AtLeast(m, nonce), bad) <==> k in m && nonce <= k && !CutBy(m, bad, nonce, k)
  {
    hide Criterion.Selects;
    var m1 := AtLeast(m, nonce);
    var found := Matching(m1, bad);
    if found != map[] {
      var u := Least(found);
      assert u in m1 && bad.Selects(m1[u]);
    }
    if CutBy(m, bad, nonce, k) {
      var v :| v in m && nonce <= v <= k && bad.Selects(m[v]);
      assert v in found;
    }
  }

  /** For any list, also one with gaps, demotion leaves a gap-free list from the state nonce
      on, or nothing, exactly when everything beyond the first gap comes after something
      unpayable. */
  lemma DemotionIsGapFree(m: NonceMap, a: Address, state: ChainState, maxGas: nat)
    ensures var nonce, bad := state.Nonce(a), Unpayable(state.Balance(a), maxGas);
      Starts(Runnable(m, a, state, maxGas), nonce) <==>
        (nonce in m ==> forall n :: n in m && n > RunEnd(m, nonce) ==> CutBy(m, bad, nonce, n))
  {
    hide Runnable, Criterion.Selects;
    var nonce, bad := state.Nonce(a), Unpayable(state.Balance(a), maxGas);
    var r, end := Runnable(m, a, state, maxGas), RunEnd(m, nonce);
    forall n: nat ensures n in r <==>
      n in m && nonce <= n && !CutBy(m, bad, nonce, n) && nonce in m && !bad.Selects(m[nonce]) {
      RunnableMeans(m, a, state, maxGas, n);
    }
    if Starts(r, nonce) {
      NoGapBeyond(m, r, nonce, end, bad);
    }
    if nonce in m ==> forall n :: n in m && n > end ==> CutBy(m, bad, nonce, n) {
      RunsWhenCut(m, r, nonce, end, bad);
    }
  }

  lemma RunsWhenCut(m: NonceMap, r: NonceMap, nonce: nat, end: nat, bad: Criterion)
    requires forall n: nat :: n in r <==>
      n in m && nonce <= n && !CutBy(m, bad, nonce, n) && nonce in m && !bad.Selects(m[nonce])
    requires end == RunEnd(m, nonce) && (nonce in m ==> forall n :: n in m && n > end ==> CutBy(m, bad, nonce, n))
    ensures Starts(r, nonce)
  {
    hide Criterion.Selects, RunEnd, CutBy;
    var top := RunEnd(r, nonce);
    forall n | n in r ensures n < top {
      EndsAtGap(m, r, nonce, end, bad, n);
    }
    assert GapFree(r, nonce, top);
    if top == nonce {
      assert r == map[];
    }
  }

  lemma EndsAtGap(m: NonceMap, r: NonceMap, nonce: nat, end: nat, bad: Criterion, n: nat)
    requires forall k: nat :: k in r <==>
      k in m && nonce <= k && !CutBy(m, bad, nonce, k) && nonce in m && !bad.Selects(m[nonce])
    requires end == RunEnd(m, nonce) && (nonce in m ==> forall k :: k in m && k > end ==> CutBy(m, bad, nonce, k))
    requires n in r
    ensures n < RunEnd(r, nonce)
  {
    hide Criterion.Selects, RunEnd, CutBy;
    var top := RunEnd(r, nonce);
    if top <= n {
      CutByUp(m, bad, nonce, top, n);
    }
  }

  lemma CutByUp(m: NonceMap, bad: Criterion, lo: nat, k: nat, n: nat)
    requires k <= n
    ensures CutBy(m, bad, lo, k) ==> CutBy(m, bad, lo, n)
  {
  }

  lemma NoGapBeyond(m: NonceMap, r: NonceMap, nonce: nat, end: nat, bad: Criterion)
    requires Starts(r, nonce) && end == RunEnd(m, nonce)
    requires forall n: nat :: n in r <==>
      n in m && nonce <= n && !CutBy(m, bad, nonce, n) && nonce in m && !bad.Selects(m[nonce])
    ensures nonce in m ==> forall n :: n in m && n > end ==> CutBy(m, bad, nonce, n)
  {
    hide Criterion.Selects;
    if nonce in m {
      forall n | n in m && n > end ensures CutBy(m, bad, nonce, n) {
        if bad.Selects(m[nonce]) {
          assert nonce in m && nonce <= nonce <= n;
        } else if r != map[] {
          var top :| nonce < top && GapFree(r, nonce, top);
          assert end !in r;
        } else {
          assert nonce !in r;
        }
      }
    }
  }

  /** From the state nonce on, the list runs gap-free up to some nonce that the virtual nonce
      does not exceed; if the virtual nonce is beyond the state nonce, that run is payable, and
      if it is below, the run is empty. */
  ghost predicate TailTo(m: NonceMap, nonce: nat, next: nat, bad: Criterion, top: nat) {
    && nonce <= top && next <= top && GapFree(AtLeast(m, nonce), nonce, top)
    && (next < nonce ==> top == nonce)
    && (next > nonce ==> forall k :: k in m && k >= nonce ==> !bad.Selects(m[k]))
  }

  ghost predicate Tail(m: NonceMap, nonce: nat, next: nat, bad: Criterion) {
    exists top :: TailTo(m, nonce, next, bad, top)
  }

  /** What the pending lists keep while a reset reinjects transactions: they may hold nonces
      that are used up, but no gap above the state nonce. */
  ghost predicate Tails(p: Lists, state: ChainState, over: map<Address, nat>, maxGas: nat) {
    forall a :: AccountTail(p, state, over, maxGas, a)
  }

  ghost predicate AccountTail(p: Lists, state: ChainState, over: map<Address, nat>, maxGas: nat, a: Address) {
    Tail(Of(p, a), state.Nonce(a), Virtual(state, over, a), Unpayable(state.Balance(a), maxGas))
  }

  lemma TailPlus(m: NonceMap, nonce: nat, next: nat, bad: Criterion, tx: Tx)
    requires Tail(m, nonce, next, bad) && tx.nonce in m && !bad.Selects(tx)
    ensures Tail(Plus(m, tx), nonce, next, bad)
  {
    hide Criterion.Selects;
    var top: nat :| TailTo(m, nonce, next, bad, top);
    assert AtLeast(Plus(m, tx), nonce).Keys == AtLeast(m, nonce).Keys;
    assert TailTo(Plus(m, tx), nonce, next, bad, top);
  }

  lemma TailPromotion(pm: NonceMap, qm: NonceMap, next: nat, pm': NonceMap, qm': NonceMap, next': nat,
                      nonce: nat, bad: Criterion, cap: Option<nat>)
    requires Promotion(pm, qm, next, pm', qm', next', nonce, bad, cap)
    requires Tail(pm, nonce, next, bad) && forall n :: n in pm ==> n !in qm
    ensures Tail(pm', nonce, next', bad)
  {
    hide Criterion.Selects, ReadyCut, Tail;
    TailReady(pm, Others(AtLeast(qm, nonce), bad), nonce, next, bad);
  }

  lemma TailReady(pm: NonceMap, live: NonceMap, nonce: nat, next: nat, bad: Criterion)
    requires Tail(pm, nonce, next, bad)
    requires forall n :: n in live ==> n >= nonce && n !in pm && !bad.Selects(live[n])
    ensures var cut := ReadyCut(live, next);
      Tail(pm + Below(live, cut), nonce, if Below(live, cut) == map[] then next else cut, bad)
  {
    hide Criterion.Selects, ReadyCut;
    var top: nat :| TailTo(pm, nonce, next, bad, top);
    var cut := ReadyCut(live, next);
    ReadyRun(live, next);
    if Below(live, cut) == map[] {
      assert pm + Below(live, cut) == pm;
    } else {
      assert top == Least(live) by {
        assert Least(live) !in AtLeast(pm, nonce);
      }
      TailGrows(pm, nonce, top, Below(live, cut), cut);
      forall k | k in pm && k >= nonce ensures !bad.Selects(pm[k]) {
        assert k in AtLeast(pm, nonce);
      }
      assert TailTo(pm + Below(live, cut), nonce, cut, bad, cut);
    }
  }

  lemma TailGrows(pm: NonceMap, nonce: nat, top: nat, ready: NonceMap, cut: nat)
    requires nonce <= top <= cut && GapFree(AtLeast(pm, nonce), nonce, top) && GapFree(ready, top, cut)
    ensures GapFree(AtLeast(pm + ready, nonce), nonce, cut)
  {
    forall n: nat ensures n in AtLeast(pm + ready, nonce) <==> nonce <= n < cut {
      assert n in AtLeast(pm, nonce) <==> nonce <= n < top;
      assert n in ready <==> top <= n < cut;
    }
  }

  /** What is ready is a run from the lowest nonce. */
  lemma ReadyRun(m: NonceMap, start: nat)
    ensures var cut := ReadyCut(m, start);
      if m == map[] || Least(m) > start then Below(m, cut) == map[]
      else Least(m) in m && Least(m) < cut && forall n: nat :: n in Below(m, cut) <==> Least(m) <= n < cut
  {
  }

  lemma TailsAfterReplacement(p: Lists, tx: Tx, state: ChainState, over: map<Address, nat>, maxGas: nat)
    requires Tails(p, state, over, maxGas) && tx.nonce in Of(p, tx.from) && Fits(tx, state, maxGas)
    ensures Tails(p[tx.from := Plus(Of(p, tx.from), tx)], state, over, maxGas)
  {
    hide Tail;
    var p' := p[tx.from := Plus(Of(p, tx.from), tx)];
    forall a ensures AccountTail(p', state, over, maxGas, a) {
      assert AccountTail(p, state, over, maxGas, a);
      if a == tx.from {
        TailPlus(Of(p, a), state.Nonce(a), Virtual(state, over, a), Unpayable(state.Balance(a), maxGas), tx);
      }
    }
  }

  lemma TailsAfterPromotion(s: Tables, t: Tables, all: map<Hash, Tx>, done: seq<Address>, r: Rules)
    requires Tails(s.p, r.state, s.over, r.maxGas) && Consistent(s.p, s.q, all, {}) && Promoted(s, t, done, r)
    ensures Tails(t.p, r.state, t.over, r.maxGas)
  {
    hide Promotion, Consistent, Tail;
    forall a ensures AccountTail(t.p, r.state, t.over, r.maxGas, a) {
      assert AccountTail(s.p, r.state, s.over, r.maxGas, a);
      if a in done {
        AccountOwned(s.p, s.q, all, {}, a);
        assert AccountPromoted(s, t, a, r);
        TailPromotion(Of(s.p, a), Of(s.q, a), Virtual(r.state, s.over, a), Of(t.p, a), Of(t.q, a),
                      Virtual(r.state, t.over, a), r.state.Nonce(a), Unpayable(r.state.Balance(a), r.maxGas),
                        r.QueueLimit(a));
      } else {
        assert AccountSame(s, t, a, r.state);
      }
    }
  }

  /** Cutting lists keeps them free of gaps above the state nonce. */
  lemma TailsAfterCut(p: Lists, p': Lists, state: ChainState, over: map<Address, nat>, over': map<Address, nat>,
                      maxGas: nat)
    requires Tails(p, state, over, maxGas) && Cut(p, p', state, over, over')
    ensures Tails(p', state, over', maxGas)
  {
    hide Tail, AccountCut;
    forall a ensures AccountTail(p', state, over', maxGas, a) {
      assert AccountTail(p, state, over, maxGas, a);
      assert AccountCut(Of(p, a), Of(p', a), Virtual(state, over, a), Virtual(state, over', a));
      TailAfterCut(Of(p, a), Of(p', a), Virtual(state, over, a), Virtual(state, over', a),
                   state.Nonce(a), Unpayable(state.Balance(a), maxGas));
    }
  }

  lemma TailAfterCut(m: NonceMap, m': NonceMap, next: nat, next': nat, nonce: nat, bad: Criterion)
    requires Tail(m, nonce, next, bad) && AccountCut(m, m', next, next')
    ensures Tail(m', nonce, next', bad)
  {
    hide Criterion.Selects, RunEnd;
    var top: nat :| TailTo(m, nonce, next, bad, top);
    var top' := RunEnd(m', nonce);
    assert forall n: nat :: n in AtLeast(m, nonce) <==> n in m && n >= nonce;
    forall n: nat ensures n in AtLeast(m', nonce) <==> nonce <= n < top' {
      assert n in AtLeast(m', nonce) ==> n in AtLeast(m, nonce);
    }
    assert next' <= top' && (next' < nonce ==> top' == nonce) by {
      assert top' in AtLeast(m, nonce) <==> top' < top;
      assert nonce in AtLeast(m, nonce) <==> nonce < top;
    }
    assert TailTo(m', nonce, next', bad, top');
  }

  /** Every list is empty or runs gap-free from the state nonce on. */
  ghost predicate AllStart(p: Lists, state: ChainState) {
    forall a :: Starts(Of(p, a), state.Nonce(a))
  }

  /** No account with pending transactions has its nonce set back. */
  ghost predicate NotSetBack(p: Lists, before: ChainState, state: ChainState) {
    forall a :: a in p && p[a] != map[] ==> before.Nonce(a) <= state.Nonce(a)
  }

  lemma TailsNone(state: ChainState, maxGas: nat)
    ensures Tails(map[], state, map[], maxGas)
  {
    forall a ensures AccountTail(map[], state, map[], maxGas, a) {
      assert TailTo(map[], state.Nonce(a), state.Nonce(a), Unpayable(state.Balance(a), maxGas), state.Nonce(a));
    }
  }

  /** At the start of a reset. */
  lemma TailsAtReset(p: Lists, before: ChainState, state: ChainState, maxGas: nat)
    requires AllStart(p, before) && NotSetBack(p, before, state)
    ensures Tails(p, state, map[], maxGas)
  {
    forall a ensures AccountTail(p, state, map[], maxGas, a) {
      var m, nonce := Of(p, a), state.Nonce(a);
      assert Starts(m, before.Nonce(a));
      var top: nat := if m == map[] then nonce else
        var hi: nat :| before.Nonce(a) < hi && GapFree(m, before.Nonce(a), hi); if hi < nonce then nonce else hi;
      assert TailTo(m, nonce, nonce, Unpayable(state.Balance(a), maxGas), top);
    }
  }

  /** After demotion and with the virtual nonces assigned. */
  lemma TailsAfterDemotion(p: Lists, q: Lists, over: map<Address, nat>, p': Lists, q': Lists, state: ChainState,
                           maxGas: nat, over': map<Address, nat>)
    requires Tails(p, state, over, maxGas) && Demoted(p, q, p', q', p.Keys, state, maxGas)
      && Renumbered(p', state, over, over')
    ensures Tails(p', state, over', maxGas)
  {
    hide Runnable, Criterion.Selects;
    forall a ensures AccountTail(p', state, over', maxGas, a) {
      assert AccountTail(p, state, over, maxGas, a);
      var nonce, bad := state.Nonce(a), Unpayable(state.Balance(a), maxGas);
      TailOfRunnable(Of(p, a), a, state, maxGas, Virtual(state, over, a));
      RunnableIsPart(Of(p, a), a, state, maxGas);
      assert Of(p', a) == Runnable(Of(p, a), a, state, maxGas);
      if a in p' {
        assert FollowsOne(p'[a], over'[a]) && p'[a] != map[];
        var top: nat :| nonce < top && GapFree(p'[a], nonce, top);
        assert top - 1 in p'[a] && over'[a] - 1 in p'[a];
        assert TailTo(p'[a], nonce, over'[a], bad, top);
      } else {
        assert TailTo(map[], nonce, Virtual(state, over', a), bad, nonce);
      }
    }
  }

  /** Demotion of a list without gaps above the state nonce: it is empty only if the virtual
      nonce is not beyond the state nonce, and all of it is payable. */
  lemma TailOfRunnable(m: NonceMap, a: Address, state: ChainState, maxGas: nat, next: nat)
    requires Tail(m, state.Nonce(a), next, Unpayable(state.Balance(a), maxGas))
    ensures var r, nonce := Runnable(m, a, state, maxGas), state.Nonce(a);
      && (r == map[] ==> next <= nonce) && (next < nonce ==> r == map[])
      && (r != map[] ==> exists top :: nonce < top && GapFree(r, nonce, top))
      && forall k :: k in r ==> !Unpayable(state.Balance(a), maxGas).Selects(r[k])
  {
    hide Criterion.Selects, Runnable;
    var nonce, bad := state.Nonce(a), Unpayable(state.Balance(a), maxGas);
    var top: nat :| TailTo(m, nonce, next, bad, top);
    var r := Runnable(m, a, state, maxGas);
    RunnableIsPart(m, a, state, maxGas);
    assert Starts(r, nonce) by {
      assert forall n: nat :: n in AtLeast(m, nonce) <==> n in m && n >= nonce;
      RunEndUnique(m, nonce, top);
      DemotionIsGapFree(m, a, state, maxGas);
    }
    if next > nonce {
      assert nonce in AtLeast(m, nonce);
      assert !CutBy(m, bad, nonce, nonce);
      RunnableMeans(m, a, state, maxGas, nonce);
    }
    assert nonce in r ==> nonce in AtLeast(m, nonce);
  }

  lemma RunnableIsPart(m: NonceMap, a: Address, state: ChainState, maxGas: nat)
    ensures var r := Runnable(m, a, state, maxGas);
      forall k :: k in r ==> k in m && r[k] == m[k] && !Unpayable(state.Balance(a), maxGas).Selects(r[k])
  {
    hide Criterion.Selects;
    var r, bad := Runnable(m, a, state, maxGas), Unpayable(state.Balance(a), maxGas);
    forall k | k in r ensures k in m && r[k] == m[k] && !bad.Selects(r[k]) {
      RunnableMeans(m, a, state, maxGas, k);
      assert bad.Selects(m[k]) ==> CutBy(m, bad, state.Nonce(a), k);
    }
  }

  /** Lists without gaps above the state nonce and nothing used up are gap-free from there. */
  lemma TailsStart(p: Lists, state: ChainState, over: map<Address, nat>, maxGas: nat, a: Address)
    requires Tails(p, state, over, maxGas) && forall n :: n in Of(p, a) ==> n >= state.Nonce(a)
    ensures Starts(Of(p, a), state.Nonce(a))
  {
    assert AccountTail(p, state, over, maxGas, a);
    var m, nonce := Of(p, a), state.Nonce(a);
    var top: nat :| TailTo(m, nonce, Virtual(state, over, a), Unpayable(state.Balance(a), maxGas), top);
    assert AtLeast(m, nonce) == m;
    if top == nonce {
      assert m == map[];
    }
  }

  lemma TailsStartAll(p: Lists, q: Lists, all: map<Hash, Tx>, state: ChainState, over: map<Address, nat>, maxGas: nat)
    requires Tails(p, state, over, maxGas) && Consistent(p, q, all, {}) && AllFit(all, state, maxGas)
    ensures AllStart(p, state)
  {
    hide Tails, Starts;
    forall a ensures Starts(Of(p, a), state.Nonce(a)) {
      AccountOwned(p, q, all, {}, a);
      forall n | n in Of(p, a) ensures n >= state.Nonce(a) {
        assert InLists(p, Of(p, a)[n]);
        assert Of(p, a)[n].Hash() in all;
      }
      TailsStart(p, state, over, maxGas, a);
    }
  }

  /** How a gap arises: the nonce of an account with a pending run is set back by two or more,
      and of what is taken off the chain only the first transaction gets in again. It is
      promoted in front of the run, and demotion leaves the list as it is. */
  lemma ReinjectionLeavesGap(m: NonceMap, lo: nat, hi: nat, first: Tx, a: Address, state: ChainState, maxGas: nat,
                             pm: NonceMap, qm: NonceMap, next: nat, cap: Option<nat>)
    requires first.nonce == state.Nonce(a) && first.nonce + 1 < lo < hi && GapFree(m, lo, hi)
    requires forall n :: n in Plus(m, first) ==> !Unpayable(state.Balance(a), maxGas).Selects(Plus(m, first)[n])
    requires Promotion(m, map[first.nonce := first], first.nonce, pm, qm, next,
                       state.Nonce(a), Unpayable(state.Balance(a), maxGas), cap)
    ensures pm == Plus(m, first) && Runnable(pm, a, state, maxGas) == pm && !Starts(pm, state.Nonce(a))
  {
    hide Criterion.Selects, ReadyCut, Runnable, Starts, Capped;
    var n, bad := first.nonce, Unpayable(state.Balance(a), maxGas);
    assert !bad.Selects(first) by { assert n in Plus(m, first); }
    OneIsReady(first, bad);
    assert pm == Plus(m, first);
    AllRunnable(pm, a, state, maxGas);
    assert lo in pm && n + 1 !in pm;
    NoStartBeforeGap(pm, n, n + 1, lo);
  }

  lemma OneIsReady(first: Tx, bad: Criterion)
    requires !bad.Selects(first)
    ensures var live := Others(AtLeast(map[first.nonce := first], first.nonce), bad);
      live == map[first.nonce := first] == Below(live, ReadyCut(live, first.nonce))
  {
    hide Criterion.Selects;
    var live := Others(AtLeast(map[first.nonce := first], first.nonce), bad);
    assert live == map[first.nonce := first];
    assert first.nonce in live && Least(live) == first.nonce;
    RunEndUnique(live, first.nonce, first.nonce + 1);
  }

  lemma AllRunnable(m: NonceMap, a: Address, state: ChainState, maxGas: nat)
    requires state.Nonce(a) in m && forall n :: n in m ==>
      n >= state.Nonce(a) && !Unpayable(state.Balance(a), maxGas).Selects(m[n])
    ensures Runnable(m, a, state, maxGas) == m
  {
    hide Criterion.Selects, Filtered;
    var bad := Unpayable(state.Balance(a), maxGas);
    assert AtLeast(m, state.Nonce(a)) == m && Matching(m, bad) == map[];
    FilteredNone(m, bad);
  }

  lemma NoStartBeforeGap(m: NonceMap, nonce: nat, gap: nat, n: nat)
    requires nonce <= gap < n && gap !in m && n in m
    ensures !Starts(m, nonce)
  {
  }

  lemma FilteredNone(m: NonceMap, bad: Criterion)
    requires Matching(m, bad) == map[]
    ensures Filtered(true, m, bad) == m
  {
    hide Criterion.Selects;
    forall n | n in m ensures !bad.Selects(m[n]) {
      assert n !in Matching(m, bad);
    }
  }
}
