/** Sizes of lists and the fair truncation of the pending lists. */
module PoolFairness {
  import opened Options
  import opened Transactions
  import opened TxLists
  import opened ListTables
  import opened PoolState

  /** How many transactions an account may keep at a given level. */
  function LevelOf(locals: set<Address>, level: nat, a: Address): Option<nat> {
    if a in locals then None else Some(level)
  }

  /** Every account that is not local is cut down to its `level` lowest nonces. */
  ghost predicate AtLevel(v: Lists, orig: Lists, level: nat, locals: set<Address>) {
    && (forall a :: a in v <==> a in orig)
    && (forall a :: a in orig ==> Capped(v[a], orig[a], LevelOf(locals, level, a)))
  }

  ghost function SizesAt(orig: Lists, level: nat, locals: set<Address>): map<Address, nat> {
    map a | a in orig :: if a in locals || |orig[a]| <= level then |orig[a]| else level
  }

  /** The total when every account that is not local is cut down to `level`. */
  ghost function TotalAt(orig: Lists, level: nat, locals: set<Address>): nat {
    Sum(SizesAt(orig, level, locals))
  }

  lemma AtLevelTotal(v: Lists, orig: Lists, level: nat, locals: set<Address>)
    requires AtLevel(v, orig, level, locals)
    ensures Total(v) == TotalAt(orig, level, locals)
  {
    hide Lowest, Sum;
    var f, g := Sizes(v), SizesAt(orig, level, locals);
    forall a | a in orig ensures f[a] == g[a] {
      assert Capped(v[a], orig[a], LevelOf(locals, level, a));
      CappedSize(v[a], orig[a], LevelOf(locals, level, a));
    }
    assert f == g;
  }

  lemma CappedSize(r: NonceMap, m: NonceMap, cap: Option<nat>)
    requires Capped(r, m, cap)
    ensures |r| == if cap.Some? && |m| > cap.value then cap.value else |m|
  {
  }

  /** Max-min fairness: all accounts that are not local are cut at one level, which
      is not below the guaranteed slots; the level is low enough unless it is the
      guaranteed one, and no lower than needed. */
  ghost predicate Fair(v: Lists, orig: Lists, locals: set<Address>, accountSlots: nat, globalSlots: nat) {
    exists level ::
      && accountSlots <= level
      && AtLevel(v, orig, level, locals)
      && (Total(v) <= globalSlots || level == accountSlots)
      && (v != orig ==> TotalAt(orig, level + 1, locals) > globalSlots)
  }

  /** Cutting twice is cutting once. */
  lemma LowestTwice(r: NonceMap, v: NonceMap, m: NonceMap, j: nat, k: nat)
    requires Lowest(v, m, j) && Lowest(r, v, k) && k <= j
    ensures Lowest(r, m, k)
  {
    if |m| > k && |m| > j {
      var cut: nat :| v == Below(m, cut);
      if |v| > k {
        var c: nat :| r == Below(v, c);
        assert r == Below(m, if c < cut then c else cut);
      }
    }
  }

  /** Everyone fits under a level that is high enough. */
  lemma HighLevel(orig: Lists, locals: set<Address>, least: nat) returns (level: nat)
    ensures least <= level && AtLevel(orig, orig, level, locals)
    ensures forall a :: a in orig ==> |orig[a]| <= level
  {
    level := least;
    var rest := orig.Keys;
    while rest != {}
      invariant rest <= orig.Keys && least <= level
      invariant forall a :: a in orig && a !in rest ==> |orig[a]| <= level
      decreases |rest|
    {
      var a :| a in rest;
      if |orig[a]| > level {
        level := |orig[a]|;
      }
      rest := rest - {a};
    }
  }

  /** Keeping all but one transaction of a list drops its highest nonce. */
  lemma OneDropped(m: NonceMap, kept: NonceMap, drops: seq<Tx>)
    requires Keyed(m) && |m| > 0 && Lowest(kept, m, |m| - 1) && Split(m, kept, drops)
    ensures |drops| == 1 && Has(m, drops[0]) && kept == m - {drops[0].nonce}
    ensures IsHighest(m, drops[0].nonce)
  {
    assert |drops| >= 2 ==> drops[0] != drops[1];
    var n := OneGone(m, kept);
    assert m[n] in drops by { assert Has(m, m[n]) && !Has(kept, m[n]); }
    forall tx | tx in drops ensures tx == m[n] {
      assert Has(m, tx) && !Has(kept, tx);
    }
    assert drops[0] in drops;
    forall i | 0 <= i < |drops| ensures drops[i] == m[n] {
      assert drops[i] in drops;
    }
  }

  lemma OneGone(m: NonceMap, kept: NonceMap) returns (n: nat)
    requires |m| > 0 && Lowest(kept, m, |m| - 1)
    ensures n in m && kept == m - {n} && IsHighest(m, n)
  {
    var cut: nat :| kept == Below(m, cut);
    var gone := m.Keys - kept.Keys;
    assert m.Keys == kept.Keys + gone;
    n :| n in gone;
    SingletonSet(gone, n);
    assert forall k :: k in m && k !in kept ==> k in gone;
  }

  lemma SingletonSet<T>(s: set<T>, x: T)
    requires |s| == 1 && x in s
    ensures s == {x}
  {
    assert |s - {x}| == 0;
  }

  ghost predicate IsHighest(m: NonceMap, n: nat) {
    n in m && forall k :: k in m ==> k <= n
  }

  /** Giving up the highest nonce of a list. */
  lemma CutByShave(p: Lists, state: ChainState, over: map<Address, nat>, a: Address, n: nat)
    requires a in p && IsHighest(p[a], n)
    ensures Cut(p, p[a := p[a] - {n}], state, over, if Virtual(state, over, a) > n then over[a := n] else over)
  {
  }

  /** A list loses its highest nonce, and the virtual nonce follows. */
  ghost predicate Shaved(m: NonceMap, m': NonceMap, a: Address, state: ChainState, over: map<Address, nat>,
                         over': map<Address, nat>) {
    exists n ::
      && IsHighest(m, n) && m' == m - {n}
      && Lowest(m', m, |m| - 1)
      && over' == (if Virtual(state, over, a) > n then over[a := n] else over)
  }

  /** In the middle of lowering the level by one: `done` have been cut already. */
  ghost predicate Lowering(v: Lists, orig: Lists, level: nat, locals: set<Address>, done: seq<Address>) {
    && level > 0
    && (forall a :: a in v <==> a in orig)
    && (forall a :: a in orig ==>
         Capped(v[a], orig[a], LevelOf(locals, if a in done then level - 1 else level, a)))
  }

  /** The accounts to cut when the level is lowered: not local, and at the level. */
  ghost predicate AllAt(offs: seq<Address>, orig: Lists, level: nat, locals: set<Address>) {
    && (forall i, j :: 0 <= i < j < |offs| ==> offs[i] != offs[j])
    && (forall a :: a in offs <==> a in orig && a !in locals && |orig[a]| >= level)
  }

  lemma NextAt(offs: seq<Address>, i: nat, orig: Lists, level: nat, locals: set<Address>)
    requires AllAt(offs, orig, level, locals) && i < |offs|
    ensures offs[i] in orig && offs[i] !in locals && |orig[offs[i]]| >= level
    ensures offs[i] !in offs[..i] && offs[..i + 1] == offs[..i] + [offs[i]]
  {
    assert offs[i] in offs;
  }

  lemma LoweringStart(v: Lists, orig: Lists, level: nat, locals: set<Address>)
    requires AtLevel(v, orig, level, locals) && level > 0
    ensures Lowering(v, orig, level, locals, [])
  {
  }

  lemma LoweringSize(v: Lists, orig: Lists, level: nat, locals: set<Address>, done: seq<Address>, a: Address)
    requires Lowering(v, orig, level, locals, done)
    requires a in orig && a !in locals && |orig[a]| >= level && a !in done
    ensures a in v && |v[a]| == level
  {
    assert Capped(v[a], orig[a], LevelOf(locals, level, a));
  }

  lemma LoweringStep(v: Lists, orig: Lists, level: nat, locals: set<Address>, done: seq<Address>, a: Address,
                     m: NonceMap)
    requires Lowering(v, orig, level, locals, done)
    requires a in orig && a !in locals && |orig[a]| >= level && a !in done
    requires a in v && Lowest(m, v[a], |v[a]| - 1) && |v[a]| == level
    ensures Lowering(v[a := m], orig, level, locals, done + [a])
    ensures |m| == |v[a]| - 1 && Total(v[a := m]) == Total(v) - 1
  {
    hide Total, Lowest;
    assert Capped(v[a], orig[a], LevelOf(locals, level, a));
    LowestTwice(m, v[a], orig[a], level, level - 1);
    CappedSize(m, v[a], Some(|v[a]| - 1));
    TotalUpdate(v, a, m);
    var v' := v[a := m];
    forall b | b in orig
      ensures Capped(v'[b], orig[b], LevelOf(locals, if b in done + [a] then level - 1 else level, b))
    {
      assert Capped(v[b], orig[b], LevelOf(locals, if b in done then level - 1 else level, b));
      assert b in done + [a] <==> b in done || b == a;
    }
  }

  lemma LoweringEnd(v: Lists, orig: Lists, level: nat, locals: set<Address>, offs: seq<Address>)
    requires Lowering(v, orig, level, locals, offs) && AllAt(offs, orig, level, locals)
    ensures AtLevel(v, orig, level - 1, locals)
  {
    forall a | a in orig ensures Capped(v[a], orig[a], LevelOf(locals, level - 1, a)) {
      assert Capped(v[a], orig[a], LevelOf(locals, if a in offs then level - 1 else level, a));
    }
  }

  /** The accounts above the threshold are exactly `offs`, and at the level. */
  ghost predicate Offending(offs: seq<Address>, orig: Lists, threshold: nat, level: nat, locals: set<Address>) {
    && threshold <= level
    && (forall i, j :: 0 <= i < j < |offs| ==> offs[i] != offs[j])
    && (forall a :: a in offs ==> a in orig && a !in locals && |orig[a]| >= level)
    && (forall a :: a in orig && a !in locals && a !in offs ==> |orig[a]| <= threshold)
  }

  lemma OffendingAllAt(offs: seq<Address>, orig: Lists, threshold: nat, level: nat, locals: set<Address>)
    requires Offending(offs, orig, threshold, level, locals) && threshold < level
    ensures AllAt(offs, orig, level, locals)
    ensures Offending(offs, orig, threshold, level - 1, locals)
  {
  }

  lemma AtLeastThreshold(offs: seq<Address>, orig: Lists, threshold: nat, level: nat, locals: set<Address>)
    requires Offending(offs, orig, threshold, level, locals)
    ensures threshold <= level
  {
  }

  lemma OffenderSize(v: Lists, orig: Lists, threshold: nat, level: nat, locals: set<Address>, offs: seq<Address>)
    requires AtLevel(v, orig, level, locals) && Offending(offs, orig, threshold, level, locals) && offs != []
    ensures offs[|offs| - 1] in v && |v[offs[|offs| - 1]]| == level
  {
    var a := offs[|offs| - 1];
    assert a in offs;
    assert Capped(v[a], orig[a], LevelOf(locals, level, a));
  }

  /** Where truncation stands: `offs` are the offenders taken from the queue of
      spammers so far, largest first, and `spammers` those still in it. */
  ghost predicate Ranked(offs: seq<Address>, spammers: set<Address>, orig: Lists, level: nat,
                         locals: set<Address>, slots: nat)
  {
    && slots <= level
    && (forall i, j :: 0 <= i < j < |offs| ==> offs[i] != offs[j])
    && (forall a :: a in offs ==> a !in spammers)
    && (forall a :: a in orig && a !in locals && |orig[a]| > slots <==> a in offs || a in spammers)
    && (forall a :: a in spammers ==> |orig[a]| <= level)
    && (forall a, b :: a in spammers && b in offs ==> |orig[a]| <= |orig[b]|)
  }

  /** All offenders are above or at the level. */
  ghost predicate Levelled(offs: seq<Address>, orig: Lists, level: nat) {
    forall a :: a in offs ==> a in orig && |orig[a]| >= level
  }

  lemma RankedStart(orig: Lists, spammers: set<Address>, level: nat, locals: set<Address>, slots: nat)
    requires slots <= level && forall a :: a in orig ==> |orig[a]| <= level
    requires forall a :: a in spammers <==> a in orig && a !in locals && |orig[a]| > slots
    ensures Ranked([], spammers, orig, level, locals, slots) && Levelled([], orig, level)
  {
  }

  lemma SpammerUntouched(v: Lists, orig: Lists, offs: seq<Address>, spammers: set<Address>, level: nat,
                         locals: set<Address>, slots: nat)
    requires AtLevel(v, orig, level, locals) && Ranked(offs, spammers, orig, level, locals, slots)
    ensures forall a :: a in spammers ==> a in v && a in orig && |v[a]| == |orig[a]|
  {
    forall a | a in spammers ensures a in v && a in orig && |v[a]| == |orig[a]| {
      assert Capped(v[a], orig[a], LevelOf(locals, level, a));
    }
  }

  /** The next offender becomes the threshold for those before it. */
  lemma RankedPop(offs: seq<Address>, spammers: set<Address>, orig: Lists, level: nat,
                  locals: set<Address>, slots: nat, o: Address)
    requires Ranked(offs, spammers, orig, level, locals, slots) && Levelled(offs, orig, level)
    requires o in spammers && forall a :: a in spammers ==> a in orig && |orig[a]| <= |orig[o]|
    ensures Offending(offs, orig, |orig[o]|, level, locals)
    ensures Ranked(offs + [o], spammers - {o}, orig, |orig[o]|, locals, slots)
    ensures Levelled(offs + [o], orig, |orig[o]|)
    ensures forall l :: |orig[o]| <= l ==> Ranked(offs + [o], spammers - {o}, orig, l, locals, slots)
    ensures slots < |orig[o]| <= level
  {
    assert forall a :: a in offs + [o] <==> a in offs || a == o;
  }

  lemma FirstOffender(spammers: set<Address>, orig: Lists, level: nat, locals: set<Address>, slots: nat, o: Address)
    requires Ranked([], spammers, orig, level, locals, slots)
    requires o in spammers && forall a :: a in spammers ==> a in orig && |orig[a]| <= |orig[o]|
    ensures AtLevel(orig, orig, |orig[o]|, locals)
  {
  }

  lemma NoMoreSpammers(offs: seq<Address>, orig: Lists, level: nat, locals: set<Address>, slots: nat)
    requires Ranked(offs, {}, orig, level, locals, slots) && Levelled(offs, orig, level)
    ensures Offending(offs, orig, slots, level, locals)
    ensures offs == [] ==> AtLevel(orig, orig, slots, locals)
  {
  }

  lemma FairAt(v: Lists, orig: Lists, locals: set<Address>, slots: nat, globalSlots: nat, level: nat)
    requires slots <= level && AtLevel(v, orig, level, locals)
    requires Total(v) <= globalSlots || level == slots
    requires v == orig || TotalAt(orig, level + 1, locals) > globalSlots
    ensures Fair(v, orig, locals, slots, globalSlots)
  {
  }

  /** The queue after trimming to a global limit: local accounts are untouched, the
      others keep their lowest nonces, and no more was dropped than needed. */
  ghost predicate Trimmed(v: Lists, q: Lists, locals: set<Address>, limit: nat) {
    && Trimming(v, q, locals)
    && (Total(q) <= limit ==> v == q)
    && (Total(q) > limit ==> Total(v) >= limit)
    && (Total(v) > limit ==> forall a :: a in v && v[a] != map[] ==> a in locals)
  }

  ghost predicate Trimming(v: Lists, q: Lists, locals: set<Address>) {
    && (forall a :: a in v ==> a in q)
    && (forall a :: a in locals ==> Of(v, a) == Of(q, a))
    && (forall a :: Lowest(Of(v, a), Of(q, a), |Of(v, a)|))
  }

  lemma TrimmingNone(q: Lists, locals: set<Address>)
    ensures Trimming(q, q, locals)
  {
  }

  lemma TrimmingAll(v: Lists, q: Lists, locals: set<Address>, a: Address)
    requires Trimming(v, q, locals) && a in v && a !in locals
    ensures var w := if v[a] == map[] then v else v - {a};
      Trimming(w, q, locals) && Total(w) == Total(v) - |v[a]|
  {
    if v[a] != map[] {
      var w := v - {a};
      TotalWithout(v, a);
      forall b ensures Lowest(Of(w, b), Of(q, b), |Of(w, b)|) {
        assert Lowest(Of(v, b), Of(q, b), |Of(v, b)|);
        if b == a {
          assert Of(w, b) == Below(Of(q, b), 0);
        }
      }
    }
  }

  lemma TrimmingTop(v: Lists, q: Lists, locals: set<Address>, a: Address, m: NonceMap)
    requires Trimming(v, q, locals) && a in v && a !in locals
    requires |m| <= |v[a]| && Lowest(m, v[a], |m|)
    ensures Trimming(v[a := m], q, locals) && Total(v[a := m]) == Total(v) - |v[a]| + |m|
  {
    TotalUpdate(v, a, m);
    var w := v[a := m];
    assert Lowest(v[a], Of(q, a), |v[a]|);
    LowestTwice(m, v[a], Of(q, a), |v[a]|, |m|);
    forall b ensures Lowest(Of(w, b), Of(q, b), |Of(w, b)|) {
      assert Lowest(Of(v, b), Of(q, b), |Of(v, b)|);
    }
  }

  ghost predicate ListFits(m: NonceMap, state: ChainState, maxGas: nat) {
    forall n :: n in m ==> Fits(m[n], state, maxGas)
  }

  ghost predicate ListsFit(v: Lists, state: ChainState, maxGas: nat) {
    forall a :: a in v ==> ListFits(v[a], state, maxGas)
  }

  /** Promotion of every queued account leaves only transactions that fit, if the
      pending ones did. */
  lemma PromotedFit(s: Tables, t: Tables, done: seq<Address>, r: Rules)
    requires Promoted(s, t, done, r) && AllOwned(s.q) && ListsFit(s.p, r.state, r.maxGas)
    requires forall a :: a in s.q ==> a in done
    ensures ListsFit(t.p, r.state, r.maxGas) && ListsFit(t.q, r.state, r.maxGas)
  {
    hide ReadyCut, Fits, Criterion.Selects;
    forall a
      ensures ListFits(Of(t.p, a), r.state, r.maxGas) && ListFits(Of(t.q, a), r.state, r.maxGas)
    {
      assert ListFits(Of(s.p, a), r.state, r.maxGas);
      if a in done {
        assert AccountPromoted(s, t, a, r);
        AccountFits(s, t, a, r);
      } else {
        assert AccountSame(s, t, a, r.state);
        assert Of(s.q, a) == map[];
      }
    }
    forall a | a in t.p ensures ListFits(t.p[a], r.state, r.maxGas) { assert ListFits(Of(t.p, a), r.state, r.maxGas); }
    forall a | a in t.q ensures ListFits(t.q[a], r.state, r.maxGas) { assert ListFits(Of(t.q, a), r.state, r.maxGas); }
  }

  lemma AccountFits(s: Tables, t: Tables, a: Address, r: Rules)
    requires AccountPromoted(s, t, a, r) && AllOwned(s.q) && ListFits(Of(s.p, a), r.state, r.maxGas)
    ensures ListFits(Of(t.p, a), r.state, r.maxGas) && ListFits(Of(t.q, a), r.state, r.maxGas)
  {
    hide ReadyCut, Criterion.Selects, Fits, Lowest, ListFits;
    assert Owned(Of(s.q, a), a) by { assert a in s.q ==> Owned(s.q[a], a); }
    var live := Others(AtLeast(Of(s.q, a), r.state.Nonce(a)), Unpayable(r.state.Balance(a), r.maxGas));
    var cut := ReadyCut(live, Virtual(r.state, s.over, a));
    LiveFits(Of(s.q, a), a, r.state, r.maxGas);
    JoinedFits(Of(s.p, a), Below(live, cut), live, r.state, r.maxGas);
    CappedFits(Of(t.q, a), AtLeast(live, cut), r.QueueLimit(a), live, r.state, r.maxGas);
  }

  lemma LiveFits(m: NonceMap, a: Address, state: ChainState, maxGas: nat)
    requires Owned(m, a)
    ensures ListFits(Others(AtLeast(m, state.Nonce(a)), Unpayable(state.Balance(a), maxGas)), state, maxGas)
  {
    hide Criterion.Selects, Fits;
    PayableFits(a, state, maxGas);
  }

  lemma JoinedFits(m: NonceMap, more: NonceMap, live: NonceMap, state: ChainState, maxGas: nat)
    requires ListFits(m, state, maxGas) && ListFits(live, state, maxGas) && SubMap(more, live)
    ensures ListFits(m + more, state, maxGas)
  {
    hide Fits;
  }

  lemma CappedFits(r: NonceMap, m: NonceMap, cap: Option<nat>, live: NonceMap, state: ChainState, maxGas: nat)
    requires Capped(r, m, cap) && ListFits(live, state, maxGas) && SubMap(m, live)
    ensures ListFits(r, state, maxGas)
  {
    hide Fits;
  }

  /** Truncation only takes transactions away. */
  lemma FairFits(v: Lists, orig: Lists, locals: set<Address>, accountSlots: nat, globalSlots: nat, state: ChainState,
                 maxGas: nat)
    requires Fair(v, orig, locals, accountSlots, globalSlots) && ListsFit(orig, state, maxGas)
    ensures ListsFit(v, state, maxGas)
  {
    hide AtLevel, ListsFit;
    var level: nat :| AtLevel(v, orig, level, locals);
    LevelFits(v, orig, locals, level, state, maxGas);
  }

  lemma LevelFits(v: Lists, orig: Lists, locals: set<Address>, level: nat, state: ChainState, maxGas: nat)
    requires AtLevel(v, orig, level, locals) && ListsFit(orig, state, maxGas)
    ensures ListsFit(v, state, maxGas)
  {
    hide Fits;
    forall a | a in v ensures ListFits(v[a], state, maxGas) {
      assert a in orig && ListFits(orig[a], state, maxGas);
    }
  }

  lemma TrimmedFits(v: Lists, q: Lists, locals: set<Address>, limit: nat, state: ChainState, maxGas: nat)
    requires Trimmed(v, q, locals, limit) && ListsFit(q, state, maxGas)
    ensures ListsFit(v, state, maxGas)
  {
    hide Fits, Total;
    forall a | a in v ensures ListFits(v[a], state, maxGas) {
      assert Lowest(Of(v, a), Of(q, a), |Of(v, a)|);
    }
  }

  /** If everything listed fits, everything in the lookup does. */
  lemma ListedFit(p: Lists, q: Lists, all: map<Hash, Tx>, state: ChainState, maxGas: nat)
    requires Consistent(p, q, all, {}) && ListsFit(p, state, maxGas) && ListsFit(q, state, maxGas)
    ensures AllFit(all, state, maxGas)
  {
    hide Fits;
    forall h | h in all ensures Fits(h.of, state, maxGas) {
      assert h.of.Hash() in all;
      assert InLists(p, h.of) || InLists(q, h.of) || h.of in {};
    }
  }

  /** What stays pending after demotion fits, and no list is empty. */
  lemma DemotedFit(p: Lists, q: Lists, p': Lists, q': Lists, state: ChainState, maxGas: nat)
    requires Demoted(p, q, p', q', p.Keys, state, maxGas) && AllOwned(p)
    ensures ListsFit(p', state, maxGas)
    ensures forall a :: a in p' ==> p'[a] != map[]
  {
    hide Filtered, Criterion.Selects, Fits;
    forall a | a in p' ensures ListFits(p'[a], state, maxGas) && p'[a] != map[] {
      assert a in p.Keys && Of(p', a) == Runnable(Of(p, a), a, state, maxGas);
      assert Owned(p[a], a);
      FilteredPayable(AtLeast(p[a], state.Nonce(a)), Unpayable(state.Balance(a), maxGas));
      PayableFits(a, state, maxGas);
    }
  }

  /** The pool's global limits. */
  datatype Limits = Limits(accountSlots: nat, globalSlots: nat, globalQueue: nat)

  /** What promotion does to the tables: the given accounts are promoted, then pending
      lists are truncated fairly, with their virtual nonces, then the queue is trimmed. */
  ghost predicate Rebalanced(s: Tables, t: Tables, done: seq<Address>, r: Rules, l: Limits) {
    exists u: Tables ::
      && Promoted(s, u, done, r)
      && Fair(t.p, u.p, r.locals, l.accountSlots, l.globalSlots) && Cut(u.p, t.p, r.state, u.over, t.over)
      && Trimmed(t.q, u.q, r.locals, l.globalQueue)
  }

  /** What a change of the chain state does to the tables: all pending accounts are
      demoted, virtual nonces follow the pending lists and stay what they are elsewhere, and
      all queued accounts are promoted. */
  ghost predicate Reorganised(s: Tables, t: Tables, r: Rules, l: Limits) {
    exists u: Tables, done ::
      && Demoted(s.p, s.q, u.p, u.q, s.p.Keys, r.state, r.maxGas)
      && Renumbered(u.p, r.state, s.over, u.over)
      && (forall a :: a in done <==> a in u.q)
      && Rebalanced(u, t, done, r, l)
  }
}
