/** The lookup of all pooled transactions and the price heap over them, which is
    cleaned of removed transactions only lazily. */
module TxPricedLists {
  import opened Options
  import opened Transactions
  import H = BinaryHeap

  class TxLookup {
    var all: map<Hash, Tx>

    ghost predicate Valid()
      reads this
    {
      forall h :: h in all ==> all[h] == h.of
    }

    constructor ()
      ensures Valid() && all == map[]
    {
      all := map[];
    }

    function Get(hash: Hash): (r: Option<Tx>)
      requires Valid()
      reads this
      ensures r == if hash in all then Some(hash.of) else None
    {
      if hash in all then Some(all[hash]) else None
    }

    method Add(tx: Tx)
      requires Valid()
      modifies this
      ensures Valid() && all == old(all)[tx.Hash() := tx]
    {
      all := all[tx.Hash() := tx];
    }

    method Remove(hash: Hash)
      requires Valid()
      modifies this
      ensures Valid() && all == old(all) - {hash}
    {
      all := all - {hash};
    }
  }

  /** Cheaper is worse; at equal price the higher nonce is worse. */
  function Worse(a: Tx, b: Tx): bool {
    a.price < b.price || (a.price == b.price && a.nonce > b.nonce)
  }

  /** A total preorder in which a transaction that is not worse than another costs more, or as
      much at no higher a nonce. */
  lemma WorseOrders()
    ensures H.Ordering(Worse)
    ensures forall a, b :: !Worse(a, b) <==> b.price < a.price || (b.price == a.price && a.nonce <= b.nonce)
  {
  }

  predicate IsLocal(locals: set<Address>, tx: Tx) {
    tx.signed && tx.from in locals
  }

  /** Not to be evicted: local, or not below the price limit if there is one. */
  predicate Spared(locals: set<Address>, limit: Option<int>, tx: Tx) {
    IsLocal(locals, tx) || (limit.Some? && tx.price >= limit.value)
  }

  /** Every pooled transaction is in the heap or has been taken out of it for
      eviction. */
  ghost predicate Covers(bag: multiset<Tx>, out: set<Tx>, all: map<Hash, Tx>) {
    && (forall h :: h in all ==> h.of in bag || h.of in out)
    && (forall tx :: tx in out ==> tx.Hash() in all)
  }

  /** No transaction occurs twice. */
  ghost predicate Single(bag: multiset<Tx>) { forall tx :: bag[tx] <= 1 }

  /** The books of the heap: `bag` is what it holds or is about to get back, `puts` is all
      that was ever put into it, and `lost` the entries that were popped for eviction, since
      the last rebuild, on top of another entry of the same transaction. */
  ghost predicate Balanced(bag: multiset<Tx>, out: set<Tx>, all: map<Hash, Tx>, stales: int, puts: multiset<Tx>,
                           lost: nat) {
    && Covers(bag, out, all)
    && |bag| + |out| + lost == |all| + stales
    && (forall tx :: bag[tx] + (if tx in out then 1 else 0) <= puts[tx])
    && (Single(puts) ==> lost == 0)
  }

  lemma BalancedCovers(bag: multiset<Tx>, out: set<Tx>, all: map<Hash, Tx>, stales: int, puts: multiset<Tx>, lost: nat)
    requires Balanced(bag, out, all, stales, puts, lost)
    ensures forall h :: h in all ==> h.of in bag || h.of in out
    ensures forall tx :: tx in out ==> tx.Hash() in all
  {
  }

  lemma BalancedPut(bag: multiset<Tx>, out: set<Tx>, all: map<Hash, Tx>, stales: int, puts: multiset<Tx>, lost: nat,
                    tx: Tx)
    requires tx.Hash() in all && Balanced(bag, out, all - {tx.Hash()}, stales, puts, lost)
    ensures Balanced(bag + multiset{tx}, out, all, stales, puts + multiset{tx}, lost)
  {
    assert all.Keys == (all - {tx.Hash()}).Keys + {tx.Hash()};
    if Single(puts + multiset{tx}) {
      forall t ensures puts[t] <= 1 {
        assert (puts + multiset{tx})[t] >= puts[t];
      }
    }
  }

  lemma BalancedRemove(bag: multiset<Tx>, all: map<Hash, Tx>, stales: int, puts: multiset<Tx>, lost: nat, h: Hash)
    requires Balanced(bag, {}, all, stales, puts, lost) && h in all
    ensures Balanced(bag, {}, all - {h}, stales + 1, puts, lost)
  {
    assert all.Keys == (all - {h}).Keys + {h};
  }

  /** Removing from the lookup what was taken out of the heap beforehand. */
  lemma BalancedEvict(bag: multiset<Tx>, out: set<Tx>, all: map<Hash, Tx>, stales: int, puts: multiset<Tx>, lost: nat,
                      tx: Tx)
    requires Balanced(bag, out, all, stales, puts, lost) && tx in out && tx.Hash() in all
    ensures Balanced(bag, out - {tx}, all - {tx.Hash()}, stales, puts, lost)
  {
    assert all.Keys == (all - {tx.Hash()}).Keys + {tx.Hash()};
  }

  lemma BalancedStale(bag: multiset<Tx>, out: set<Tx>, all: map<Hash, Tx>, stales: int, puts: multiset<Tx>, lost: nat,
                      tx: Tx)
    requires Balanced(bag, out, all, stales, puts, lost) && tx in bag && tx.Hash() !in all
    ensures Balanced(bag - multiset{tx}, out, all, stales - 1, puts, lost)
  {
  }

  lemma BalancedDrop(bag: multiset<Tx>, out: set<Tx>, all: map<Hash, Tx>, stales: int, puts: multiset<Tx>, lost: nat,
                     tx: Tx)
    requires Balanced(bag, out, all, stales, puts, lost) && tx in bag && tx.Hash() in all
    ensures Balanced(bag - multiset{tx}, out + {tx}, all, stales, puts, if tx in out then lost + 1 else lost)
  {
    if tx in out {
      assert puts[tx] >= 2;
      assert out + {tx} == out;
    }
  }

  /** A heap that holds exactly what is pooled. */
  lemma BalancedRebuilt(bag: multiset<Tx>, all: map<Hash, Tx>, stales: int, puts: multiset<Tx>, lost: nat,
                        heap: multiset<Tx>)
    requires Balanced(bag, {}, all, stales, puts, lost) && (forall h :: h in all ==> all[h] == h.of)
    requires |heap| == |all| && forall tx: Tx :: heap[tx] == if tx.Hash() in all then 1 else 0
    ensures Balanced(heap, {}, all, 0, puts, 0)
  {
    forall tx ensures heap[tx] <= puts[tx] {
      if tx.Hash() in all {
        assert tx.Hash().of in bag;
      }
    }
  }

  ghost function Stale(items: seq<Tx>, all: map<Hash, Tx>): seq<Tx> {
    if items == [] then [] else (if items[0].Hash() in all then [] else [items[0]]) + Stale(items[1..], all)
  }

  ghost function Live(items: seq<Tx>, all: map<Hash, Tx>): seq<Tx> {
    if items == [] then [] else (if items[0].Hash() in all then [items[0]] else []) + Live(items[1..], all)
  }

  lemma {:induction false} LiveAndStale(items: seq<Tx>, all: map<Hash, Tx>)
    ensures |items| == |Live(items, all)| + |Stale(items, all)|
    ensures forall tx: Tx :: multiset(Live(items, all))[tx] == if tx.Hash() in all then multiset(items)[tx] else 0
  {
    if items != [] {
      LiveAndStale(items[1..], all);
      assert items == [items[0]] + items[1..];
    }
  }

  /** A sequence has at least as many elements as different ones, and just as many exactly if
      none occurs twice. */
  lemma {:induction false} Different(s: seq<Tx>, elements: set<Tx>)
    requires forall tx :: tx in elements <==> tx in multiset(s)
    ensures |elements| <= |s| && (|elements| == |s| <==> Single(multiset(s)))
  {
    if s == [] {
      assert elements == {};
    } else {
      var x, rest := s[0], s[1..];
      assert s == [x] + rest;
      assert forall t :: multiset(s)[t] == multiset(rest)[t] + if t == x then 1 else 0;
      if x in multiset(rest) {
        Different(rest, elements);
        assert multiset(s)[x] >= 2;
      } else {
        Different(rest, elements - {x});
        assert Single(multiset(s)) <==> Single(multiset(rest)) by { SingleCons(rest, x, s); }
      }
    }
  }

  lemma SingleCons(rest: seq<Tx>, x: Tx, s: seq<Tx>)
    requires s == [x] + rest && x !in multiset(rest)
    ensures Single(multiset(s)) <==> Single(multiset(rest))
  {
    assert forall t :: multiset(s)[t] == multiset(rest)[t] + if t == x then 1 else 0;
    if Single(multiset(s)) {
      forall t ensures multiset(rest)[t] <= 1 {
        assert multiset(s)[t] >= multiset(rest)[t];
      }
    }
  }

  ghost function Pooled(all: map<Hash, Tx>): set<Tx> { set h | h in all :: h.of }

  lemma {:induction false} PooledSize(all: map<Hash, Tx>)
    ensures |Pooled(all)| == |all|
    decreases |all|
  {
    if all != map[] {
      var h :| h in all;
      var rest := all - {h};
      assert all.Keys == rest.Keys + {h};
      PooledSize(rest);
      forall t ensures t in Pooled(all) <==> t in Pooled(rest) + {h.of} {
        assert t in Pooled(rest) <==> t.Hash() in rest;
      }
      assert Pooled(all) == Pooled(rest) + {h.of} && h.of !in Pooled(rest);
    }
  }

  /** What the count of stale entries is in every state: the stale entries, plus the surplus
      entries of pooled transactions, plus those lost. It is exact if and only if every pooled
      transaction has one entry and none was lost. */
  lemma StalesMean(items: seq<Tx>, all: map<Hash, Tx>, stales: int, puts: multiset<Tx>, lost: nat)
    requires Balanced(multiset(items), {}, all, stales, puts, lost)
    ensures |Live(items, all)| >= |all|
    ensures stales == |Stale(items, all)| + (|Live(items, all)| - |all|) + lost
    ensures stales == |Stale(items, all)| <==> lost == 0 && forall h :: h in all ==> multiset(items)[h.of] == 1
  {
    LiveAndStale(items, all);
    PooledSize(all);
    var live := Live(items, all);
    forall tx ensures tx in Pooled(all) <==> tx in multiset(live) {
      assert tx in Pooled(all) <==> tx.Hash() in all;
      if tx.Hash() in all {
        assert tx.Hash().of in multiset(items);
      }
    }
    Different(live, Pooled(all));
    OneEntryEach(items, all);
  }

  lemma OneEntryEach(items: seq<Tx>, all: map<Hash, Tx>)
    requires forall h :: h in all ==> h.of in multiset(items)
    ensures Single(multiset(Live(items, all))) <==> forall h :: h in all ==> multiset(items)[h.of] == 1
  {
    LiveAndStale(items, all);
    var live := multiset(Live(items, all));
    if Single(live) {
      forall h | h in all ensures multiset(items)[h.of] == 1 {
        assert live[h.of] <= 1 && h.of.Hash() == h;
      }
    }
    if forall h :: h in all ==> multiset(items)[h.of] == 1 {
      forall tx ensures live[tx] <= 1 {
        assert tx.Hash() in all ==> multiset(items)[tx.Hash().of] == 1;
      }
    }
  }

  /** The entries of the heap and those set aside. */
  ghost function Together(items: seq<Tx>, save: seq<Tx>): multiset<Tx> { multiset(items) + multiset(save) }

  lemma TogetherNone(items: seq<Tx>)
    ensures Together(items, []) == multiset(items)
  {
  }

  lemma TogetherHas(items: seq<Tx>, save: seq<Tx>)
    ensures forall tx :: tx in Together(items, save) <==> tx in multiset(items) || tx in save
  {
  }

  /** Taking one off the heap, for good or to set it aside. */
  lemma OneLess(items: seq<Tx>, items': seq<Tx>, save: seq<Tx>, tx: Tx)
    requires tx in multiset(items) && multiset(items') == multiset(items) - multiset{tx}
    ensures tx in Together(items, save) && Together(items', save) == Together(items, save) - multiset{tx}
    ensures Together(items', save + [tx]) == Together(items, save)
  {
    assert multiset(save + [tx]) == multiset(save) + multiset{tx};
  }

  lemma OneMoreOut(out: set<Tx>, tx: Tx)
    ensures |out + {tx}| == |out| + if tx in out then 0 else 1
  {
    assert tx in out ==> out + {tx} == out;
  }

  lemma CheapestFirst(items: seq<Tx>, tx: Tx)
    requires H.IsHeap(items, Worse) && tx in multiset(items)
    ensures |items| > 0 && items[0].price <= tx.price
  {
    hide H.IsHeap;
    WorseOrders();
    var k :| 0 <= k < |items| && items[k] == tx;
    H.RootIsLeast(items, Worse, k);
  }

  /** Nothing in the heap is worse than what was taken out of it. */
  ghost predicate NoneWorse(bag: multiset<Tx>, drop: seq<Tx>) {
    forall d, r :: d in drop && r in bag ==> !Worse(r, d)
  }

  lemma NoneWorseYet(bag: multiset<Tx>)
    ensures NoneWorse(bag, [])
  {
  }

  lemma NoneWorseMeans(bag: multiset<Tx>, drop: seq<Tx>, locals: set<Address>)
    requires NoneWorse(bag, drop)
    ensures LeastLeft(bag, drop, locals)
  {
  }

  /** Of the remote transactions the cheapest were taken, and of equally priced ones those with
      the highest nonces. */
  ghost predicate LeastLeft(bag: multiset<Tx>, drop: seq<Tx>, locals: set<Address>) {
    forall d, r :: d in drop && r in bag && !IsLocal(locals, r) ==>
      d.price < r.price || (d.price == r.price && d.nonce >= r.nonce)
  }

  /** What is put back is local. */
  lemma LeastLeftLocals(bag: multiset<Tx>, drop: seq<Tx>, locals: set<Address>, save: seq<Tx>)
    requires LeastLeft(bag, drop, locals) && forall tx :: tx in save ==> IsLocal(locals, tx)
    ensures LeastLeft(bag + multiset(save), drop, locals)
  {
  }

  lemma WorstPopped(bag: multiset<Tx>, drop: seq<Tx>, tx: Tx)
    requires NoneWorse(bag, drop) && forall y :: y in bag ==> !Worse(y, tx)
    ensures NoneWorse(bag - multiset{tx}, drop) && NoneWorse(bag - multiset{tx}, drop + [tx])
  {
    hide Worse;
  }

  class TxPricedList {
    const lookup: TxLookup
    var items: seq<Tx>
    var stales: int
    /** Taken out of the heap for eviction, but still pooled. */
    ghost var out: set<Tx>
    /** All that was ever put into the heap. */
    ghost var puts: multiset<Tx>
    /** Entries popped for eviction on top of another one, since the last rebuild. */
    ghost var lost: nat

    /** `surplus` pooled transactions have been dropped without notice. */
    ghost predicate Tracks(surplus: int)
      reads this, lookup
    {
      && lookup.Valid()
      && H.IsHeap(items, Worse)
      && Balanced(multiset(items), out, lookup.all, stales + surplus, puts, lost)
    }

    ghost predicate Valid()
      reads this, lookup
    {
      Tracks(0)
    }

    lemma Covered(h: Hash)
      requires Valid() && h in lookup.all
      ensures h.of in multiset(items) || h.of in out
    {
    }

    /** Nothing is lost if nothing was ever put into the heap twice. */
    lemma NothingLost()
      requires Valid() && Single(puts)
      ensures lost == 0
    {
    }

    lemma OutIsKnown(tx: Tx)
      requires Valid() && tx in out
      ensures tx.Hash() in lookup.all
    {
    }

    constructor (lookup: TxLookup)
      requires lookup.Valid() && lookup.all == map[]
      ensures Valid() && this.lookup == lookup && items == [] && stales == 0 && out == {} && puts == multiset{}
        && lost == 0
    {
      this.lookup, items, stales, out, puts, lost := lookup, [], 0, {}, multiset{}, 0;
    }

    /** Records a transaction that has just been added to the lookup. */
    method Put(tx: Tx)
      requires lookup.Valid() && tx.Hash() in lookup.all && tx !in out
      requires H.IsHeap(items, Worse) && Balanced(multiset(items), out, lookup.all - {tx.Hash()}, stales, puts, lost)
      modifies this
      ensures Valid() && out == old(out) && stales == old(stales)
      ensures multiset(items) == multiset(old(items)) + multiset{tx}
      ensures puts == old(puts) + multiset{tx} && lost == old(lost)
    {
      hide Balanced, H.IsHeap;
      BalancedPut(multiset(items), out, lookup.all, stales, puts, lost, tx);
      puts := puts + multiset{tx};
      items := H.Push(items, Worse, tx);
    }

    /** Notes that a pooled transaction was removed; rebuilds the heap when more
        than a quarter of it is stale. */
    method Removed()
      requires Tracks(1) && out == {}
      modifies this
      ensures Valid() && out == {} && puts == old(puts)
      ensures old(stales) + 1 <= |old(items)| / 4 ==>
        items == old(items) && stales == old(stales) + 1 && lost == old(lost)
      ensures old(stales) + 1 > |old(items)| / 4 ==>
        stales == 0 && lost == 0 && forall tx: Tx :: multiset(items)[tx] == if tx.Hash() in lookup.all then 1 else 0
    {
      hide Balanced, H.IsHeap;
      stales := stales + 1;
      if stales <= |items| / 4 {
        return;
      }
      var reheap := Range(lookup.all);
      BalancedRebuilt(multiset(items), lookup.all, stales, puts, lost, multiset(reheap));
      stales := 0;
      items := H.Init(reheap, Worse);
      lost := 0;
    }

    /** Whether a remote transaction is no better than the worst pooled one; stale
        entries on top of the heap are discarded on the way. */
    method Underpriced(tx: Tx, locals: set<Address>) returns (r: bool)
      requires Valid() && out == {}
      modifies this
      ensures Valid() && out == {} && puts == old(puts) && lost == old(lost)
      ensures IsLocal(locals, tx) || lookup.all == map[] ==> !r
      ensures !IsLocal(locals, tx) && lookup.all != map[] ==>
        (r <==> forall h :: h in lookup.all ==> tx.price <= h.of.price)
      ensures multiset(items) <= multiset(old(items))
    {
      hide H.Ordering, H.IsHeap, Balanced, Worse;
      if IsLocal(locals, tx) {
        return false;
      }
      DropStale();
      forall h | h in lookup.all ensures |items| > 0 {
        Covered(h);
      }
      if |items| == 0 {
        return false;
      }
      forall h | h in lookup.all ensures items[0].price <= h.of.price {
        Covered(h);
        CheapestFirst(items, h.of);
      }
      r := items[0].price >= tx.price;
      assert items[0].Hash().of == items[0];
    }

    /** Discards stale entries on top of the heap. */
    method DropStale()
      requires Valid() && out == {}
      modifies this
      ensures Valid() && out == {} && puts == old(puts) && lost == old(lost)
      ensures |items| > 0 ==> items[0].Hash() in lookup.all
      ensures multiset(items) <= multiset(old(items))
    {
      hide H.Ordering, H.IsHeap, Balanced, Worse;
      while |items| > 0 && lookup.Get(items[0].Hash()) == None
        invariant Valid() && out == {} && puts == old(puts) && lost == old(lost)
        invariant multiset(items) <= multiset(old(items))
        decreases |items|
      {
        BalancedStale(multiset(items), out, lookup.all, stales, puts, lost, items[0]);
        stales := stales - 1;
        var _ := PopRoot();
      }
    }

    /** While evicting: `items` is the heap, `save` what will be pushed back. */
    ghost predicate Evicting(save: seq<Tx>)
      reads this, lookup
    {
      && lookup.Valid()
      && H.IsHeap(items, Worse)
      && Balanced(Together(items, save), out, lookup.all, stales, puts, lost)
    }

    /** Pops the worst entry off the heap: it is stale and forgotten, or spared and
        saved, or else dropped. */
    method PopWorst(locals: set<Address>, limit: Option<int>, save0: seq<Tx>)
        returns (tx: Tx, stale: bool, save: seq<Tx>)
      requires Evicting(save0) && |items| > 0
      modifies this
      ensures Evicting(save) && |items| == |old(items)| - 1 && puts == old(puts)
      ensures multiset(items) == multiset(old(items)) - multiset{tx}
      ensures tx in old(items) && forall y :: y in multiset(old(items)) ==> !Worse(y, tx)
      ensures stale == (tx.Hash() !in lookup.all)
      ensures save == if !stale && Spared(locals, limit, tx) then save0 + [tx] else save0
      ensures out == if !stale && !Spared(locals, limit, tx) then old(out) + {tx} else old(out)
      ensures lost == if !stale && !Spared(locals, limit, tx) && tx in old(out) then old(lost) + 1 else old(lost)
      ensures |out| + lost == |old(out)| + old(lost) + if !stale && !Spared(locals, limit, tx) then 1 else 0
    {
      hide H.Ordering, H.IsHeap, Worse, Balanced, Together, TxLookup.Valid;
      save := save0;
      tx := PopRoot();
      OneLess(old(items), items, save0, tx);
      stale := lookup.Get(tx.Hash()) == None;
      if !stale && Spared(locals, limit, tx) {
        save := save + [tx];
      } else {
        LetGo(tx, Together(old(items), save0));
      }
    }

    /** Forgets a stale entry, or gives up a pooled transaction. */
    method LetGo(tx: Tx, ghost bag: multiset<Tx>)
      requires tx in bag && Balanced(bag, out, lookup.all, stales, puts, lost)
      modifies this`stales, this`lost, this`out
      ensures Balanced(bag - multiset{tx}, out, lookup.all, stales, puts, lost)
      ensures out == if tx.Hash() in lookup.all then old(out) + {tx} else old(out)
      ensures lost == if tx.Hash() in lookup.all && tx in old(out) then old(lost) + 1 else old(lost)
      ensures |out| + lost == |old(out)| + old(lost) + if tx.Hash() in lookup.all then 1 else 0
    {
      hide Balanced;
      if tx.Hash() !in lookup.all {
        BalancedStale(bag, out, lookup.all, stales, puts, lost, tx);
        stales := stales - 1;
      } else {
        BalancedDrop(bag, out, lookup.all, stales, puts, lost, tx);
        OneMoreOut(out, tx);
        lost := if tx in out then lost + 1 else lost;
        out := out + {tx};
      }
    }

    /** Takes the root off the heap. */
    method PopRoot() returns (tx: Tx)
      requires H.IsHeap(items, Worse) && |items| > 0
      modifies this`items
      ensures H.IsHeap(items, Worse) && |items| == |old(items)| - 1 && tx == old(items)[0] && tx in old(items)
      ensures multiset(items) == multiset(old(items)) - multiset{tx} && tx in multiset(old(items))
      ensures forall y :: y in multiset(old(items)) ==> !Worse(y, tx)
    {
      hide H.Ordering, H.IsHeap, Worse;
      WorseOrders();
      forall y | y in multiset(items) ensures !Worse(y, items[0]) {
        var k :| 0 <= k < |items| && items[k] == y;
        H.RootIsLeast(items, Worse, k);
      }
      tx, items := H.Pop(items, Worse);
    }

    method PushBack(save: seq<Tx>)
      requires Evicting(save)
      modifies this`items
      ensures Valid() && multiset(items) == multiset(old(items)) + multiset(save)
    {
      hide H.Ordering, H.IsHeap, Worse, Balanced;
      WorseOrders();
      ghost var bag := Together(items, save);
      for i := 0 to |save|
        invariant H.IsHeap(items, Worse)
        invariant multiset(items) + multiset(save[i..]) == bag
      {
        assert save[i..] == [save[i]] + save[i + 1..];
        items := H.Push(items, Worse, save[i]);
      }
      assert save[|save|..] == [] && multiset(items) == bag;
    }

    /** Takes the `count` worst remote entries out of the heap. */
    method Discard(count: int, locals: set<Address>) returns (drop: seq<Tx>)
      requires Valid() && out == {}
      modifies this
      ensures Valid() && puts == old(puts) && (forall tx :: tx in out <==> tx in drop)
      ensures forall tx :: tx in drop ==> tx.Hash() in lookup.all && !IsLocal(locals, tx)
      ensures LeastLeft(multiset(items), drop, locals)
      ensures |drop| <= (if count > 0 then count else 0) && |drop| == |out| + (lost - old(lost)) && lost >= old(lost)
      ensures |drop| < count ==> forall h :: h in lookup.all && !IsLocal(locals, h.of) ==> h.of in drop
      ensures PoolKept(multiset(old(items)), multiset(items), [], drop, lookup.all)
      ensures lost == old(lost) <==> Single(multiset(drop))
    {
      hide H.Ordering, H.IsHeap, Worse, Balanced, PoolKept, Together, TxLookup.Valid, Single, NoneWorse, LeastLeft;
      drop := [];
      NoneWorseYet(multiset(items));
      var save: seq<Tx> := [];
      TogetherNone(items);
      NothingPopped(multiset(items), lookup.all);
      var left := count;
      while |items| > 0 && left > 0
        invariant Evicting(save) && puts == old(puts) && lost >= old(lost)
        invariant (forall tx :: tx in out <==> tx in drop)
        invariant forall tx :: tx in drop ==> tx.Hash() in lookup.all && !IsLocal(locals, tx)
        invariant forall tx :: tx in save ==> IsLocal(locals, tx)
        invariant NoneWorse(multiset(items), drop)
        invariant left == count - |drop| && (drop == [] || left >= 0) && |drop| == |out| + (lost - old(lost))
        invariant PoolKept(multiset(old(items)), multiset(items), save, drop, lookup.all)
        decreases |items|
      {
        var tx, stale;
        PoppedOne(multiset(old(items)), multiset(items), save, drop, lookup.all);
        ghost var bag := multiset(items);
        tx, stale, save := PopWorst(locals, None, save);
        WorstPopped(bag, drop, tx);
        if !stale && !IsLocal(locals, tx) {
          drop := drop + [tx];
          left := left - 1;
        }
      }
      BalancedCovers(Together(items, save), out, lookup.all, stales, puts, lost);
      TogetherHas(items, save);
      NoneWorseMeans(multiset(items), drop, locals);
      LeastLeftLocals(multiset(items), drop, locals, save);
      PutBack(multiset(old(items)), multiset(items), save, drop, lookup.all);
      Different(drop, out);
      PushBack(save);
    }

    /** Gives up `count` entries of remote transactions, the worst first. Fewer transactions than
        entries are given up only if one had two entries. */
    method GiveUp(count: nat, locals: set<Address>) returns (drop: seq<Tx>)
      requires Valid() && out == {}
      modifies this
      ensures Valid() && puts == old(puts) && (forall tx :: tx in out <==> tx in drop)
      ensures forall tx :: tx in drop ==> tx.Hash() in lookup.all && !IsLocal(locals, tx)
      ensures forall d, h :: d in drop && h in lookup.all && h.of !in drop && !IsLocal(locals, h.of) ==>
        d.price < h.of.price || (d.price == h.of.price && d.nonce >= h.of.nonce)
      ensures |out| + (lost - old(lost)) <= count && lost >= old(lost)
      ensures |out| + (lost - old(lost)) < count ==> forall h :: h in lookup.all && !IsLocal(locals, h.of) ==>
        h.of in drop
      ensures (forall h :: h in lookup.all ==> multiset(old(items))[h.of] <= 1) ==> lost == old(lost)
      ensures Single(puts) ==> lost == old(lost)
    {
      hide H.Ordering, H.IsHeap, Worse, Balanced, PoolKept, TxLookup.Valid, Single;
      if Single(puts) {
        NothingLost();
      }
      ghost var before := multiset(items);
      drop := Discard(count, locals);
      if Single(puts) {
        NothingLost();
      }
      forall h | h in lookup.all && h.of !in drop ensures h.of in multiset(items) {
        Covered(h);
      }
      if forall h :: h in lookup.all ==> before[h.of] <= 1 {
        DroppedOnce(before, multiset(items), drop, lookup.all);
      }
    }

    /** Takes every remote transaction below the price threshold out of the heap. */
    method Cap(threshold: int, locals: set<Address>) returns (drop: seq<Tx>)
      requires Valid() && out == {}
      modifies this
      ensures Valid() && puts == old(puts) && (forall tx :: tx in out <==> tx in drop)
      ensures forall tx :: tx in drop <==>
        tx.Hash() in lookup.all && !IsLocal(locals, tx) && tx.price < threshold
    {
      hide H.Ordering, H.IsHeap, Balanced;
      drop := [];
      var save: seq<Tx> := [];
      TogetherNone(items);
      var reached := false;
      while |items| > 0 && !reached
        invariant Evicting(save) && puts == old(puts)
        invariant (forall tx :: tx in out <==> tx in drop)
        invariant forall tx :: tx in drop ==>
          tx.Hash() in lookup.all && !IsLocal(locals, tx) && tx.price < threshold
        invariant forall tx :: tx in save ==> IsLocal(locals, tx) || tx.price >= threshold
        invariant reached ==> forall tx :: tx in multiset(items) ==> tx.price >= threshold
        decreases |items|
      {
        var tx, stale;
        tx, stale, save := PopWorst(locals, Some(threshold), save);
        if !stale {
          if tx.price >= threshold {
            reached := true;
          } else if !IsLocal(locals, tx) {
            drop := drop + [tx];
          }
        }
      }
      BalancedCovers(Together(items, save), out, lookup.all, stales, puts, lost);
      PushBack(save);
    }
  }

  /** Every entry of a pooled transaction that was in the heap is still there, or set aside, or
      dropped. */
  ghost predicate PoolKept(was: multiset<Tx>, bag: multiset<Tx>, save: seq<Tx>, drop: seq<Tx>, all: map<Hash, Tx>) {
    forall h :: h in all ==> bag[h.of] + multiset(save)[h.of] + multiset(drop)[h.of] == was[h.of]
  }

  /** If no pooled transaction has two entries, none is dropped twice. */
  lemma DroppedOnce(was: multiset<Tx>, bag: multiset<Tx>, drop: seq<Tx>, all: map<Hash, Tx>)
    requires PoolKept(was, bag, [], drop, all) && (forall h :: h in all ==> was[h.of] <= 1)
    requires forall tx :: tx in drop ==> tx.Hash() in all
    ensures Single(multiset(drop))
  {
    forall tx ensures multiset(drop)[tx] <= 1 {
      if tx in drop {
        assert tx.Hash().of == tx;
      }
    }
  }

  lemma NothingPopped(bag: multiset<Tx>, all: map<Hash, Tx>)
    ensures PoolKept(bag, bag, [], [], all)
  {
  }

  lemma PoppedOne(was: multiset<Tx>, bag: multiset<Tx>, save: seq<Tx>, drop: seq<Tx>, all: map<Hash, Tx>)
    requires PoolKept(was, bag, save, drop, all)
    ensures forall tx: Tx :: tx in bag ==>
      var bag' := bag - multiset{tx};
      && (tx.Hash() !in all ==> PoolKept(was, bag', save, drop, all))
      && PoolKept(was, bag', save + [tx], drop, all)
      && PoolKept(was, bag', save, drop + [tx], all)
  {
    forall tx: Tx | tx in bag
      ensures tx.Hash() !in all ==> PoolKept(was, bag - multiset{tx}, save, drop, all)
      ensures PoolKept(was, bag - multiset{tx}, save + [tx], drop, all)
        && PoolKept(was, bag - multiset{tx}, save, drop + [tx], all)
    {
      assert tx.Hash().of == tx;
    }
  }

  lemma PutBack(was: multiset<Tx>, bag: multiset<Tx>, save: seq<Tx>, drop: seq<Tx>, all: map<Hash, Tx>)
    requires PoolKept(was, bag, save, drop, all)
    ensures PoolKept(was, bag + multiset(save), [], drop, all)
  {
  }

  /** A transaction that is pooled again while a stale entry of it is in the heap: the count
      says one stale entry although there is none, and an eviction of two entries then gives up
      one transaction only. */
  method PooledTwice(tx: Tx, others: seq<Tx>) returns (p: TxPricedList, items: seq<Tx>, stales: int, drop: seq<Tx>)
    requires |others| == 3 && forall i :: 0 <= i < 3 ==> Worse(tx, others[i]) && others[i] != tx
    requires forall i, j :: 0 <= i < j < 3 ==> others[i] != others[j]
    ensures stales == 1 && Stale(items, p.lookup.all) == []
    ensures p.Valid() && drop == [tx, tx] && p.out == {tx} && p.lost == 1
  {
    hide Balanced, H.IsHeap, PoolKept, TxPricedList.Valid, TxLookup.Valid, Worse, Stale, Single, LeastLeft;
    var txs := [tx] + others;
    assert tx == txs[0] && forall i :: 0 <= i < 3 ==> others[i] == txs[i + 1];
    p := Fill(txs);
    PoolAgain(p, p.lookup, tx);
    stales, items := p.stales, p.items;
    EntriesAgain(items, txs, tx, p.lookup.all);
    drop := p.Discard(2, {});
    assert txs[0] in txs && txs[1] in txs && txs[0].Hash() in p.lookup.all && txs[1].Hash() in p.lookup.all;
    assert |drop| == 2 by { TwoOf(drop, txs[0], txs[1]); }
    BothDropped(multiset(items), multiset(p.items), drop, p.lookup.all, tx, others);
    assert p.out == {tx};
  }

  lemma {:induction false} NoneStale(items: seq<Tx>, all: map<Hash, Tx>)
    requires forall tx :: tx in items ==> tx.Hash() in all
    ensures Stale(items, all) == []
    decreases |items|
  {
    if items != [] {
      NoneStale(items[1..], all);
    }
  }

  lemma EntriesAgain(items: seq<Tx>, txs: seq<Tx>, tx: Tx, all: map<Hash, Tx>)
    requires |txs| > 0 && txs[0] == tx && forall i :: 0 < i < |txs| ==> txs[i] != tx
    requires multiset(items) == multiset(txs) + multiset{tx} && forall h :: h in all <==> h.of in txs
    ensures multiset(items)[tx] == 2 && Stale(items, all) == []
  {
    OneOf(txs, tx);
    forall x | x in items ensures x.Hash() in all {
      assert x in multiset(items) && x.Hash().of == x;
    }
    NoneStale(items, all);
  }

  lemma TwoOf(s: seq<Tx>, a: Tx, b: Tx)
    requires a != b
    ensures a in s && b in s ==> |s| >= 2
  {
  }

  lemma OneOf(txs: seq<Tx>, tx: Tx)
    requires |txs| > 0 && txs[0] == tx && forall i :: 0 < i < |txs| ==> txs[i] != tx
    ensures multiset(txs)[tx] == 1
  {
    assert txs == [tx] + txs[1..] && tx !in txs[1..];
  }

  /** A heap and lookup with the given transactions. */
  method Fill(txs: seq<Tx>) returns (p: TxPricedList)
    requires forall i, j :: 0 <= i < j < |txs| ==> txs[i] != txs[j]
    ensures fresh(p) && fresh(p.lookup) && p.Valid() && p.out == {} && p.stales == 0 && p.lost == 0
    ensures multiset(p.items) == multiset(txs) && |p.items| == |txs| && forall h :: h in p.lookup.all <==> h.of in txs
  {
    hide Balanced, H.IsHeap;
    var lookup := new TxLookup();
    p := new TxPricedList(lookup);
    for i := 0 to |txs|
      invariant fresh(lookup) && fresh(p) && p.lookup == lookup && p.Valid() && p.out == {} && p.stales == 0
        && p.lost == 0
      invariant multiset(p.items) == multiset(txs[..i]) && |p.items| == i
      invariant forall h :: h in lookup.all <==> h.of in txs[..i]
    {
      assert txs[..i + 1] == txs[..i] + [txs[i]] && txs[i] !in txs[..i] && txs[i].Hash().of == txs[i];
      assert (lookup.all[txs[i].Hash() := txs[i]]) - {txs[i].Hash()} == lookup.all;
      lookup.Add(txs[i]);
      p.Put(txs[i]);
      BagSize(p.items, txs[..i + 1]);
    }
    assert txs[..|txs|] == txs;
  }

  lemma BagSize(a: seq<Tx>, b: seq<Tx>)
    requires multiset(a) == multiset(b)
    ensures |a| == |b|
  {
    assert |multiset(a)| == |a| && |multiset(b)| == |b|;
  }

  /** Removes a pooled transaction, which leaves a stale entry, and pools it again. */
  method PoolAgain(p: TxPricedList, lookup: TxLookup, tx: Tx)
    requires p.lookup == lookup && p.Valid() && p.out == {} && tx.Hash() in lookup.all
    requires p.stales + 1 <= |p.items| / 4
    modifies p, lookup
    ensures p.Valid() && p.out == {} && p.stales == old(p.stales) + 1 && p.lost == old(p.lost)
    ensures lookup.all == old(lookup.all) && multiset(p.items) == multiset(old(p.items)) + multiset{tx}
  {
    hide Balanced, H.IsHeap;
    BalancedRemove(multiset(p.items), lookup.all, p.stales, p.puts, p.lost, tx.Hash());
    lookup.Remove(tx.Hash());
    p.Removed();
    assert lookup.all[tx.Hash() := tx] - {tx.Hash()} == lookup.all;
    assert lookup.all[tx.Hash() := tx] == old(lookup.all);
    lookup.Add(tx);
    p.Put(tx);
  }

  lemma BothDropped(was: multiset<Tx>, bag: multiset<Tx>, drop: seq<Tx>, all: map<Hash, Tx>, tx: Tx, others: seq<Tx>)
    requires tx.Hash() in all && was[tx] == 2 && PoolKept(was, bag, [], drop, all) && |drop| == 2
    requires forall d :: d in drop ==> d == tx || d in others
    requires forall i :: 0 <= i < |others| ==> Worse(tx, others[i])
    requires LeastLeft(bag, drop, {})
    ensures drop == [tx, tx]
  {
    assert bag[tx.Hash().of] + multiset(drop)[tx.Hash().of] == 2;
    assert drop == [drop[0], drop[1]] && drop[0] in drop && drop[1] in drop;
    assert multiset(drop)[tx] < 2 ==> tx in bag;
  }

  /** The lookup's transactions, as ranging over it yields them. */
  method Range(all: map<Hash, Tx>) returns (s: seq<Tx>)
    requires forall h :: h in all ==> all[h] == h.of
    ensures |s| == |all|
    ensures forall tx: Tx :: multiset(s)[tx] == if tx.Hash() in all then 1 else 0
  {
    s := [];
    var rest := all.Keys;
    while rest != {}
      invariant rest <= all.Keys && |s| + |rest| == |all|
      invariant forall tx: Tx :: multiset(s)[tx] == if tx.Hash() in all && tx.Hash() !in rest then 1 else 0
      decreases |rest|
    {
      var h :| h in rest;
      s := s + [all[h]];
      rest := rest - {h};
    }
  }
}
