/** The nonce-sorted transaction map of one account: a map, a heap of its nonces
    and a lazily built sorted listing. */
module TxSortedMaps {
  import opened Options
  import opened Transactions
  import H = BinaryHeap

  function LessNonce(a: nat, b: nat): bool { a < b }

  function LessTx(a: Tx, b: Tx): bool { a.nonce < b.nonce }

  ghost predicate InOrder<T(!new)>(r: seq<T>, less: (T, T) -> bool) {
    forall i, j :: 0 <= i < j < |r| ==> !less(r[j], r[i])
  }

  ghost predicate AllAfter<T(!new)>(bag: multiset<T>, r: seq<T>, less: (T, T) -> bool) {
    forall i, x :: 0 <= i < |r| && x in bag ==> !less(x, r[i])
  }

  lemma NextInOrder<T(!new)>(r: seq<T>, bag: multiset<T>, x: T, less: (T, T) -> bool)
    requires InOrder(r, less) && AllAfter(bag, r, less) && x in bag && forall y :: y in bag ==> !less(y, x)
    ensures InOrder(r + [x], less) && AllAfter(bag - multiset{x}, r + [x], less)
  {
  }

  /** Go's sort.Sort: the elements of `s` in order. */
  method Sort<T(!new)>(s: seq<T>, less: (T, T) -> bool) returns (r: seq<T>)
    requires H.Ordering(less)
    ensures multiset(r) == multiset(s) && |r| == |s| && InOrder(r, less)
  {
    hide H.IsHeap, H.Ordering, InOrder, AllAfter;
    var h := H.Init(s, less);
    r := [];
    NoneInOrder(multiset(h), less);
    while h != []
      invariant H.IsHeap(h, less)
      invariant multiset(r) + multiset(h) == multiset(s) && |r| + |h| == |s|
      invariant InOrder(r, less) && AllAfter(multiset(h), r, less)
      decreases |h|
    {
      var x;
      ghost var before := h;
      x, h := H.Pop(h, less);
      assert x in multiset(before);
      assert forall y :: y in multiset(before) ==> y in before;
      NextInOrder(r, multiset(before), x, less);
      r := r + [x];
    }
  }

  lemma NoneInOrder<T(!new)>(bag: multiset<T>, less: (T, T) -> bool)
    ensures InOrder([], less) && AllAfter(bag, [], less)
  {
  }

  /** `index` holds every nonce of `items` exactly once, and nothing else. */
  ghost predicate Indexes(index: seq<nat>, items: NonceMap) {
    forall n: nat :: multiset(index)[n] == if n in items then 1 else 0
  }

  lemma IndexMembers(index: seq<nat>, items: NonceMap)
    requires Indexes(index, items)
    ensures forall n :: n in index <==> n in items
  {
    forall n ensures n in index <==> n in items {
      assert n in index <==> n in multiset(index);
    }
  }

  lemma LeastNonce(index: seq<nat>, items: NonceMap)
    requires H.IsHeap(index, LessNonce) && Indexes(index, items) && index != []
    ensures index[0] in items && forall n :: n in items ==> index[0] <= n
  {
    IndexMembers(index, items);
    assert index[0] in index;
    forall n | n in items ensures index[0] <= n {
      var k :| 0 <= k < |index| && index[k] == n;
      H.RootIsLeast(index, LessNonce, k);
    }
  }

  lemma {:induction false} IndexSize(index: seq<nat>, items: NonceMap)
    requires Indexes(index, items)
    ensures |index| == |items|
    decreases |index|
  {
    IndexMembers(index, items);
    if index == [] {
      assert items == map[];
    } else {
      var n := index[|index| - 1];
      assert index == index[..|index| - 1] + [n];
      assert n in index;
      IndexSize(index[..|index| - 1], items - {n});
      assert items.Keys == (items - {n}).Keys + {n};
    }
  }

  /** The nonces of a map, as ranging over it yields them. */
  method Nonces(m: NonceMap) returns (s: seq<nat>)
    ensures Indexes(s, m)
  {
    s := [];
    var rest := m.Keys;
    while rest != {}
      invariant rest <= m.Keys
      invariant forall n: nat :: multiset(s)[n] == if n in m && n !in rest then 1 else 0
      decreases |rest|
    {
      var n :| n in rest;
      s := s + [n];
      rest := rest - {n};
    }
  }

  ghost predicate NonDecreasing(ix: seq<nat>) {
    forall i, j :: 0 <= i < j < |ix| ==> !LessNonce(ix[j], ix[i])
  }

  /** Taking the last nonce off a sorted index takes the highest nonce off the map. */
  lemma HighestLast(ix: seq<nat>, m: NonceMap)
    requires Indexes(ix, m) && NonDecreasing(ix) && ix != []
    ensures var n := ix[|ix| - 1];
      n in m && m - {n} == Below(m, n) && Indexes(ix[..|ix| - 1], m - {n})
    ensures NonDecreasing(ix[..|ix| - 1])
    ensures Below(m, ix[|ix| - 1] + 1) == m
  {
    hide Indexes;
    var n := ix[|ix| - 1];
    LastIsGreatest(ix, m);
    IndexInit(ix, m);
  }

  lemma IndexInit(ix: seq<nat>, m: NonceMap)
    requires Indexes(ix, m) && ix != []
    ensures Indexes(ix[..|ix| - 1], m - {ix[|ix| - 1]})
  {
    var n, init: seq<nat> := ix[|ix| - 1], ix[..|ix| - 1];
    assert ix == init + [n];
    assert multiset(ix)[n] == multiset(init)[n] + 1;
    var rest := m - {n};
    forall k: nat ensures multiset(init)[k] == if k in rest then 1 else 0 {
      assert multiset(ix)[k] == if k in m then 1 else 0;
    }
  }

  lemma LastIsGreatest(ix: seq<nat>, m: NonceMap)
    requires Indexes(ix, m) && NonDecreasing(ix) && ix != []
    ensures ix[|ix| - 1] in m && forall k :: k in m ==> k <= ix[|ix| - 1]
  {
    IndexMembers(ix, m);
    assert ix[|ix| - 1] in ix;
    forall k | k in m ensures k <= ix[|ix| - 1] {
      var i :| 0 <= i < |ix| && ix[i] == k;
    }
  }

  /** Splits a map into the transactions a filter selects and the others. */
  method Partition(m: NonceMap, filter: Criterion) returns (removed: seq<Tx>, kept: NonceMap)
    requires Keyed(m)
    ensures kept == Others(m, filter) && Enumerates(removed, Matching(m, filter))
  {
    hide Criterion.Selects;
    removed, kept := [], m;
    var rest := m.Keys;
    while rest != {}
      invariant rest <= m.Keys && Split(m, kept, removed)
      invariant forall n :: n in kept <==> n in m && (n in rest || !filter.Selects(m[n]))
      invariant forall n :: n in kept ==> kept[n] == m[n]
      decreases |rest|
    {
      var nonce :| nonce in rest;
      if filter.Selects(m[nonce]) {
        SplitStep(m, kept, removed, nonce);
        removed := removed + [m[nonce]];
        kept := kept - {nonce};
      }
      rest := rest - {nonce};
    }
    assert kept == Others(m, filter);
    SplitMatching(m, filter, removed);
  }

  lemma SplitMatching(m: NonceMap, c: Criterion, removed: seq<Tx>)
    requires Keyed(m) && Split(m, Others(m, c), removed)
    ensures Enumerates(removed, Matching(m, c))
  {
    hide Criterion.Selects;
    forall tx ensures tx in removed <==> Has(Matching(m, c), tx) {
      assert tx in removed <==> Has(m, tx) && !Has(Others(m, c), tx);
    }
  }

  lemma NothingMatches(m: NonceMap, filter: Criterion)
    requires Keyed(m) && Enumerates([], Matching(m, filter))
    ensures Others(m, filter) == m
  {
    hide Criterion.Selects;
    forall n | n in m ensures !filter.Selects(m[n]) {
      assert m[n] !in [] && !Has(Matching(m, filter), m[n]);
    }
  }

  /** Removes transactions from the highest nonce down until `threshold` are left. */
  method DropHighest(m: NonceMap, index: seq<nat>, threshold: nat)
      returns (drops: seq<Tx>, kept: NonceMap, ix: seq<nat>, ghost cut: nat)
    requires Keyed(m) && Indexes(index, m) && NonDecreasing(index) && threshold < |m|
    ensures kept == Below(m, cut) && |kept| == threshold && Indexes(ix, kept)
    ensures Split(m, kept, drops) && |drops| == |m| - |kept|
  {
    drops, kept, ix := [], m, index;
    IndexSize(ix, kept);
    HighestLast(ix, kept);
    cut := ix[|ix| - 1] + 1;
    while |kept| > threshold
      invariant Indexes(ix, kept) && NonDecreasing(ix) && |ix| == |kept| >= threshold
      invariant Keyed(kept) && kept == Below(m, cut)
      invariant Split(m, kept, drops) && |drops| == |m| - |kept|
    {
      HighestLast(ix, kept);
      var nonce := ix[|ix| - 1];
      SplitStep(m, kept, drops, nonce);
      BelowBelow(m, cut, nonce);
      drops := drops + [kept[nonce]];
      kept, ix := kept - {nonce}, ix[..|ix| - 1];
      cut := nonce;
    }
  }

  method Find(index: seq<nat>, nonce: nat) returns (i: nat)
    requires nonce in index
    ensures i < |index| && index[i] == nonce
  {
    i := 0;
    while index[i] != nonce
      invariant i < |index| && nonce in index[i..]
      decreases |index| - i
    {
      i := i + 1;
    }
  }

  lemma NoneBelow(items: NonceMap, lo: nat)
    requires forall n :: n in items ==> n >= lo
    ensures SortedOf([], Below(items, lo)) && AtLeast(items, lo) == items
  {
    assert Below(items, lo) == map[];
  }

  lemma NotReady(items: NonceMap, start: nat)
    requires forall n :: n in items ==> n > start
    ensures ReadyCut(items, start) == 0
  {
  }

  lemma ReadyUpTo(items: NonceMap, lo: nat, next: nat, start: nat)
    requires lo in items && lo <= start && lo <= next && (forall n :: n in items ==> n >= lo)
    requires next !in items && forall n :: lo <= n < next ==> n in items
    ensures ReadyCut(items, start) == next
  {
    RunEndUnique(items, lo, next);
  }

  class TxSortedMap {
    var items: NonceMap
    var index: seq<nat>
    var cache: Option<seq<Tx>>

    /** The heap is a duplicate-free heap of exactly the map's nonces. */
    ghost predicate Indexed()
      reads this
    {
      Keyed(items) && H.IsHeap(index, LessNonce) && Indexes(index, items)
    }

    ghost predicate Valid()
      reads this
    {
      && Indexed()
      && (cache.Some? ==> SortedOf(cache.value, items))
    }

    constructor ()
      ensures Valid() && items == map[]
    {
      items, index, cache := map[], [], None;
    }

    function Get(nonce: nat): (r: Option<Tx>)
      reads this
      ensures r == None <==> nonce !in items
      ensures r.Some? ==> nonce in items && r.value == items[nonce]
    {
      if nonce in items then Some(items[nonce]) else None
    }

    method Put(tx: Tx)
      requires Valid()
      modifies this
      ensures Valid() && items == old(items)[tx.nonce := tx]
    {
      if Get(tx.nonce) == None {
        index := H.Push(index, LessNonce, tx.nonce);
      }
      items, cache := items[tx.nonce := tx], None;
    }

    /** Takes the transaction with the lowest nonce out of the map and the heap. */
    method TakeLeast() returns (tx: Tx)
      requires Indexed() && index != []
      modifies this`items, this`index
      ensures Indexed() && |index| == |old(index)| - 1
      ensures Has(old(items), tx) && items == old(items) - {tx.nonce}
      ensures tx.nonce == old(index[0]) && forall n :: n in old(items) ==> tx.nonce <= n
    {
      LeastNonce(index, items);
      var nonce;
      nonce, index := H.Pop(index, LessNonce);
      tx := items[nonce];
      items := items - {nonce};
    }

    /** Drops every transaction below the threshold and returns them by nonce. */
    method Forward(threshold: nat) returns (removed: seq<Tx>)
      requires Valid()
      modifies this
      ensures Valid() && items == AtLeast(old(items), threshold)
      ensures SortedOf(removed, Below(old(items), threshold))
    {
      hide H.IsHeap, H.Ordering, Indexes, SortedOf;
      removed := [];
      NoneBelow(items, 0);
      ghost var cut: nat := 0;
      while |index| > 0 && index[0] < threshold
        invariant Indexed() && cache == old(cache) && cut <= threshold
        invariant items == AtLeast(old(items), cut)
        invariant SortedOf(removed, Below(old(items), cut))
        decreases |index|
      {
        var tx := TakeLeast();
        SortedExtend(removed, old(items), cut, tx.nonce);
        removed := removed + [tx];
        cut := tx.nonce + 1;
      }
      if index != [] {
        LeastNonce(index, items);
      } else {
        IndexMembers(index, items);
      }
      forall n | n in old(items) && cut <= n ensures n >= threshold {
        assert n in items;
      }
      assert Below(old(items), cut) == Below(old(items), threshold) && items == AtLeast(old(items), threshold);
      if cache.Some? {
        SortedSplit(cache.value, old(items), threshold, removed);
        cache := Some(cache.value[|removed|..]);
      }
    }
  
    /** Drops every transaction that the filter selects. */
    method Filter(filter: Criterion) returns (removed: seq<Tx>)
      requires Valid()
      modifies this
      ensures Valid() && items == Others(old(items), filter)
      ensures Enumerates(removed, Matching(old(items), filter))
    {
      removed, items := Partition(items, filter);
      if |removed| > 0 {
        index := Nonces(items);
        index := H.Init(index, LessNonce);
        cache := None;
      } else {
        NothingMatches(old(items), filter);
      }
    }

    /** Keeps at most `threshold` transactions, those of lowest nonce. */
    method Cap(threshold: nat) returns (drops: seq<Tx>)
      requires Valid()
      modifies this
      ensures Valid() && Lowest(items, old(items), threshold)
      ensures Split(old(items), items, drops)
    {
      drops := [];
      if |items| <= threshold {
        return;
      }
      index := Sort(index, LessNonce);
      ghost var cut;
      drops, items, index, cut := DropHighest(items, index, threshold);
      index := H.Init(index, LessNonce);
      if cache.Some? {
        SortedTake(cache.value, old(items), cut);
        SortedLength(cache.value, old(items));
        cache := Some(cache.value[..|cache.value| - |drops|]);
      }
    }

    /** Removes one nonce; reports whether it was there. */
    method Remove(nonce: nat) returns (found: bool)
      requires Valid()
      modifies this
      ensures Valid() && found == (nonce in old(items)) && items == old(items) - {nonce}
    {
      if nonce !in items {
        return false;
      }
      IndexMembers(index, items);
      var i := Find(index, nonce);
      index := H.RemoveAt(index, LessNonce, i);
      items := items - {nonce};
      cache := None;
      return true;
    }

    /** Takes out the consecutive run that starts at the lowest nonce, when that
        nonce is not beyond `start`. */
    method Ready(start: nat) returns (ready: seq<Tx>)
      requires Valid()
      modifies this
      ensures Valid()
      ensures items == AtLeast(old(items), ReadyCut(old(items), start))
      ensures SortedOf(ready, Below(old(items), ReadyCut(old(items), start)))
    {
      hide H.IsHeap, H.Ordering, Indexes, SortedOf;
      ready := [];
      NoneBelow(items, 0);
      if |index| == 0 {
        IndexMembers(index, items);
        NotReady(items, start);
        return;
      }
      LeastNonce(index, items);
      if index[0] > start {
        NotReady(items, start);
        return;
      }
      ghost var lo := index[0];
      var next := index[0];
      NoneBelow(items, lo);
      while |index| > 0 && index[0] == next
        invariant Indexed() && lo <= next
        invariant items == AtLeast(old(items), next)
        invariant SortedOf(ready, Below(old(items), next))
        invariant forall n :: lo <= n < next ==> n in old(items)
        decreases |index|
      {
        var tx := TakeLeast();
        SortedExtend(ready, old(items), next, tx.nonce);
        ready := ready + [tx];
        next := next + 1;
      }
      if |index| > 0 {
        LeastNonce(index, items);
      } else {
        IndexMembers(index, items);
      }
      assert next !in AtLeast(old(items), next);
      ReadyUpTo(old(items), lo, next, start);
      cache := None;
    }

    function Len(): (n: nat)
      reads this
    {
      |items|
    }

    /** The contents by increasing nonce, cached for the next time. */
    method Flatten() returns (txs: seq<Tx>)
      requires Valid()
      modifies this`cache
      ensures Valid() && SortedOf(txs, items)
    {
      if cache == None {
        var all, _ := Partition(items, Any);
        EnumeratesAll(all, items);
        var sorted := Sort(all, LessTx);
        SortYieldsListing(all, sorted, items);
        cache := Some(sorted);
      }
      txs := cache.value;
    }
  }

  lemma EnumeratesAll(s: seq<Tx>, m: NonceMap)
    requires Enumerates(s, Matching(m, Any))
    ensures Enumerates(s, m)
  {
    assert Matching(m, Any) == m;
  }

  lemma DistinctUpToOrder(s: seq<Tx>, r: seq<Tx>, i: nat, j: nat)
    requires Distinct(s) && multiset(r) == multiset(s) && i < j < |r|
    ensures r[i] != r[j]
  {
    DistinctCount(s, r[i]);
    assert r == r[..j] + r[j..];
    assert r[..j][i] in multiset(r[..j]) && r[j..][0] in multiset(r[j..]);
  }

  lemma {:induction false} DistinctCount(s: seq<Tx>, tx: Tx)
    requires Distinct(s)
    ensures multiset(s)[tx] <= 1
    decreases |s|
  {
    if s != [] {
      var init, last := s[..|s| - 1], s[|s| - 1];
      assert s == init + [last];
      DistinctCount(init, tx);
      assert last !in init;
    }
  }

  /** Sorting an enumeration by nonce gives the sorted listing. */
  lemma SortYieldsListing(s: seq<Tx>, r: seq<Tx>, m: NonceMap)
    requires Enumerates(s, m) && Keyed(m) && multiset(r) == multiset(s) && |r| == |s|
    requires forall i, j :: 0 <= i < j < |r| ==> !LessTx(r[j], r[i])
    ensures SortedOf(r, m)
  {
    forall tx ensures tx in r <==> Has(m, tx) {
      assert tx in r <==> tx in multiset(r);
      assert tx in s <==> tx in multiset(s);
    }
    forall i, j | 0 <= i < j < |r| ensures r[i].nonce < r[j].nonce {
      DistinctUpToOrder(s, r, i, j);
      assert r[i] in r && r[j] in r;
    }
  }
}
