/** A table of transaction lists by account, as the pool keeps one for pending
    and one for queued transactions. Lists are objects updated in place; `View`
    is what they hold. */
module ListTables {
  import opened Options
  import opened Transactions
  import opened TxLists
  import TxSortedMaps

  type Lists = map<Address, NonceMap>

  /** The transactions of an account, none if it has no list. */
  function Of(v: Lists, a: Address): NonceMap {
    if a in v then v[a] else map[]
  }

  /** The list of an account after a change; empty lists are dropped. */
  function Upd(v: Lists, a: Address, m: NonceMap): Lists {
    if m == map[] then v - {a} else v[a := m]
  }

  ghost function Sum(f: map<Address, nat>): nat
    decreases |f|
  {
    if f == map[] then 0 else
      var a :| a in f;
      assert |f - {a}| < |f| by { assert f.Keys == (f - {a}).Keys + {a}; }
      f[a] + Sum(f - {a})
  }

  lemma {:induction false} SumWithout(f: map<Address, nat>, a: Address)
    requires a in f
    ensures Sum(f) == f[a] + Sum(f - {a})
    decreases |f|
  {
    var b :| b in f && Sum(f) == f[b] + Sum(f - {b});
    if a != b {
      assert |f - {b}| < |f| by { assert f.Keys == (f - {b}).Keys + {b}; }
      SumWithout(f - {b}, a);
      assert |f - {a}| < |f| by { assert f.Keys == (f - {a}).Keys + {a}; }
      SumWithout(f - {a}, b);
      assert f - {a} - {b} == f - {b} - {a};
    }
  }

  ghost function Sizes(v: Lists): map<Address, nat> {
    map a | a in v :: |v[a]|
  }

  /** The number of transactions in all lists. */
  ghost function Total(v: Lists): nat {
    Sum(Sizes(v))
  }

  lemma TotalWithout(v: Lists, a: Address)
    requires a in v
    ensures Total(v) == |v[a]| + Total(v - {a})
  {
    hide Sum;
    SumWithout(Sizes(v), a);
    assert Sizes(v) - {a} == Sizes(v - {a});
  }

  lemma TotalNone()
    ensures Total(map[]) == 0
  {
    assert Sizes(map[]) == map[];
  }

  lemma WithoutUpdated(v: Lists, a: Address, m: NonceMap)
    ensures v[a := m] - {a} == v - {a} && (a !in v ==> v - {a} == v)
  {
  }

  lemma TotalUpdate(v: Lists, a: Address, m: NonceMap)
    ensures Total(v[a := m]) == Total(v) - |Of(v, a)| + |m|
  {
    hide Total, Sizes;
    var w := v[a := m];
    WithoutUpdated(v, a, m);
    TotalWithout(w, a);
    if a in v {
      TotalWithout(v, a);
    }
  }

  lemma NewAccepted(tx: Tx, priceBump: nat)
    ensures Accepts(map[], tx, priceBump)
  {
  }

  class ListTable {
    const strict: bool
    var lists: map<Address, TxList>
    ghost var Repr: set<object>

    ghost predicate Valid()
      reads this, Repr
      ensures Valid() ==> this in Repr
    {
      && this in Repr
      && (forall a :: a in lists ==> lists[a] in Repr && lists[a].txs in Repr)
      && (forall a :: a in lists ==> lists[a].strict == strict && lists[a].Valid())
      && (forall a, b :: a in lists && b in lists && a != b ==>
           lists[a] != lists[b] && lists[a].txs != lists[b].txs)
    }

    ghost function View(): Lists
      requires Valid()
      reads this, Repr
    {
      map a | a in lists :: lists[a].Items()
    }

    lemma Domain(a: Address)
      requires Valid()
      ensures a in View() <==> a in lists
    {
    }

    constructor (strict: bool)
      ensures Valid() && fresh(Repr) && this.strict == strict && View() == map[]
    {
      this.strict, lists, Repr := strict, map[], {this};
    }

    predicate Overlaps(tx: Tx)
      requires Valid()
      reads this, Repr
      ensures Overlaps(tx) <==> tx.nonce in Of(View(), tx.from)
    {
      tx.from in lists && lists[tx.from].Overlaps(tx)
    }

    function Len(a: Address): (n: nat)
      requires Valid() && a in lists
      reads this, Repr
      ensures a in View() && n == |View()[a]|
    {
      lists[a].Len()
    }

    predicate HasNonce(a: Address, nonce: nat)
      requires Valid() && a in lists
      reads this, Repr
      ensures a in View() && (HasNonce(a, nonce) <==> nonce in View()[a])
    {
      lists[a].txs.Get(nonce) != None
    }

    /** The number of transactions in all lists. */
    method Count() returns (count: nat)
      requires Valid()
      ensures count == Total(View())
    {
      hide ListTable.Valid, Total;
      count := 0;
      var rest := lists.Keys;
      ghost var done: Lists := map[];
      TotalNone();
      while rest != {}
        invariant rest <= lists.Keys && count == Total(done)
        invariant forall a :: a in done <==> a in lists && a !in rest
        invariant forall a :: a in done ==> done[a] == View()[a]
        decreases |rest|
      {
        var a :| a in rest;
        TotalUpdate(done, a, View()[a]);
        done := done[a := View()[a]];
        count := count + Len(a);
        rest := rest - {a};
      }
      assert done == View();
    }

    /** Gives an account without a list an empty one. */
    method Open(a: Address)
      requires Valid() && a !in lists
      modifies this
      ensures Valid() && fresh(Repr - old(Repr)) && View() == old(View())[a := map[]] && a in lists
    {
      hide TxSortedMaps.TxSortedMap.Valid, TxList.Valid;
      var list := new TxList(strict);
      Enlist(a, list);
    }

    method Enlist(a: Address, list: TxList)
      requires Valid() && a !in lists && list.Valid() && list.strict == strict && list.Items() == map[]
      requires list !in Repr && list.txs !in Repr
      modifies this
      ensures Valid() && Repr == old(Repr) + {list, list.txs} && View() == old(View())[a := map[]] && a in lists
    {
      hide TxSortedMaps.TxSortedMap.Valid, TxList.Valid;
      lists := lists[a := list];
      Repr := Repr + {list, list.txs};
    }

    method AddTo(tx: Tx, priceBump: nat) returns (inserted: bool, replaced: Option<Tx>)
      requires Valid() && tx.from in lists
      modifies Repr
      ensures Valid() && Repr == old(Repr)
      ensures inserted == Accepts(old(View())[tx.from], tx, priceBump)
      ensures inserted ==> View() == old(View())[tx.from := Plus(old(View())[tx.from], tx)]
      ensures !inserted ==> View() == old(View()) && replaced == None
      ensures inserted ==> replaced == AtNonceOf(old(View())[tx.from], tx)
    {
      hide TxSortedMaps.TxSortedMap.Valid, TxList.Valid, Accepts;
      inserted, replaced := lists[tx.from].Add(tx, priceBump);
    }

    /** Adds to the sender's list, which is created if there is none. */
    method Add(tx: Tx, priceBump: nat) returns (inserted: bool, replaced: Option<Tx>)
      requires Valid()
      modifies Repr
      ensures Valid() && fresh(Repr - old(Repr))
      ensures inserted == Accepts(Of(old(View()), tx.from), tx, priceBump)
      ensures inserted ==> View() == old(View())[tx.from := Plus(Of(old(View()), tx.from), tx)]
      ensures !inserted ==> View() == old(View()) && replaced == None
      ensures inserted ==> replaced == AtNonceOf(Of(old(View()), tx.from), tx)
    {
      hide ListTable.Valid, ListTable.View, Accepts;
      Domain(tx.from);
      NewAccepted(tx, priceBump);
      if tx.from !in lists {
        Open(tx.from);
      }
      ghost var m := Plus(Of(old(View()), tx.from), tx);
      assert View()[tx.from := m] == old(View())[tx.from := m];
      inserted, replaced := AddTo(tx, priceBump);
    }

    method Forward(a: Address, threshold: nat) returns (removed: seq<Tx>)
      requires Valid() && a in lists
      modifies Repr
      ensures Valid() && Repr == old(Repr) && lists == old(lists)
      ensures View() == old(View())[a := AtLeast(old(View())[a], threshold)]
      ensures SortedOf(removed, Below(old(View())[a], threshold))
    {
      hide TxSortedMaps.TxSortedMap.Valid, TxList.Valid, Below, AtLeast, SortedOf;
      removed := lists[a].Forward(threshold);
    }

    method Filter(a: Address, costLimit: int, gasLimit: nat) returns (removed: seq<Tx>, invalids: seq<Tx>)
      requires Valid() && a in lists
      modifies Repr
      ensures Valid() && Repr == old(Repr) && lists == old(lists)
      ensures View() == old(View())[a := Filtered(strict, old(View())[a], Unpayable(costLimit, gasLimit))]
      ensures Enumerates(removed, Matching(old(View())[a], Unpayable(costLimit, gasLimit)))
      ensures Distinct(invalids) && forall tx :: tx in invalids <==>
        Has(old(View())[a], tx) && !Has(View()[a], tx) && !Unpayable(costLimit, gasLimit).Selects(tx)
    {
      hide TxSortedMaps.TxSortedMap.Valid, TxList.Valid, Filtered, Matching, Enumerates, Distinct;
      hide Criterion.Selects, Has;
      removed, invalids := lists[a].Filter(costLimit, gasLimit);
    }

    method Cap(a: Address, threshold: nat) returns (drops: seq<Tx>)
      requires Valid() && a in lists
      modifies Repr
      ensures Valid() && Repr == old(Repr) && lists == old(lists)
      ensures a in View() && View() == old(View())[a := View()[a]]
      ensures Lowest(View()[a], old(View())[a], threshold)
      ensures Split(old(View())[a], View()[a], drops)
    {
      hide TxSortedMaps.TxSortedMap.Valid, TxList.Valid;
      drops := lists[a].Cap(threshold);
    }

    method Remove(tx: Tx) returns (found: bool, invalids: seq<Tx>)
      requires Valid() && tx.from in lists
      modifies Repr
      ensures Valid() && Repr == old(Repr) && lists == old(lists)
      ensures found == (tx.nonce in old(View())[tx.from])
      ensures !found ==> View() == old(View())
      ensures found ==> View() == old(View())[tx.from := Without(strict, old(View())[tx.from], tx.nonce)]
      ensures found && strict ==> Enumerates(invalids, AtLeast(old(View())[tx.from], tx.nonce + 1))
      ensures !(found && strict) ==> invalids == []
    {
      hide TxSortedMaps.TxSortedMap.Valid, TxList.Valid;
      found, invalids := lists[tx.from].Remove(tx);
    }

    method Ready(a: Address, start: nat) returns (ready: seq<Tx>)
      requires Valid() && a in lists
      modifies Repr
      ensures Valid() && Repr == old(Repr) && lists == old(lists)
      ensures View() == old(View())[a := AtLeast(old(View())[a], ReadyCut(old(View())[a], start))]
      ensures SortedOf(ready, Below(old(View())[a], ReadyCut(old(View())[a], start)))
    {
      hide TxSortedMaps.TxSortedMap.Valid, TxList.Valid, Below, AtLeast, SortedOf, ReadyCut;
      ready := lists[a].Ready(start);
    }

    method Flatten(a: Address) returns (txs: seq<Tx>)
      requires Valid() && a in lists
      modifies Repr
      ensures Valid() && Repr == old(Repr) && lists == old(lists)
      ensures View() == old(View()) && SortedOf(txs, View()[a])
    {
      hide TxSortedMaps.TxSortedMap.Valid, TxList.Valid, SortedOf;
      txs := lists[a].Flatten();
    }

    /** Removes by nonce and deletes the list if nothing is left of it. */
    method RemoveAndPrune(tx: Tx) returns (found: bool, invalids: seq<Tx>)
      requires Valid() && tx.from in lists
      modifies Repr
      ensures Valid() && Repr == old(Repr)
      ensures found == (tx.nonce in old(View())[tx.from])
      ensures !found ==> View() == old(View()) && invalids == []
      ensures found ==> View() == Upd(old(View()), tx.from, Without(strict, old(View())[tx.from], tx.nonce))
      ensures found && strict ==> Enumerates(invalids, AtLeast(old(View())[tx.from], tx.nonce + 1))
    {
      hide ListTable.Valid, ListTable.View;
      Domain(tx.from);
      found, invalids := Remove(tx);
      if found && Len(tx.from) == 0 {
        Delete(tx.from);
      }
    }

    method Delete(a: Address)
      requires Valid()
      modifies this
      ensures Valid() && Repr == old(Repr) && View() == old(View()) - {a} && lists == old(lists) - {a}
    {
      hide TxSortedMaps.TxSortedMap.Valid, TxList.Valid;
      lists := lists - {a};
    }
  }
}
