/** The transaction list of one account, strict (pending: no gaps wanted) or not
    (queue), with cached upper bounds on cost and gas. */
module TxLists {
  import opened Options
  import opened Transactions
  import opened TxSortedMaps

  /** A replacement must beat the old price, and by the required percentage. */
  predicate Accepts(m: NonceMap, tx: Tx, priceBump: nat) {
    tx.nonce in m ==>
      var was := m[tx.nonce].price;
      was < tx.price && was * (100 + priceBump) / 100 <= tx.price
  }

  /** The least price at which a transaction can be replaced. */
  function Raised(price: int, priceBump: nat): int {
    var threshold := price * (100 + priceBump) / 100;
    if threshold > price then threshold else price + 1
  }

  /** A new price is accepted exactly from the raised price on, which is more by the bump up to
      rounding. */
  lemma AcceptsMeans(m: NonceMap, tx: Tx, priceBump: nat)
    ensures Accepts(m, tx, priceBump) <==> tx.nonce !in m || tx.price >= Raised(m[tx.nonce].price, priceBump)
    ensures tx.nonce in m && Accepts(m, tx, priceBump) ==>
      m[tx.nonce].price < tx.price && 100 * tx.price > m[tx.nonce].price * (100 + priceBump) - 100
  {
  }

  /** Transactions that replace one another in turn. */
  ghost predicate Replacing(txs: seq<Tx>, priceBump: nat) {
    forall i :: 0 <= i < |txs| - 1 ==>
      txs[i + 1].nonce == txs[i].nonce && Accepts(map[txs[i].nonce := txs[i]], txs[i + 1], priceBump)
  }

  function RaisedTimes(price: int, priceBump: nat, k: nat): int {
    if k == 0 then price else Raised(RaisedTimes(price, priceBump, k - 1), priceBump)
  }

  /** After k replacements the price has been raised k times at least. */
  lemma {:induction false} ReplacementsRaise(txs: seq<Tx>, priceBump: nat, k: nat)
    requires Replacing(txs, priceBump) && k < |txs| && txs[0].price >= 0
    ensures txs[k].price >= RaisedTimes(txs[0].price, priceBump, k) >= txs[0].price + k
  {
    if k > 0 {
      ReplacementsRaise(txs, priceBump, k - 1);
      var was := txs[k - 1];
      assert txs[k - 1 + 1] == txs[k] && Accepts(map[was.nonce := was], txs[k], priceBump);
      AcceptsMeans(map[was.nonce := was], txs[k], priceBump);
      RaisedGrows(RaisedTimes(txs[0].price, priceBump, k - 1), was.price, priceBump);
    }
  }

  lemma RaisedGrows(low: int, high: int, priceBump: nat)
    requires 0 <= low <= high
    ensures low < Raised(low, priceBump) <= Raised(high, priceBump)
  {
    Multiplied(low, high, 100 + priceBump);
  }

  lemma Multiplied(low: int, high: int, k: nat)
    requires low <= high
    ensures low * k <= high * k
  {
  }

  /** What stays when the transactions matching `bad` are filtered out of a list:
      a strict list also gives up everything above the lowest of them. */
  ghost function Filtered(strict: bool, m: NonceMap, bad: Criterion): NonceMap {
    if strict && Matching(m, bad) != map[] then Below(m, Least(Matching(m, bad))) else Others(m, bad)
  }

  /** What stays when `nonce` is removed from a list that holds it. */
  function Without(strict: bool, m: NonceMap, nonce: nat): NonceMap {
    if strict then Below(m, nonce) else m - {nonce}
  }

  method LowestNonce(removed: seq<Tx>, ghost m: NonceMap) returns (lowest: nat)
    requires Enumerates(removed, m) && Keyed(m) && removed != []
    ensures m != map[] && lowest == Least(m)
  {
    lowest := removed[0].nonce;
    assert removed[0] in removed;
    for i := 1 to |removed|
      invariant exists k :: 0 <= k < i && removed[k].nonce == lowest
      invariant forall k :: 0 <= k < i ==> lowest <= removed[k].nonce
    {
      if lowest > removed[i].nonce {
        lowest := removed[i].nonce;
      }
    }
    var k :| 0 <= k < |removed| && removed[k].nonce == lowest;
    assert removed[k] in removed;
    assert Has(m, m[Least(m)]);
  }

  /** Dropping the unpayable ones and then everything above the lowest of them
      leaves what was below it. */
  lemma StrictFilter(m: NonceMap, bad: Criterion)
    requires Keyed(m) && Matching(m, bad) != map[]
    ensures var lowest := Least(Matching(m, bad));
      && Others(Others(m, bad), Above(lowest)) == Below(m, lowest)
      && forall tx :: Has(Matching(Others(m, bad), Above(lowest)), tx) <==>
           Has(m, tx) && !Has(Below(m, lowest), tx) && !bad.Selects(tx)
  {
    var lowest := Least(Matching(m, bad));
    forall n | n in m && n < lowest ensures !bad.Selects(m[n]) {
      assert n !in Matching(m, bad);
    }
    assert bad.Selects(m[lowest]);
    assert Others(Others(m, bad), Above(lowest)) == Below(m, lowest);
  }

  lemma RemoveAbove(m: NonceMap, nonce: nat, invalids: seq<Tx>)
    requires Keyed(m) && Enumerates(invalids, Matching(m - {nonce}, Above(nonce)))
    ensures Others(m - {nonce}, Above(nonce)) == Below(m, nonce)
    ensures Enumerates(invalids, AtLeast(m, nonce + 1))
  {
    var above := AtLeast(m, nonce + 1);
    assert Matching(m - {nonce}, Above(nonce)) == above;
    assert Enumerates(invalids, above);
  }

  ghost predicate Within(m: NonceMap, costcap: int, gascap: nat) {
    forall n :: n in m ==> m[n].Cost() <= costcap && m[n].gas <= gascap
  }

  lemma OthersWithin(m: NonceMap, costLimit: int, gasLimit: nat)
    ensures Within(Others(m, Unpayable(costLimit, gasLimit)), costLimit, gasLimit)
  {
    var bad := Unpayable(costLimit, gasLimit);
    forall n | n in Others(m, bad) ensures m[n].Cost() <= costLimit && m[n].gas <= gasLimit {
      assert !bad.Selects(m[n]);
    }
  }

  lemma WithinSubset(r: NonceMap, m: NonceMap, costcap: int, gascap: nat)
    requires Within(m, costcap, gascap) && r.Keys <= m.Keys && forall n :: n in r ==> r[n] == m[n]
    ensures Within(r, costcap, gascap)
  {
  }

  lemma WithinNoneUnpayable(m: NonceMap, costLimit: int, gasLimit: nat)
    requires Within(m, costLimit, gasLimit)
    ensures Matching(m, Unpayable(costLimit, gasLimit)) == map[]
    ensures Others(m, Unpayable(costLimit, gasLimit)) == m
  {
  }

  class TxList {
    const strict: bool
    const txs: TxSortedMap
    var costcap: int
    var gascap: nat

    ghost predicate Valid()
      reads this, txs
    {
      && txs.Valid()
      && Within(txs.items, costcap, gascap)
    }

    ghost function Items(): NonceMap
      reads this, txs
    {
      txs.items
    }

    constructor (strict: bool)
      ensures Valid() && Items() == map[] && this.strict == strict && fresh(txs) && costcap == 0 == gascap
    {
      this.strict, costcap, gascap := strict, 0, 0;
      txs := new TxSortedMap();
    }

    predicate Overlaps(tx: Tx)
      reads this, txs
    {
      txs.Get(tx.nonce) != None
    }

    method Add(tx: Tx, priceBump: nat) returns (inserted: bool, replaced: Option<Tx>)
      requires Valid()
      modifies this, txs
      ensures Valid() && inserted == Accepts(old(Items()), tx, priceBump)
      // a replacement costs more, and at least the old price raised by the bump, rounded down
      ensures inserted <==> tx.nonce in old(Items()) ==>
        && old(Items())[tx.nonce].price < tx.price
        && old(Items())[tx.nonce].price * (100 + priceBump) / 100 <= tx.price
      ensures Items() == if inserted then old(Items())[tx.nonce := tx] else old(Items())
      ensures replaced ==
        if inserted && tx.nonce in old(Items()) then Some(old(Items())[tx.nonce]) else None
      ensures costcap == (if inserted && old(costcap) < tx.Cost() then tx.Cost() else old(costcap))
        && gascap == if inserted && old(gascap) < tx.gas then tx.gas else old(gascap)
    {
      replaced := txs.Get(tx.nonce);
      if replaced.Some? {
        var threshold := replaced.value.price * (100 + priceBump) / 100;
        if replaced.value.price >= tx.price || threshold > tx.price {
          return false, None;
        }
      }
      txs.Put(tx);
      if costcap < tx.Cost() {
        costcap := tx.Cost();
      }
      if gascap < tx.gas {
        gascap := tx.gas;
      }
      inserted := true;
    }

    method Forward(threshold: nat) returns (removed: seq<Tx>)
      requires Valid()
      modifies txs
      ensures Valid() && Items() == AtLeast(old(Items()), threshold)
      ensures SortedOf(removed, Below(old(Items()), threshold))
    {
      removed := txs.Forward(threshold);
    }

    /** Removes everything unpayable; the cached bounds only save the scan. */
    method Filter(costLimit: int, gasLimit: nat) returns (removed: seq<Tx>, invalids: seq<Tx>)
      requires Valid()
      modifies this, txs
      ensures Valid() && Items() == Filtered(strict, old(Items()), Unpayable(costLimit, gasLimit))
      ensures Enumerates(removed, Matching(old(Items()), Unpayable(costLimit, gasLimit)))
      ensures forall tx :: tx in invalids <==>
        Has(old(Items()), tx) && !Has(Items(), tx) && !Unpayable(costLimit, gasLimit).Selects(tx)
      ensures Distinct(invalids)
      ensures forall tx :: tx in removed <==>
        Has(old(Items()), tx) && (tx.value + tx.price * tx.gas > costLimit || tx.gas > gasLimit)
      ensures costcap <= costLimit && gascap <= gasLimit
        && (old(costcap) <= costLimit && old(gascap) <= gasLimit ==> costcap == old(costcap) && gascap == old(gascap))
    {
      var bad := Unpayable(costLimit, gasLimit);
      removed, invalids := [], [];
      assert Keyed(txs.items);
      if costcap <= costLimit && gascap <= gasLimit {
        WithinNoneUnpayable(txs.items, costLimit, gasLimit);
        return;
      }
      costcap, gascap := costLimit, gasLimit;
      removed := txs.Filter(bad);
      OthersWithin(old(Items()), costLimit, gasLimit);
      if strict && |removed| > 0 {
        var lowest := LowestNonce(removed, Matching(old(Items()), bad));
        StrictFilter(old(Items()), bad);
        ghost var payable := txs.items;
        invalids := txs.Filter(Above(lowest));
        WithinSubset(txs.items, payable, costcap, gascap);
      } else if removed == [] {
        EmptyListing(Matching(old(Items()), bad));
      }
    }

    method Cap(threshold: nat) returns (drops: seq<Tx>)
      requires Valid()
      modifies txs
      ensures Valid() && Lowest(Items(), old(Items()), threshold)
      ensures Split(old(Items()), Items(), drops)
    {
      drops := txs.Cap(threshold);
    }

    /** Removes by nonce; a strict list also gives up everything above. */
    method Remove(tx: Tx) returns (found: bool, invalids: seq<Tx>)
      requires Valid()
      modifies txs
      ensures Valid() && found == (tx.nonce in old(Items()))
      ensures Items() == if found then Without(strict, old(Items()), tx.nonce) else old(Items())
      ensures found && strict ==> Enumerates(invalids, AtLeast(old(Items()), tx.nonce + 1))
      ensures !(found && strict) ==> invalids == []
    {
      assert Keyed(txs.items);
      hide TxSortedMap.Valid, Within;
      found := txs.Remove(tx.nonce);
      invalids := [];
      if found && strict {
        invalids := txs.Filter(Above(tx.nonce));
        RemoveAbove(old(Items()), tx.nonce, invalids);
      }
      WithinSubset(txs.items, old(Items()), costcap, gascap);
    }

    method Ready(start: nat) returns (ready: seq<Tx>)
      requires Valid()
      modifies txs
      ensures Valid() && Items() == AtLeast(old(Items()), ReadyCut(old(Items()), start))
      ensures SortedOf(ready, Below(old(Items()), ReadyCut(old(Items()), start)))
    {
      ready := txs.Ready(start);
    }

    function Len(): (n: nat)
      reads this, txs
    {
      txs.Len()
    }

    predicate Empty()
      reads this, txs
    {
      Len() == 0
    }

    method Flatten() returns (r: seq<Tx>)
      requires Valid()
      modifies txs
      ensures Valid() && Items() == old(Items()) && SortedOf(r, Items())
    {
      r := txs.Flatten();
    }
  }
}
