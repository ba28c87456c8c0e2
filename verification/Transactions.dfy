/** The transactions a pool handles and nonce-indexed collections of them. */
module Transactions {
  import opened Options

  type Address = nat

  /** A transaction: `signed` says that the signature yields the sender `from`,
      `size` is the encoded size, `intrinsic` the gas it costs before running. */
  datatype Tx = Tx(
    from: Address,
    signed: bool,
    nonce: nat,
    price: int,
    gas: nat,
    value: int,
    size: nat,
    intrinsic: nat,
    payload: nat)
  {
    function Cost(): int { value + price * gas }
    function Hash(): Hash { Digest(this) }
  }

  /** Transaction hashes are ideal: distinct transactions have distinct hashes. */
  datatype Hash = Digest(of: Tx)

  /** Transactions of one account by nonce. */
  type NonceMap = map<nat, Tx>

  predicate Has(m: NonceMap, tx: Tx) {
    tx.nonce in m && m[tx.nonce] == tx
  }

  function Plus(m: NonceMap, tx: Tx): NonceMap {
    m[tx.nonce := tx]
  }

  /** The transaction that adding `tx` would replace. */
  function AtNonceOf(m: NonceMap, tx: Tx): Option<Tx> {
    if tx.nonce in m then Some(m[tx.nonce]) else None
  }

  ghost predicate Keyed(m: NonceMap) {
    forall n :: n in m ==> m[n].nonce == n
  }

  ghost predicate Distinct(s: seq<Tx>) {
    forall i, j :: 0 <= i < j < |s| ==> s[i] != s[j]
  }

  /** `s` lists exactly the transactions of `m`, once each. */
  ghost predicate Enumerates(s: seq<Tx>, m: NonceMap) {
    && (forall tx :: tx in s <==> Has(m, tx))
    && Distinct(s)
  }

  lemma EmptyListing(m: NonceMap)
    requires Keyed(m) && Enumerates([], m)
    ensures m == map[]
  {
    assert forall n :: n in m ==> Has(m, m[n]);
  }

  ghost predicate Ascending(s: seq<Tx>) {
    forall i, j :: 0 <= i < j < |s| ==> s[i].nonce < s[j].nonce
  }

  /** `s` lists exactly the transactions of `m`, by increasing nonce. */
  ghost predicate SortedOf(s: seq<Tx>, m: NonceMap) {
    && (forall tx :: tx in s <==> Has(m, tx))
    && Ascending(s)
  }

  function Below(m: NonceMap, threshold: nat): NonceMap {
    map n | n in m && n < threshold :: m[n]
  }

  function AtLeast(m: NonceMap, threshold: nat): NonceMap {
    map n | n in m && n >= threshold :: m[n]
  }

  lemma BelowBelow(m: NonceMap, hi: nat, lo: nat)
    requires lo <= hi
    ensures Below(Below(m, hi), lo) == Below(m, lo)
  {
  }

  /** The nonces of `m` are exactly lo, lo+1, ..., hi-1. */
  ghost predicate GapFree(m: NonceMap, lo: nat, hi: nat) {
    forall n :: n in m <==> lo <= n < hi
  }

  lemma SortedInit(s: seq<Tx>, m: NonceMap)
    requires SortedOf(s, m) && Keyed(m) && s != []
    ensures SortedOf(s[..|s| - 1], m - {s[|s| - 1].nonce})
    ensures Has(m, s[|s| - 1])
  {
    var last := s[|s| - 1];
    var init := s[..|s| - 1];
    assert s == init + [last];
    assert last in s;
    forall tx ensures tx in init <==> Has(m - {last.nonce}, tx) {
      assert tx in s <==> tx in init || tx == last;
    }
  }

  lemma {:induction false} SortedLength(s: seq<Tx>, m: NonceMap)
    requires SortedOf(s, m) && Keyed(m)
    ensures |s| == |m|
    decreases |s|
  {
    if s == [] {
      assert forall n :: n in m ==> Has(m, m[n]);
      assert m == map[];
    } else {
      var last := s[|s| - 1];
      var rest := m - {last.nonce};
      SortedInit(s, m);
      SortedLength(s[..|s| - 1], rest);
      assert m.Keys == rest.Keys + {last.nonce};
    }
  }

  lemma {:induction false} SortedUnique(s: seq<Tx>, t: seq<Tx>, m: NonceMap)
    requires SortedOf(s, m) && SortedOf(t, m) && Keyed(m)
    ensures s == t
    decreases |s|
  {
    SortedLength(s, m);
    SortedLength(t, m);
    if s != [] {
      var a, b := s[|s| - 1], t[|t| - 1];
      assert Has(m, a) && Has(m, b) && a in t && b in s;
      assert a == b;
      SortedInit(s, m);
      SortedInit(t, m);
      SortedUnique(s[..|s| - 1], t[..|t| - 1], m - {a.nonce});
    }
  }

  /** Appending the least transaction not yet listed. */
  lemma SortedExtend(s: seq<Tx>, m: NonceMap, cut: nat, nonce: nat)
    requires Keyed(m) && SortedOf(s, Below(m, cut))
    requires nonce in AtLeast(m, cut) && forall n :: n in AtLeast(m, cut) ==> nonce <= n
    ensures SortedOf(s + [m[nonce]], Below(m, nonce + 1))
    ensures AtLeast(m, nonce + 1) == AtLeast(m, cut) - {nonce}
  {
    forall tx ensures tx in s + [m[nonce]] <==> Has(Below(m, nonce + 1), tx) {
      assert tx in s + [m[nonce]] <==> tx in s || tx == m[nonce];
      if Has(Below(m, nonce + 1), tx) && tx.nonce >= cut {
        assert tx.nonce in AtLeast(m, cut);
      }
    }
    forall i | 0 <= i < |s| ensures s[i].nonce < nonce {
      assert s[i] in s;
    }
  }

  /** The part of a sorted listing from its p-th position on, when the p-th
      transaction is the first to reach the threshold. */
  lemma SortedCut(s: seq<Tx>, m: NonceMap, threshold: nat, p: nat)
    requires SortedOf(s, m) && Keyed(m) && p <= |s|
    requires forall i :: 0 <= i < p ==> s[i].nonce < threshold
    requires forall i :: p <= i < |s| ==> s[i].nonce >= threshold
    ensures SortedOf(s[..p], Below(m, threshold))
    ensures SortedOf(s[p..], AtLeast(m, threshold))
  {
    assert s == s[..p] + s[p..];
    forall tx
      ensures tx in s[..p] <==> Has(Below(m, threshold), tx)
      ensures tx in s[p..] <==> Has(AtLeast(m, threshold), tx)
    {
      assert tx in s <==> tx in s[..p] || tx in s[p..];
    }
  }

  /** A sorted listing splits where the nonces reach the threshold. */
  lemma SortedSplit(s: seq<Tx>, m: NonceMap, threshold: nat, low: seq<Tx>)
    requires SortedOf(s, m) && Keyed(m)
    requires SortedOf(low, Below(m, threshold))
    ensures |low| <= |s| && low == s[..|low|]
    ensures SortedOf(s[|low|..], AtLeast(m, threshold))
  {
    var p := 0;
    while p < |s| && s[p].nonce < threshold
      invariant p <= |s|
      invariant forall i :: 0 <= i < p ==> s[i].nonce < threshold
    {
      p := p + 1;
    }
    SortedCut(s, m, threshold, p);
    SortedUnique(s[..p], low, Below(m, threshold));
  }

  lemma SortedTake(s: seq<Tx>, m: NonceMap, cut: nat)
    requires SortedOf(s, m) && Keyed(m)
    ensures |Below(m, cut)| <= |s| && SortedOf(s[..|Below(m, cut)|], Below(m, cut))
  {
    var p := 0;
    while p < |s| && s[p].nonce < cut
      invariant p <= |s|
      invariant forall i :: 0 <= i < p ==> s[i].nonce < cut
    {
      p := p + 1;
    }
    SortedCut(s, m, cut, p);
    SortedLength(s[..p], Below(m, cut));
  }

  /** The conditions by which transactions are filtered out of a list. */
  datatype Criterion =
    | Unpayable(costLimit: int, gasLimit: nat)
    | Above(nonce: nat)
    | Any
  {
    predicate Selects(tx: Tx) {
      match this
      case Unpayable(costLimit, gasLimit) => tx.Cost() > costLimit || tx.gas > gasLimit
      case Above(nonce) => tx.nonce > nonce
      case Any => true
    }
  }

  /** The transactions that meet the criterion. */
  function Matching(m: NonceMap, c: Criterion): NonceMap {
    map n | n in m && c.Selects(m[n]) :: m[n]
  }

  /** The transactions that do not meet the criterion. */
  function Others(m: NonceMap, c: Criterion): NonceMap {
    map n | n in m && !c.Selects(m[n]) :: m[n]
  }

  /** The lowest nonce in use. */
  ghost function Least(m: NonceMap): (r: nat)
    requires m != map[]
    ensures r in m && forall n :: n in m ==> r <= n
    decreases |m|
  {
    var n :| n in m;
    var rest := m - {n};
    assert m.Keys == rest.Keys + {n};
    if rest == map[] then n else
      var r := Least(rest);
      if n < r then n else r
  }

  /** The first nonce from `lo` on that is not in use. */
  ghost function RunEnd(m: NonceMap, lo: nat): (hi: nat)
    ensures lo <= hi && hi !in m && forall n :: lo <= n < hi ==> n in m
    decreases |AtLeast(m, lo)|
  {
    if lo in m then
      assert AtLeast(m, lo).Keys == AtLeast(m, lo + 1).Keys + {lo};
      RunEnd(m, lo + 1)
    else lo
  }

  lemma {:induction false} RunEndUnique(m: NonceMap, lo: nat, hi: nat)
    requires lo <= hi && hi !in m && forall n :: lo <= n < hi ==> n in m
    ensures RunEnd(m, lo) == hi
    decreases hi - lo
  {
    if lo < hi {
      RunEndUnique(m, lo + 1, hi);
    }
  }

  /** Everything below this nonce is ready to run when `start` is the next
      nonce expected: the consecutive run from the lowest nonce, if that is not
      beyond `start`. */
  ghost function ReadyCut(m: NonceMap, start: nat): nat {
    if m == map[] || Least(m) > start then 0 else RunEnd(m, Least(m))
  }

  /** `r` keeps the `k` transactions of lowest nonce. */
  ghost predicate Lowest(r: NonceMap, m: NonceMap, k: nat) {
    if |m| <= k then r == m else |r| == k && exists cut :: r == Below(m, cut)
  }

  /** `drops` lists what `kept` lacks of `m`, once each. */
  ghost predicate Split(m: NonceMap, kept: NonceMap, drops: seq<Tx>) {
    && (forall tx :: tx in drops <==> Has(m, tx) && !Has(kept, tx))
    && Distinct(drops)
  }

  lemma SplitStep(m: NonceMap, kept: NonceMap, drops: seq<Tx>, nonce: nat)
    requires Keyed(m) && Split(m, kept, drops) && nonce in kept && nonce in m && kept[nonce] == m[nonce]
    ensures Split(m, kept - {nonce}, drops + [m[nonce]])
  {
    var tx := m[nonce];
    assert Has(kept, tx) && tx !in drops;
    forall t ensures t in drops + [tx] <==> Has(m, t) && !Has(kept - {nonce}, t) {
      assert t in drops + [tx] <==> t in drops || t == tx;
    }
  }
}
