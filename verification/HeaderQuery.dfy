/** The header query served to peers: a walk over the header chain by hash or by
    number, up or down, with a fixed distance between the headers. */
module HeaderQueries {
  import opened Options
  import opened Headers
  import opened HeaderChains

  const MAX_HEADER_FETCH := 192
  const SOFT_RESPONSE_LIMIT := 2 * 1024 * 1024
  const EST_HEADER_RLP_SIZE := 500
  const MAX_NON_CANONICAL := 100

  /** A query by hash, or by number if the hash is zero. All numbers are 64-bit. */
  datatype Query = Query(hash: Hash, number: nat, amount: nat, skip: nat, reverse: bool)

  ghost predicate InRange(q: Query) { q.number < WORD && q.amount < WORD && q.skip < WORD }

  /** A 64-bit unsigned number read as a signed one. */
  function Signed(n: nat): int { if n < WORD / 2 then n else n - WORD }

  /** Neighbours in a reply by hash are `skip + 1` parent steps apart. */
  ghost predicate Linked(hs: seq<Header>, skip: nat, reverse: bool) {
    forall i :: 0 <= i < |hs| - 1 ==> Apart(Digest(hs[i]), Digest(hs[i + 1]), skip, reverse)
  }

  ghost predicate Apart(one: Hash, next: Hash, skip: nat, reverse: bool) {
    if reverse then Walk(one, skip + 1) == next else Walk(next, skip + 1) == one
  }

  lemma LinkedMore(hs: seq<Header>, h: Header, skip: nat, reverse: bool)
    requires Linked(hs, skip, reverse) && (hs != [] ==> Apart(Digest(hs[|hs| - 1]), Digest(h), skip, reverse))
    ensures Linked(hs + [h], skip, reverse)
  {
  }

  ghost predicate IsCanonical(chain: HeaderChain, hash: Hash)
    reads chain`canonical
  {
    hash.Digest? && chain.ReadCanonicalHash(hash.of.number) == hash
  }

  /** From a canonical header all ancestors are canonical and the budget is not touched. */
  lemma CanonicalWalk(chain: HeaderChain, hash: Hash, n: nat)
    requires chain.Valid() && IsCanonical(chain, hash) && n <= hash.of.number
    ensures IsCanonical(chain, Walk(hash, n)) && Walk(hash, n).of.number == hash.of.number - n
    ensures Known(chain.headers, hash) && PathStored(chain.headers, hash.of, chain.genesis)
    ensures forall k: nat :: Off(chain.canonical, hash, hash.of.number, k) == 0
  {
    chain.OnIndex(hash, hash.of.number, n);
    StoredAt(chain.headers, chain.current, hash.of.number, chain.genesis);
  }

  /** The budget that k strides down cost: one for each header off the canonical chain that is
      passed, unless the strides go from parent to parent. */
  ghost function Spent(chain: HeaderChain, hash: Hash, number: nat, skip: nat, k: nat): nat
    reads chain`canonical
  {
    if skip == 0 then 0 else Off(chain.canonical, hash, number, k * (skip + 1))
  }

  /** From a known header towards the genesis. */
  method StepDown(chain: HeaderChain, hash: Hash, number: nat, skip: nat, budget: nat)
    returns (hash': Hash, number': nat, unknown: bool, budget': nat)
    requires chain.Valid() && Known(chain.headers, hash) && number == hash.of.number && skip < WORD
    modifies chain`headerCache
    ensures chain.Valid() && budget' <= budget
    ensures !unknown ==> hash' != Zero && number' == hash'.of.number && Apart(hash, hash', skip, true)
    ensures !unknown ==> skip + 1 < WORD && skip < number
    ensures IsCanonical(chain, hash) && skip + 1 < WORD && skip < number ==> !unknown && IsCanonical(chain, hash')
    // on a stored path, only the genesis and the budget of off-chain steps are in the way
    ensures PathStored(chain.headers, hash.of, chain.genesis) ==>
      (unknown <==> skip + 1 == WORD || number <= skip || Spent(chain, hash, number, skip, 1) > budget)
    ensures !unknown ==> budget' == budget - Spent(chain, hash, number, skip, 1)
  {
    hide Walk, HeaderChain.Valid, Off, PathStored;
    if IsCanonical(chain, hash) && skip < number {
      CanonicalWalk(chain, hash, skip + 1);
    }
    var ancestor := (skip + 1) % WORD;
    if ancestor == 0 {
      return hash, number, true, budget;
    }
    hash', number', budget' := chain.GetAncestor(hash, number, ancestor, budget);
    unknown := hash' == Zero;
  }

  /** From a known header towards the head: the canonical header that far up, if this
      one is its ancestor. A number that wraps around is refused. */
  method StepUp(chain: HeaderChain, hash: Hash, number: nat, skip: nat, budget: nat)
    returns (hash': Hash, number': nat, unknown: bool, budget': nat)
    requires chain.Valid() && Known(chain.headers, hash) && number == hash.of.number < WORD && skip < WORD
    modifies chain`headerCache
    ensures chain.Valid() && budget' <= budget
    ensures !unknown ==>
      && hash' != Zero && number' == hash'.of.number == number + skip + 1 && Apart(hash, hash', skip, false)
      && IsCanonical(chain, hash')
    ensures !unknown <==> IsCanonical(chain, hash) && number + skip + 1 <= chain.current.number
  {
    hide Walk, Off, PathStored, At, Rooted, Sound, HeadersCached, SumsCached, NumbersCached;
    HeadBelowLimit(chain);
    hash', number', unknown, budget' := hash, number, true, budget;
    var next := (number + skip + 1) % WORD;
    if next <= number {
      return;
    }
    assert next == number + skip + 1;
    var header := chain.GetHeaderByNumber(next);
    if header.None? {
      return;
    }
    CanonicalIsKnown(chain, next);
    CanonicalWalk(chain, Digest(header.value), skip + 1);
    SameNumber(chain, hash, Walk(Digest(header.value), skip + 1));
    var nextHash := Digest(header.value);
    var below, _, left := chain.GetAncestor(nextHash, next, (skip + 1) % WORD, budget);
    budget' := left;
    if below == hash {
      hash', number', unknown := nextHash, next, false;
    }
  }

  lemma HeadBelowLimit(chain: HeaderChain)
    requires chain.Valid()
    ensures chain.current.number < WORD - 1
  {
  }

  /** There is one canonical hash for a number. */
  lemma SameNumber(chain: HeaderChain, one: Hash, other: Hash)
    ensures IsCanonical(chain, one) && IsCanonical(chain, other) && one.of.number == other.of.number ==> one == other
  {
  }

  lemma CanonicalIsKnown(chain: HeaderChain, n: nat)
    requires chain.Valid() && n <= chain.current.number
    ensures Known(chain.headers, Digest(At(chain.current, n, chain.genesis)))
    ensures IsCanonical(chain, Digest(At(chain.current, n, chain.genesis)))
  {
    StoredAt(chain.headers, chain.current, n, chain.genesis);
  }

  /** A reply to a query by hash: it starts at that hash and goes in equal strides
      along parent links, in the direction asked for. */
  ghost predicate Reply(headers: HeaderMap, q: Query, hs: seq<Header>) {
    && (hs != [] ==> Digest(hs[0]) == q.hash)
    && Linked(hs, q.skip, q.reverse)
    && (forall h :: h in hs ==> Has(headers, h))
  }

  /** The hash continues the reply. */
  ghost predicate Continues(q: Query, hs: seq<Header>, hash: Hash) {
    hash != Zero && if hs == [] then hash == q.hash else Apart(Digest(hs[|hs| - 1]), hash, q.skip, q.reverse)
  }

  lemma ReplyMore(headers: HeaderMap, q: Query, hs: seq<Header>, hash: Hash)
    requires Reply(headers, q, hs) && Continues(q, hs, hash) && Known(headers, hash)
    ensures Reply(headers, q, hs + [hash.of])
    ensures forall next: Hash :: next != Zero && Apart(hash, next, q.skip, q.reverse) ==>
      Continues(q, hs + [hash.of], next)
  {
    hide Walk, Apart;
    if hs != [] {
      LinkedMore(hs, hash.of, q.skip, q.reverse);
    }
  }

  /** The walk down a stored path: where it is after k strides, and what that cost. */
  ghost predicate WalksTo(chain: HeaderChain, start: Hash, skip: nat, k: nat, hash: Hash)
    reads chain`headers
  {
    && start.Digest? && k * (skip + 1) <= start.of.number && hash == Walk(start, k * (skip + 1))
    && Known(chain.headers, hash) && hash.of.number == start.of.number - k * (skip + 1)
    && PathStored(chain.headers, hash.of, chain.genesis)
  }

  lemma {:induction false} WalkAdds(hash: Hash, m: nat, n: nat)
    ensures Walk(Walk(hash, m), n) == Walk(hash, m + n)
    decreases m
  {
    if m > 0 && hash.Digest? {
      WalkAdds(hash.of.parent, m - 1, n);
    } else if hash.Zero? {
      assert Walk(hash, m + n) == Zero;
    }
  }

  /** Every ancestor on a stored path is there, with its number. */
  lemma {:induction false} StoredWalk(chain: HeaderChain, hash: Hash, n: nat)
    requires chain.Valid() && Known(chain.headers, hash) && PathStored(chain.headers, hash.of, chain.genesis)
    requires n <= hash.of.number
    ensures Known(chain.headers, Walk(hash, n)) && Walk(hash, n).of.number == hash.of.number - n
    ensures PathStored(chain.headers, Walk(hash, n).of, chain.genesis)
    decreases n
  {
    hide HeadersCached, SumsCached, NumbersCached, IndexOf, At, PathSum;
    if n > 0 {
      assert chain.headers[KeyOf(hash.of)] == hash.of && Rooted(hash.of, chain.genesis);
      StoredWalk(chain, hash.of.parent, n - 1);
    }
  }

  /** A walk of n steps costs the number of headers that come before the first canonical one. */
  lemma {:induction false} OffCounts(chain: HeaderChain, hash: Hash, n: nat) returns (cost: nat)
    requires chain.Valid() && Known(chain.headers, hash) && PathStored(chain.headers, hash.of, chain.genesis)
    requires n <= hash.of.number + 1
    ensures cost == Off(chain.canonical, hash, hash.of.number, n) <= n
    ensures forall j :: 0 <= j < cost ==> !IsCanonical(chain, Walk(hash, j))
    ensures cost < n ==> IsCanonical(chain, Walk(hash, cost))
    decreases n
  {
    hide HeadersCached, SumsCached, NumbersCached, IndexOf, At, PathSum, PathStored;
    cost := 0;
    if n > 0 && !IsCanonical(chain, hash) {
      cost := 1;
      if n > 1 {
        StoredWalk(chain, hash, 1);
        assert Walk(hash, 1) == hash.of.parent;
        var rest := OffCounts(chain, hash.of.parent, n - 1);
        cost := 1 + rest;
      }
    }
  }

  /** What the walk costs adds up, as off-chain headers come before canonical ones. */
  lemma {:induction false} OffAdds(chain: HeaderChain, hash: Hash, m: nat, n: nat)
    requires chain.Valid() && Known(chain.headers, hash) && PathStored(chain.headers, hash.of, chain.genesis)
    requires m <= hash.of.number
    ensures Off(chain.canonical, hash, hash.of.number, m + n) ==
      Off(chain.canonical, hash, hash.of.number, m) + Off(chain.canonical, Walk(hash, m), hash.of.number - m, n)
    decreases m
  {
    hide HeadersCached, SumsCached, NumbersCached, IndexOf, At, PathSum;
    if IsCanonical(chain, hash) {
      CanonicalWalk(chain, hash, m);
      CanonicalWalk(chain, Walk(hash, m), 0);
    } else if m > 0 {
      StoredWalk(chain, hash, 1);
      assert Walk(hash, 1) == hash.of.parent;
      OffAdds(chain, hash.of.parent, m - 1, n);
    }
  }

  lemma StrideDown(chain: HeaderChain, start: Hash, skip: nat, k: nat, hash: Hash)
    requires chain.Valid() && Known(chain.headers, start) && PathStored(chain.headers, start.of, chain.genesis)
    requires WalksTo(chain, start, skip, k, hash) && skip < hash.of.number
    ensures WalksTo(chain, start, skip, k + 1, Walk(hash, skip + 1))
  {
    hide HeaderChain.Valid, Walk, PathStored;
    Strides(k, skip);
    WalkAdds(start, k * (skip + 1), skip + 1);
    StoredWalk(chain, hash, skip + 1);
  }

  lemma StrideCosts(chain: HeaderChain, start: Hash, skip: nat, k: nat, hash: Hash)
    requires chain.Valid() && Known(chain.headers, start) && PathStored(chain.headers, start.of, chain.genesis)
    requires WalksTo(chain, start, skip, k, hash)
    ensures Spent(chain, start, start.of.number, skip, k + 1) ==
      Spent(chain, start, start.of.number, skip, k) + Spent(chain, hash, hash.of.number, skip, 1)
    ensures (k + 1) * (skip + 1) > start.of.number <==> hash.of.number <= skip
  {
    hide HeaderChain.Valid, Walk, PathStored, Off;
    Strides(k, skip);
    OffAdds(chain, start, k * (skip + 1), skip + 1);
  }

  lemma Strides(k: nat, skip: nat)
    ensures (k + 1) * (skip + 1) == k * (skip + 1) + (skip + 1) && 1 * (skip + 1) == skip + 1
  {
  }

  /** There is no header after the k-th of a reply by hash: downwards the genesis is too near or
      the budget of off-chain steps used up, upwards the origin is not canonical or the head too
      near. */
  ghost predicate Ends(chain: HeaderChain, q: Query, k: nat)
    reads chain`canonical, chain`current
    requires q.hash.Digest?
  {
    var number := q.hash.of.number;
    if q.reverse then
      || q.skip + 1 == WORD || k * (q.skip + 1) > number
      || Spent(chain, q.hash, number, q.skip, k) > MAX_NON_CANONICAL
    else !IsCanonical(chain, q.hash) || number + k * (q.skip + 1) > chain.current.number
  }

  /** A reply of this length is as long as the query and the chain allow. */
  ghost predicate Complete(chain: HeaderChain, q: Query, length: nat)
    reads chain`canonical, chain`current
    requires q.hash.Digest?
  {
    && (forall k :: 1 <= k < length ==> !Ends(chain, q, k))
    && (length < Signed(q.amount) && length < MAX_HEADER_FETCH ==> Ends(chain, q, length))
  }

  ghost predicate Traced(chain: HeaderChain, hash: Hash)
    reads chain`headers
  {
    Known(chain.headers, hash) && PathStored(chain.headers, hash.of, chain.genesis)
  }

  /** Where a query stands after k headers. */
  ghost predicate Underway(chain: HeaderChain, q: Query, k: nat, hash: Hash, unknown: bool, budget: int)
    reads chain`headers, chain`canonical, chain`current
    requires q.hash.Digest?
  {
    && (forall i :: 1 <= i < k ==> !Ends(chain, q, i))
    && (unknown <==> k > 0 && Ends(chain, q, k))
    && (!unknown && q.reverse ==>
         && WalksTo(chain, q.hash, q.skip, k, hash)
         && budget == MAX_NON_CANONICAL - Spent(chain, q.hash, q.hash.of.number, q.skip, k))
    && (!unknown && !q.reverse ==>
         && hash.Digest? && hash.of.number == q.hash.of.number + k * (q.skip + 1)
         && if k == 0 then hash == q.hash else IsCanonical(chain, hash))
  }

  lemma Setout(chain: HeaderChain, q: Query)
    requires chain.Valid() && Traced(chain, q.hash)
    ensures Underway(chain, q, 0, q.hash, false, MAX_NON_CANONICAL)
  {
  }

  lemma UnderwayIsKnown(chain: HeaderChain, q: Query, k: nat, hash: Hash, budget: int)
    requires chain.Valid() && Traced(chain, q.hash) && Underway(chain, q, k, hash, false, budget)
    ensures Known(chain.headers, hash) && hash.of.number == NumberAfter(q, k)
  {
    hide HeaderChain.Valid, Walk, PathStored, Ends, Spent;
    CanonicalMeansKnown(chain, hash);
  }

  ghost function NumberAfter(q: Query, k: nat): int
    requires q.hash.Digest?
  {
    if q.reverse then q.hash.of.number - k * (q.skip + 1) else q.hash.of.number + k * (q.skip + 1)
  }

  lemma WentDown(chain: HeaderChain, q: Query, k: nat, hash: Hash, budget: nat, hash': Hash, unknown: bool,
                 budget': nat)
    requires chain.Valid() && Traced(chain, q.hash) && q.reverse && q.skip < WORD
    requires Underway(chain, q, k, hash, false, budget)
    requires unknown <==>
      q.skip + 1 == WORD || hash.of.number <= q.skip || Spent(chain, hash, hash.of.number, q.skip, 1) > budget
    requires !unknown ==>
      Apart(hash, hash', q.skip, true) && budget' == budget - Spent(chain, hash, hash.of.number, q.skip, 1)
    ensures Underway(chain, q, k + 1, hash', unknown, budget')
  {
    hide HeaderChain.Valid, Walk, PathStored, Spent;
    StrideCosts(chain, q.hash, q.skip, k, hash);
    if !unknown {
      StrideDown(chain, q.hash, q.skip, k, hash);
    }
  }

  lemma WentUp(chain: HeaderChain, q: Query, k: nat, hash: Hash, budget: int, hash': Hash, unknown: bool, budget': int)
    requires chain.Valid() && Traced(chain, q.hash) && !q.reverse && Underway(chain, q, k, hash, false, budget)
    requires !unknown <==> IsCanonical(chain, hash) && hash.of.number + q.skip + 1 <= chain.current.number
    requires !unknown ==> IsCanonical(chain, hash') && hash'.of.number == hash.of.number + q.skip + 1
    ensures Underway(chain, q, k + 1, hash', unknown, budget')
  {
    hide HeaderChain.Valid, Walk, PathStored, Spent;
    Strides(k, q.skip);
    if k > 0 {
      assert IsCanonical(chain, q.hash);
    }
  }

  /** From this number on the query leads off the chain. */
  ghost predicate AtEnd(chain: HeaderChain, q: Query, number: int)
    reads chain`current
  {
    if q.reverse then number <= q.skip || q.skip + 1 == WORD else number + q.skip + 1 > chain.current.number
  }

  lemma CanonicalMeansKnown(chain: HeaderChain, hash: Hash)
    requires chain.Valid()
    ensures IsCanonical(chain, hash) ==> Known(chain.headers, hash)
  {
    if IsCanonical(chain, hash) {
      CanonicalWalk(chain, hash, 0);
    }
  }

  lemma NumbersInRange(chain: HeaderChain, h: Header)
    requires chain.Stored() && Has(chain.headers, h)
    ensures h.number < WORD
  {
    assert chain.headers[KeyOf(h)] == h;
  }

  /** One stride from a header of the reply to the next. */
  method Stride(chain: HeaderChain, query: Query, ghost k: nat, hash: Hash, number: nat, budget: nat)
    returns (hash': Hash, number': nat, unknown: bool, budget': nat)
    requires chain.Valid() && InRange(query) && Known(chain.headers, hash) && number == hash.of.number < WORD
    modifies chain`headerCache
    ensures chain.Valid()
    ensures !unknown ==>
      hash' != Zero && number' == hash'.of.number && Apart(hash, hash', query.skip, query.reverse)
    ensures Traced(chain, query.hash) && Underway(chain, query, k, hash, false, budget) ==>
      Underway(chain, query, k + 1, hash', unknown, budget')
  {
    hide HeaderChain.Valid, Spent, Ends, Underway, Walk, Apart, PathStored;
    ghost var traced := Traced(chain, query.hash) && Underway(chain, query, k, hash, false, budget);
    if query.reverse {
      if traced {
        UnderwayStored(chain, query, k, hash, budget);
      }
      hash', number', unknown, budget' := StepDown(chain, hash, number, query.skip, budget);
      if traced {
        WentDown(chain, query, k, hash, budget, hash', unknown, budget');
      }
    } else {
      hash', number', unknown, budget' := StepUp(chain, hash, number, query.skip, budget);
      if traced {
        WentUp(chain, query, k, hash, budget, hash', unknown, budget');
      }
    }
  }

  method AnswerByHash(chain: HeaderChain, query: Query) returns (headers: seq<Header>)
    requires chain.Valid() && InRange(query) && query.hash != Zero
    modifies chain`headerCache, chain`numberCache
    ensures chain.Valid() && |headers| <= MAX_HEADER_FETCH && (|headers| <= Signed(query.amount) || headers == [])
    ensures headers != [] <==> Known(chain.headers, query.hash) && Signed(query.amount) > 0
    ensures Reply(chain.headers, query, headers)
    ensures IsCanonical(chain, query.hash) && |headers| < Signed(query.amount) && |headers| < MAX_HEADER_FETCH ==>
      headers != [] && AtEnd(chain, query, headers[|headers| - 1].number)
    ensures Traced(chain, query.hash) && Signed(query.amount) > 0 ==> Complete(chain, query, |headers|)
  {
    hide Off, Spent, Ends, Underway, Sound, HeadersCached, SumsCached, NumbersCached, Walk, Apart, Linked, Reply;
    hide Continues, Has, Rooted, At, IndexOf, PathStored;
    headers := [];
    assert Reply(chain.headers, query, headers)
      && Continues(query, headers, query.hash) by { EmptyReply(chain.headers, query); }
    var hash, number, first, unknown, budget: nat, bytes := query.hash, query.number, true, false, MAX_NON_CANONICAL, 0;
    ghost var traced := Traced(chain, query.hash);
    if traced {
      Setout(chain, query);
    }
    while !unknown && |headers| < Signed(query.amount) && bytes < SOFT_RESPONSE_LIMIT && |headers| < MAX_HEADER_FETCH
      invariant chain.Valid() && Reply(chain.headers, query, headers) && bytes == EST_HEADER_RLP_SIZE * |headers|
      invariant |headers| <= MAX_HEADER_FETCH && (|headers| <= Signed(query.amount) || headers == [])
      invariant traced == Traced(chain, query.hash)
      invariant traced ==> Underway(chain, query, |headers|, hash, unknown, budget)
      invariant first <==> headers == []
      invariant first ==> hash == query.hash && !unknown
      invariant headers != [] ==> Known(chain.headers, query.hash)
      invariant traced && headers != [] ==> headers[|headers| - 1].number == NumberAfter(query, |headers| - 1)
      invariant !unknown ==> Continues(query, headers, hash) && hash != Zero && (first || number == hash.of.number)
      decreases MAX_HEADER_FETCH - |headers|
    {
      if traced {
        UnderwayIsKnown(chain, query, |headers|, hash, budget);
      }
      ghost var k := |headers|;
      var origin: Option<Header>;
      if first {
        first := false;
        origin := chain.GetHeaderByHash(hash);
        if origin.Some? {
          number := origin.value.number;
        }
      } else {
        origin := chain.GetHeader(hash, number);
      }
      if origin.None? {
        break;
      }
      NumbersInRange(chain, origin.value);
      ReplyMore(chain.headers, query, headers, hash);
      headers := headers + [origin.value];
      bytes := bytes + EST_HEADER_RLP_SIZE;
      hash, number, unknown, budget := Stride(chain, query, k, hash, number, budget);
    }
    if traced && Signed(query.amount) > 0 {
      Arrived(chain, query, |headers|, hash, unknown, budget);
    }
    if IsCanonical(chain, query.hash) && |headers| < Signed(query.amount) && |headers| < MAX_HEADER_FETCH {
      CanonicalWalk(chain, query.hash, 0);
      CanonicalEnd(chain, query, |headers|);
    }
  }

  lemma UnderwayStored(chain: HeaderChain, q: Query, k: nat, hash: Hash, budget: int)
    requires q.hash.Digest? && q.reverse && Underway(chain, q, k, hash, false, budget)
    ensures Traced(chain, hash)
  {
    hide Walk, PathStored, Ends, Spent;
  }

  lemma CanonicalEnd(chain: HeaderChain, q: Query, k: nat)
    requires chain.Valid() && IsCanonical(chain, q.hash) && k > 0 && Ends(chain, q, k)
    ensures AtEnd(chain, q, NumberAfter(q, k - 1))
  {
    hide HeaderChain.Valid, Off;
    CanonicalWalk(chain, q.hash, 0);
    Strides(k - 1, q.skip);
  }

  lemma Arrived(chain: HeaderChain, q: Query, k: nat, hash: Hash, unknown: bool, budget: int)
    requires q.hash.Digest? && Underway(chain, q, k, hash, unknown, budget) && Signed(q.amount) > 0
    requires unknown || k >= Signed(q.amount) || k >= MAX_HEADER_FETCH
    ensures Complete(chain, q, k)
    ensures k < Signed(q.amount) && k < MAX_HEADER_FETCH ==> Ends(chain, q, k)
  {
    hide Walk, PathStored, Ends, Spent;
  }

  lemma EmptyReply(headers: HeaderMap, q: Query)
    requires q.hash != Zero
    ensures Reply(headers, q, []) && Continues(q, [], q.hash)
  {
  }

  /** The number of the i-th header in a reply by number; absent once it would fall
      below zero. Going up it wraps around at 64 bits. */
  ghost function NumberAt(q: Query, i: nat): int {
    if q.reverse then q.number - i * ((q.skip + 1) % WORD) else (q.number + i * (q.skip + 1)) % WORD
  }

  /** The reply to a query by number lists the canonical headers at the numbers asked
      for, and stops early only where there is none. */
  method AnswerByNumber(chain: HeaderChain, query: Query) returns (headers: seq<Header>)
    requires chain.Valid() && InRange(query)
    modifies chain`headerCache
    ensures chain.Valid() && |headers| <= MAX_HEADER_FETCH && (|headers| <= Signed(query.amount) || headers == [])
    ensures forall i :: 0 <= i < |headers| ==>
      OnChain(chain, NumberAt(query, i)) && headers[i] == At(chain.current, NumberAt(query, i), chain.genesis)
    ensures |headers| < Signed(query.amount) && |headers| < MAX_HEADER_FETCH ==>
      !OnChain(chain, NumberAt(query, |headers|))
  {
    hide HeaderChain.Valid, At, NumberAt;
    headers := [];
    var number, unknown, bytes := query.number, false, 0;
    NumberStep(query, 0);
    while !unknown && |headers| < Signed(query.amount) && bytes < SOFT_RESPONSE_LIMIT && |headers| < MAX_HEADER_FETCH
      invariant chain.Valid() && bytes == EST_HEADER_RLP_SIZE * |headers|
      invariant |headers| <= MAX_HEADER_FETCH && (|headers| <= Signed(query.amount) || headers == [])
      invariant if unknown then NumberAt(query, |headers|) < 0 else 0 <= number == NumberAt(query, |headers|) < WORD
      invariant forall i :: 0 <= i < |headers| ==>
        OnChain(chain, NumberAt(query, i)) && headers[i] == At(chain.current, NumberAt(query, i), chain.genesis)
      decreases MAX_HEADER_FETCH - |headers|
    {
      var origin := chain.GetHeaderByNumber(number);
      if origin.None? {
        break;
      }
      NumberStep(query, |headers|);
      HeadIsRooted(chain);
      headers := headers + [origin.value];
      bytes := bytes + EST_HEADER_RLP_SIZE;
      if query.reverse {
        if number >= (query.skip + 1) % WORD {
          number := number - (query.skip + 1) % WORD;
        } else {
          unknown := true;
        }
      } else {
        number := (number + query.skip + 1) % WORD;
      }
    }
  }

  ghost predicate OnChain(chain: HeaderChain, n: int)
    reads chain
  {
    0 <= n <= chain.current.number && Rooted(chain.current, chain.genesis) && chain.genesis.number == 0
  }

  lemma HeadIsRooted(chain: HeaderChain)
    requires chain.Valid()
    ensures Rooted(chain.current, chain.genesis) && chain.genesis.number == 0
  {
  }

  lemma NumberStep(q: Query, i: nat)
    requires InRange(q)
    ensures NumberAt(q, 0) == q.number
    ensures NumberAt(q, i + 1) ==
      if q.reverse then NumberAt(q, i) - (q.skip + 1) % WORD else (NumberAt(q, i) + q.skip + 1) % WORD
  {
    var s := q.skip + 1;
    var d := s % WORD;
    assert (i + 1) * d == i * d + d && (i + 1) * s == i * s + s;
    if !q.reverse {
      ModAdd(q.number + i * s, s);
    }
  }

  lemma ModAdd(a: nat, b: nat)
    ensures (a % WORD + b) % WORD == (a + b) % WORD
  {
    var k := a / WORD;
    assert a == k * WORD + a % WORD;
    ModShift(a % WORD + b, k);
  }

  lemma {:induction false} ModShift(c: nat, k: nat)
    ensures (c + k * WORD) % WORD == c % WORD
    decreases k
  {
    if k > 0 {
      ModShift(c + WORD, k - 1);
    }
  }

  /** Answers a query; the origin says which kind it is. */
  method Answer(chain: HeaderChain, query: Query) returns (headers: seq<Header>)
    requires chain.Valid() && InRange(query)
    modifies chain`headerCache, chain`numberCache
    // an amount of 2^63 or more is negative in the source, and nothing is sent
    ensures |headers| <= query.amount && (query.amount >= 0x8000_0000_0000_0000 ==> headers == [])
    ensures 0 < query.amount < 0x8000_0000_0000_0000 && Known(chain.headers, query.hash) ==> headers != []
    ensures chain.Valid() && |headers| <= MAX_HEADER_FETCH && (|headers| <= Signed(query.amount) || headers == [])
    ensures query.hash != Zero ==>
      && Reply(chain.headers, query, headers)
      && (headers != [] <==> Known(chain.headers, query.hash) && Signed(query.amount) > 0)
      && (IsCanonical(chain, query.hash) && |headers| < Signed(query.amount) && |headers| < MAX_HEADER_FETCH ==>
           headers != [] && AtEnd(chain, query, headers[|headers| - 1].number))
      && (Traced(chain, query.hash) && Signed(query.amount) > 0 ==> Complete(chain, query, |headers|))
    ensures query.hash == Zero ==>
      && (forall i :: 0 <= i < |headers| ==>
           OnChain(chain, NumberAt(query, i)) && headers[i] == At(chain.current, NumberAt(query, i), chain.genesis))
      && (|headers| < Signed(query.amount) && |headers| < MAX_HEADER_FETCH ==>
         !OnChain(chain, NumberAt(query, |headers|)))
  {
    if query.hash != Zero {
      headers := AnswerByHash(chain, query);
    } else {
      headers := AnswerByNumber(chain, query);
    }
  }
}
