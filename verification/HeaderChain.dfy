/** The header chain: fork choice by total difficulty, rewriting of the canonical
    index, the ancestor shortcut and rewinding. */
module HeaderChains {
  import opened Options
  import opened Headers

  /** How a write ends; `Crashed` is the dereference of a missing header. */
  datatype WriteStatus = Canonical | Side | UnknownAncestor | Crashed

  class HeaderChain {
    // The database.
    var headers: HeaderMap
    var numbers: map<Hash, nat>
    var tds: map<Key, nat>
    var canonical: map<nat, Hash>
    var headHash: Hash
    // The caches.
    var headerCache: map<Hash, Header>
    var tdCache: map<Hash, nat>
    var numberCache: map<Hash, nat>
    // The head.
    const genesis: Header
    var current: Header
    var currentHash: Hash

    ghost predicate Stored()
      reads this
    {
      && Sound(headers, numbers, tds, genesis)
      && HeadersCached(headers, headerCache) && SumsCached(headers, tdCache) && NumbersCached(headers, numberCache)
    }

    /** The canonical index is exactly the path of the current header, all of it stored. */
    ghost predicate Headed()
      reads this
    {
      && genesis.number == 0 && Rooted(current, genesis) && current.number < WORD - 1
      && PathStored(headers, current, genesis) && canonical == IndexOf(current, genesis)
      && currentHash == Digest(current) == headHash
    }

    ghost predicate Valid()
      reads this
    {
      Stored() && Headed()
    }

    constructor (genesis: Header)
      requires genesis.number == 0 && genesis.parent.Zero?
      ensures Valid() && this.genesis == genesis == current
      ensures Closed(headers, genesis) && Heaviest(headers, current)
    {
      this.genesis, current, currentHash, headHash := genesis, genesis, Digest(genesis), Digest(genesis);
      headers, numbers := map[KeyOf(genesis) := genesis], map[Digest(genesis) := 0];
      tds, canonical := map[KeyOf(genesis) := genesis.difficulty], map[0 := Digest(genesis)];
      headerCache, tdCache, numberCache := map[], map[], map[];
      new;
      AtZero(genesis, genesis);
      assert canonical == IndexOf(current, genesis);
    }

    function ReadCanonicalHash(number: nat): Hash
      reads `canonical
    {
      if number in canonical then canonical[number] else Zero
    }

    method GetHeader(hash: Hash, number: nat) returns (h: Option<Header>)
      requires Stored()
      modifies this`headerCache
      ensures Stored()
      ensures h ==
        if Known(headers, hash) && (hash in old(headerCache) || number == hash.of.number) then Some(hash.of) else None
    {
      hide Kept, SumsCached, NumbersCached, PathSum, Rooted;
      if hash in headerCache {
        return Some(headerCache[hash]);
      }
      if Key(hash, number) !in headers {
        return None;
      }
      h := Some(headers[Key(hash, number)]);
      var keep: set<Hash> := *;
      CacheMore(headers, hash.of, keep, headerCache, tdCache, numberCache);
      headerCache := Kept(headerCache[hash := h.value], keep);
    }

    method GetTd(hash: Hash, number: nat) returns (td: Option<nat>)
      requires Stored()
      modifies this`tdCache
      ensures Stored()
      ensures td ==
        if Known(headers, hash) && (hash in old(tdCache) || number == hash.of.number) then Some(PathSum(hash.of))
        else None
    {
      hide Kept, HeadersCached, NumbersCached, PathSum, Rooted;
      if hash in tdCache {
        return Some(tdCache[hash]);
      }
      if Key(hash, number) !in tds {
        return None;
      }
      td := Some(tds[Key(hash, number)]);
      var keep: set<Hash> := *;
      CacheMore(headers, hash.of, keep, headerCache, tdCache, numberCache);
      tdCache := Kept(tdCache[hash := td.value], keep);
    }

    method GetBlockNumber(hash: Hash) returns (number: Option<nat>)
      requires Stored()
      modifies this`numberCache
      ensures Stored() && number == if Known(headers, hash) then Some(hash.of.number) else None
    {
      hide Kept, SumsCached, HeadersCached, PathSum, Rooted;
      if hash in numberCache {
        return Some(numberCache[hash]);
      }
      if hash !in numbers {
        return None;
      }
      number := Some(numbers[hash]);
      var keep: set<Hash> := *;
      CacheMore(headers, hash.of, keep, headerCache, tdCache, numberCache);
      numberCache := Kept(numberCache[hash := number.value], keep);
    }

    method GetHeaderByHash(hash: Hash) returns (h: Option<Header>)
      requires Stored()
      modifies this`headerCache, this`numberCache
      ensures Stored() && h == if Known(headers, hash) then Some(hash.of) else None
    {
      var number := GetBlockNumber(hash);
      if number.None? {
        return None;
      }
      h := GetHeader(hash, number.value);
    }

    /** The canonical header with a number. */
    method GetHeaderByNumber(number: nat) returns (h: Option<Header>)
      requires Valid()
      modifies this`headerCache
      ensures Valid() && h == if number <= current.number then Some(At(current, number, genesis)) else None
    {
      var hash := ReadCanonicalHash(number);
      if hash == Zero {
        return None;
      }
      StoredAt(headers, current, number, genesis);
      h := GetHeader(hash, number);
    }

    /** Whether a header takes over from the current one. */
    ghost predicate Wins(header: Header, coin: bool)
      reads this
    {
      PathSum(header) > PathSum(current) || (PathSum(header) == PathSum(current) && coin)
    }

    /** Writes a header whose parent is known. When its total difficulty beats the
        current one, or equals it and the coin says so, it becomes the head. That fails
        exactly when part of its path has been lost to a rewind. */
    method WriteHeader(header: Header, coin: bool) returns (status: WriteStatus)
      requires Valid() && header.number < WORD - 1
      requires Known(headers, header.parent) ==> header.number == header.parent.of.number + 1
      modifies this
      ensures Stored() && (!status.Crashed? ==> Valid())
      ensures status ==
        if !Known(old(headers), header.parent) then UnknownAncestor
        else if !old(Wins(header, coin)) then Side
        else if PathStored(old(headers), header.parent.of, genesis) then Canonical
        else Crashed
      ensures status.UnknownAncestor? ==>
        headers == old(headers) && tds == old(tds) && numbers == old(numbers) && current == old(current)
      ensures !status.UnknownAncestor? ==>
        && headers == old(headers)[KeyOf(header) := header]
        && current == if status.Canonical? then header else old(current)
      ensures old(Closed(headers, genesis)) ==> Closed(headers, genesis) && !status.Crashed?
      ensures old(Heaviest(headers, current)) && !status.Crashed? ==> Heaviest(headers, current)
    {
      hide PathSum, Rooted, At, IndexOf, PathStored, Sound, HeadersCached, SumsCached, NumbersCached, Heaviest, Closed;
      var ptd := GetTd(header.parent, Prev(header.number));
      if ptd.None? {
        return UnknownAncestor;
      }
      HeadIsKnown();
      var localTd := GetTd(currentHash, current.number);
      var externTd := header.difficulty + ptd.value;
      ParentPath(header);
      Store(header, externTd);
      if externTd > localTd.value || (externTd == localTd.value && coin) {
        var ok := MakeCanonical(header);
        if !ok {
          return Crashed;
        }
        status := Canonical;
      } else {
        status := Side;
      }
      Remember(header);
    }

    /** The path of a known parent is stored if the store is closed, whether or not the
        header itself is stored. */
    lemma ParentPath(header: Header)
      requires Stored() && Known(headers, header.parent) && header.number == header.parent.of.number + 1
      ensures PathStored(headers[KeyOf(header) := header], header.parent.of, genesis) <==>
        PathStored(headers, header.parent.of, genesis)
      ensures Closed(headers, genesis) ==> PathStored(headers, header.parent.of, genesis)
    {
      hide PathSum, PathStored, Rooted;
      assert headers[KeyOf(header.parent.of)] == header.parent.of;
      PathStoredBelow(headers, header, header.parent.of, genesis);
      if Closed(headers, genesis) {
        ClosedPaths(headers, numbers, tds, header.parent.of, genesis);
      }
    }

    lemma HeadIsKnown()
      requires Headed()
      ensures Known(headers, Digest(current)) && currentHash == Digest(current)
    {
    }

    /** Writes the total difficulty and the header to the database. */
    method Store(header: Header, td: nat)
      requires Valid() && Known(headers, header.parent) && header.number == header.parent.of.number + 1 < WORD - 1
      requires td == header.difficulty + PathSum(header.parent.of)
      modifies this`headers, this`numbers, this`tds, this`tdCache
      ensures Valid() && headers == old(headers)[KeyOf(header) := header]
      ensures Rooted(header, genesis) && td == PathSum(header)
      ensures old(Closed(headers, genesis)) ==> Closed(headers, genesis)
      ensures old(Heaviest(headers, current)) && td <= PathSum(current) ==> Heaviest(headers, current)
      ensures old(Heaviest(headers, current)) && td >= PathSum(current) ==> Heaviest(headers, header)
    {
      hide PathSum, Rooted, At, IndexOf, PathStored, Sound, HeadersCached, SumsCached, NumbersCached;
      hide Heaviest, Closed, Kept;
      WrittenHeader(headers, numbers, tds, header, genesis);
      ghost var more := headers[KeyOf(header) := header];
      CachesGrow(headers, more, headerCache, tdCache, numberCache);
      PathStoredGrows(headers, headers[KeyOf(header) := header], current, genesis);
      tds := tds[KeyOf(header) := td];
      var keep: set<Hash> := *;
      CacheMore(more, header, keep, headerCache, tdCache, numberCache);
      tdCache := Kept(tdCache[Digest(header) := td], keep);
      headers := headers[KeyOf(header) := header];
      numbers := numbers[Digest(header) := header.number];
    }

    /** Rewrites the canonical index to the path of a stored header and makes it the head;
        fails exactly when part of the path is missing. */
    method MakeCanonical(header: Header) returns (ok: bool)
      requires Valid() && Has(headers, header) && Rooted(header, genesis) && 0 < header.number < WORD - 1
        && header.parent.Digest?
      modifies this`canonical, this`headHash, this`current, this`currentHash, this`headerCache
      ensures Stored() && (ok <==> PathStored(headers, header.parent.of, genesis))
      ensures ok ==> Valid() && current == header
      ensures !ok ==> current == old(current)
    {
      hide PathSum, Rooted, At, IndexOf, PathStored, Sound, HeadersCached, SumsCached, NumbersCached;
      DropAbove(header.number);
      ok := Reroute(header);
      if ok {
        HeadedPath(header);
        canonical := canonical[header.number := Digest(header)];
        headHash := Digest(header);
        currentHash, current := headHash, header;
      }
    }

    lemma HeadedPath(header: Header)
      requires Has(headers, header) && header.parent.Digest? && PathStored(headers, header.parent.of, genesis)
      ensures PathStored(headers, header, genesis)
    {
    }

    /** Deletes the index entries above a number, which stop at the first absent one. */
    method DropAbove(number: nat)
      requires Headed()
      modifies this`canonical
      ensures canonical == map n | n in old(canonical) && n <= number :: old(canonical)[n]
    {
      var batch: set<nat>, i := {}, number + 1;
      while ReadCanonicalHash(i) != Zero
        invariant number < i && (forall n: nat :: n in batch <==> number < n < i)
          && (i > number + 1 ==> i <= current.number + 1)
        decreases current.number + 1 - i
      {
        batch := batch + {i};
        i := i + 1;
      }
      canonical := canonical - batch;
    }

    /** Overwrites stale index entries below a header, downwards until one is right. Stops at a
        missing header, which there is exactly if the path is not stored. */
    method Reroute(header: Header) returns (ok: bool)
      requires Stored() && Rooted(current, genesis) && Rooted(header, genesis) && genesis.number == 0 < header.number
      requires header.parent.Digest? && PathStored(headers, current, genesis)
      requires canonical == map n | n in IndexOf(current, genesis) && n <= header.number :: IndexOf(current, genesis)[n]
      modifies this`canonical, this`headerCache
      ensures Stored() && (ok <==> PathStored(headers, header.parent.of, genesis))
      ensures ok ==> canonical[header.number := Digest(header)] == IndexOf(header, genesis)
    {
      hide PathSum, At, IndexOf, Rooted, Sound, HeadersCached, SumsCached, NumbersCached, Rerouting, PathStored;
      ReroutingStarts(current, header, canonical, genesis);
      var headHash, headNumber: nat := header.parent, Prev(header.number);
      var headHeader := GetHeader(headHash, headNumber);
      while ReadCanonicalHash(headNumber) != headHash
        invariant Stored() && Rerouting(canonical, current, header, headNumber, genesis)
        invariant headNumber < header.number && headHash == Digest(At(header, headNumber, genesis))
        invariant headHeader == if Known(headers, headHash) then Some(headHash.of) else None
        invariant PathStored(headers, headHash.of, genesis) <==> PathStored(headers, header.parent.of, genesis)
        decreases headNumber
      {
        ReroutingStep(canonical, current, header, headNumber, genesis);
        canonical := canonical[headNumber := headHash];
        PathStoredStep(headers, headHash.of, genesis);
        if headHeader.None? {
          return false;
        }
        headHash, headNumber := headHeader.value.parent, Prev(headHeader.value.number);
        headHeader := GetHeader(headHash, headNumber);
      }
      ReroutingEnds(canonical, current, header, headNumber, genesis);
      StoredAt(headers, current, headNumber, genesis);
      ok := true;
    }

    /** Rewinds the chain to a number, or leaves it if it is not that high. */
    method SetHead(head: nat)
      requires Valid()
      modifies this
      ensures Valid()
      ensures var k := if head < old(current).number then head else old(current).number;
        && current == At(old(current), k, genesis)
        && headers == old(headers) - KeysOf(Above(old(current), k, genesis))
      ensures headerCache == map[] && tdCache == map[] && numberCache == map[]
    {
      hide PathSum, Sound, PathStored, HeadersCached, SumsCached, NumbersCached, At, IndexOf, Rooted, KeysOf;
      hide HashesOf, Above;
      var batch, hdr := Unwind(head);
      var dropped := NumbersAbove(head, current.number);
      Commit(batch, dropped, if hdr.None? then genesis else hdr.value);
    }

    /** Writes the batch of a rewind: the cut headers and index entries go, the caches
        are purged and the head moves. */
    method Commit(batch: set<Header>, dropped: set<nat>, next: Header)
      requires Valid() && next.number <= current.number && next == At(current, next.number, genesis)
      requires batch == Above(current, next.number, genesis)
      requires forall n: nat :: n in dropped <==> next.number < n <= current.number
      modifies this
      ensures Valid() && current == next && headers == old(headers) - KeysOf(batch)
      ensures headerCache == map[] && tdCache == map[] && numberCache == map[]
    {
      hide PathSum, Sound, PathStored, HeadersCached, SumsCached, NumbersCached, At, IndexOf, Rooted, KeysOf;
      hide HashesOf, Above;
      Rewound(headers, numbers, tds, current, next.number, genesis);
      IndexCut(current, next.number, dropped, genesis);
      headers, tds := headers - KeysOf(batch), tds - KeysOf(batch);
      numbers := numbers - HashesOf(batch);
      canonical := canonical - dropped;
      headerCache, tdCache, numberCache := map[], map[], map[];
      EmptyCaches(headers);
      current := next;
      currentHash := Digest(current);
      headHash := currentHash;
      assert Stored();
      assert Headed();
    }

    static method NumbersAbove(head: nat, height: nat) returns (dropped: set<nat>)
      ensures forall n: nat :: n in dropped <==> head < n <= height
    {
      dropped := {};
      var i := height;
      while i > head
        invariant i <= height && forall n: nat :: n in dropped <==> i < n && head < n <= height
      {
        dropped := dropped + {i};
        i := i - 1;
      }
    }

    /** Collects the headers above a number, walking down from the head. */
    method Unwind(head: nat) returns (batch: set<Header>, hdr: Option<Header>)
      requires Valid()
      modifies this`headerCache
      ensures Stored()
      ensures var k := if head < current.number then head else current.number;
        batch == Above(current, k, genesis) && hdr == Some(At(current, k, genesis))
    {
      hide PathSum, Sound, HeadersCached, SumsCached, NumbersCached, At, IndexOf, Rooted, Above;
      batch, hdr := {}, Some(current);
      AboveStep(current, current.number, genesis);
      ghost var m := current.number;
      AtSelf(current, genesis);
      while hdr.Some? && hdr.value.number > head
        invariant Stored() && m <= current.number && (m < current.number ==> m >= head)
        invariant hdr == Some(At(current, m, genesis)) && hdr.value.number == m
          && PathStored(headers, hdr.value, genesis)
        invariant batch == Above(current, m, genesis)
        decreases m
      {
        AboveStep(current, m, genesis);
        ParentAt(current, m, genesis);
        batch := batch + {hdr.value};
        hdr := GetHeader(hdr.value.parent, Prev(hdr.value.number));
        m := m - 1;
      }
    }

    method HasHeader(hash: Hash, number: nat) returns (has: bool)
      requires Stored()
      ensures has <==> Known(headers, hash) && (hash in numberCache || hash in headerCache || number == hash.of.number)
    {
      has := hash in numberCache || hash in headerCache || Key(hash, number) in headers;
    }

    /** Inserts headers in order until one has an unknown parent. The index stays the path of
        the current header; with a closed store nothing can fail, and from a heaviest
        header on the current one stays heaviest. */
    method InsertHeaderChain(chain: seq<Header>) returns (done: nat, crashed: bool)
      requires Valid()
      requires forall h :: h in chain ==>
        h.number < WORD - 1 && (h.parent.Digest? ==> h.number == h.parent.of.number + 1)
      modifies this
      ensures Stored() && (!crashed ==> Valid())
      ensures old(Closed(headers, genesis)) ==> !crashed && Closed(headers, genesis)
      ensures old(Heaviest(headers, current)) && !crashed ==> Heaviest(headers, current)
      ensures done <= |chain| && (forall h :: h in chain[..done] ==> Has(headers, h))
      ensures done < |chain| ==> crashed || !Known(headers, chain[done].parent)
      ensures crashed ==> done < |chain| && Has(headers, chain[done])
      ensures old(headers).Keys <= headers.Keys
    {
      hide PathSum, Sound, PathStored, HeadersCached, SumsCached, NumbersCached, At, IndexOf, Rooted, Closed, Heaviest;
      done, crashed := 0, false;
      while done < |chain|
        invariant Valid() && (old(Closed(headers, genesis)) ==> Closed(headers, genesis))
        invariant old(Heaviest(headers, current)) ==> Heaviest(headers, current)
        invariant done <= |chain| && (forall h :: h in chain[..done] ==> Has(headers, h))
        invariant old(headers).Keys <= headers.Keys
      {
        var header := chain[done];
        var has := HasHeader(Digest(header), header.number);
        if !has {
          var coin: bool := *;
          var status := WriteHeader(header, coin);
          if status == UnknownAncestor {
            return;
          }
          if status == Crashed {
            return done, true;
          }
        }
        assert chain[..done + 1] == chain[..done] + [header] && Has(headers, header);
        done := done + 1;
      }
    }

    /** A stored hash is asked for with the number of its header. */
    ghost predicate RightNumber(hash: Hash, number: nat)
      reads this
    {
      Known(headers, hash) ==> number == hash.of.number
    }

    lemma IndexIsDigests()
      requires Headed()
      ensures forall n: nat :: n in canonical <==> n <= current.number
      ensures forall n :: n in canonical ==> canonical[n] != Zero
    {
    }

    /** A stored header above the genesis has a parent with the number before its own. */
    lemma StoredNumbers()
      requires Stored()
      ensures forall h :: Has(headers, h) && h.number > 0 ==> h.parent.Digest? && h.parent.of.number == h.number - 1
    {
      forall h | Has(headers, h) && h.number > 0 ensures h.parent.Digest? && h.parent.of.number == h.number - 1 {
        assert headers[KeyOf(h)] == h;
      }
    }

    /** From a canonical header the index holds every further ancestor. */
    lemma OnIndex(hash: Hash, at: nat, n: nat)
      requires Headed() && n <= at && ReadCanonicalHash(at) == hash != Zero
      ensures Walk(hash, n) == ReadCanonicalHash(at - n) != Zero && hash.of.number == at
        && Walk(hash, n).of.number == at - n
    {
      AtAt(current, at, at - n, genesis);
      AtIsWalk(At(current, at, genesis), at - n, genesis);
    }

    /** The hash `ancestor` parent steps from a header. Steps off the canonical chain
        are counted against a budget; from the first canonical header on, the index is
        used instead. */
    method GetAncestor(hash: Hash, number: nat, ancestor: nat, maxNonCanonical: nat)
        returns (found: Hash, at: nat, left: nat)
      requires Valid()
      modifies this`headerCache
      ensures Valid() && left <= maxNonCanonical
      ensures RightNumber(hash, number) && found != Zero && hash != Zero ==>
        ancestor <= number && found == Walk(hash, ancestor) && at == number - ancestor
      ensures hash == Zero ==>
        found ==
          if number <= current.number || ancestor <= 1 || ancestor > number then Zero
          else ReadCanonicalHash(number - ancestor)
      ensures RightNumber(hash, number) && Known(headers, hash) && PathStored(headers, hash.of, genesis) ==>
        (found != Zero <==>
          ancestor <= number && (ancestor == 1 || Off(canonical, hash, number, ancestor) <= maxNonCanonical))
      ensures RightNumber(hash, number) && Known(headers, hash) && PathStored(headers, hash.of, genesis) ==>
        (found == Zero ==> at == 0)
      ensures RightNumber(hash, number) && found != Zero && hash != Zero && ancestor != 1 ==>
        left == maxNonCanonical - Off(canonical, hash, number, ancestor)
      ensures ancestor <= 1 ==> left == maxNonCanonical
      ensures RightNumber(hash, number) && Known(headers, hash) && found != Zero ==> at == found.of.number
    {
      hide PathSum, Sound, At, IndexOf, HeadersCached, SumsCached, NumbersCached;
      left := maxNonCanonical;
      ghost var right := RightNumber(hash, number);
      IndexIsDigests();
      StoredNumbers();
      if ancestor > number {
        return Zero, 0, left;
      }
      if ancestor == 1 {
        var header := GetHeader(hash, number);
        if header.Some? {
          return header.value.parent, Prev(number), left;
        }
        return Zero, 0, left;
      }
      var rest: nat := ancestor;
      found, at := hash, number;
      while rest != 0
        invariant Valid() && rest <= ancestor <= number && at == number - (ancestor - rest)
          && left + (ancestor - rest) == maxNonCanonical
        invariant right ==> Walk(found, rest) == Walk(hash, ancestor)
        invariant hash == Zero ==> rest == ancestor && found == hash
        invariant right ==> (hash != Zero ==> found != Zero)
        invariant right ==> (Known(headers, found) ==> at == found.of.number)
        invariant right ==> (Known(headers, hash) ==> at == found.of.number)
        invariant right && Known(headers, hash) && PathStored(headers, hash.of, genesis) ==>
          Known(headers, found) && PathStored(headers, found.of, genesis)
        invariant right ==> Off(canonical, hash, number, ancestor) == ancestor - rest + Off(canonical, found, at, rest)
        decreases rest
      {
        if ReadCanonicalHash(at) == found {
          if found != Zero {
            OnIndex(found, at, rest);
          }
          at := at - rest;
          return ReadCanonicalHash(at), at, left;
        }
        if left == 0 {
          return Zero, 0, left;
        }
        left := left - 1;
        rest := rest - 1;
        var header := GetHeader(found, at);
        if header.None? {
          return Zero, 0, left;
        }
        found := header.value.parent;
        at := Prev(at);
      }
    }

    method Remember(header: Header)
      requires Valid() && Has(headers, header)
      modifies this`headerCache, this`numberCache
      ensures Valid()
    {
      hide PathSum, Rooted, At, IndexOf, PathStored, Sound, HeadersCached, SumsCached, NumbersCached, Kept;
      var keep: set<Hash>, keep': set<Hash> := *, *;
      CacheMore(headers, header, keep, headerCache, tdCache, numberCache);
      CacheMore(headers, header, keep', headerCache, tdCache, numberCache);
      headerCache := Kept(headerCache[Digest(header) := header], keep);
      numberCache := Kept(numberCache[Digest(header) := header.number], keep');
    }
  }

  /** How many of the first n headers on the way down from a hash are passed before
      one is canonical. */
  ghost function Off(canonical: map<nat, Hash>, hash: Hash, number: nat, n: nat): nat
    decreases n
  {
    if n == 0 || hash.Zero? || (number in canonical && canonical[number] == hash) then 0
    else 1 + Off(canonical, hash.of.parent, Prev(number), n - 1)
  }

  /** A run that crashes: `a` and then `h` become the head, `side` is a side branch on `a`, a rewind
      to the genesis takes `a` and `h` away but leaves `side`, and then a heavier child of `side`
      arrives. */
  method OrphanCrashes(g: Header, a: Header, h: Header, side: Header, child: Header)
      returns (c: HeaderChain, status: WriteStatus)
    requires g.number == 0 && g.parent.Zero? && a.parent == Digest(g) && a.number == 1 && a.difficulty > 0
    requires h.parent == side.parent == Digest(a) && h.number == side.number == 2 && h != side
    requires h.difficulty > 0 && side.difficulty <= h.difficulty && child.parent == Digest(side) && child.number == 3
    ensures status == Crashed && c.current == g && Known(c.headers, Digest(side)) && !Known(c.headers, Digest(a))
  {
    hide HeaderChain.Headed, HeaderChain.Stored, Closed, Heaviest, Rooted, At, PathStored, PathSum, KeysOf, Above;
    c := new HeaderChain(g);
    c.HeadIsKnown();
    SumBelow(a);
    SumBelow(h);
    SumBelow(side);
    SumBelow(child);
    var _ := c.WriteHeader(a, false);
    var _ := c.WriteHeader(h, false);
    var _ := c.WriteHeader(side, false);
    assert c.current == h && Has(c.headers, side);
    TwoAbove(g, a, h, side);
    c.SetHead(0);
    PathNeedsParent(c.headers, side, g);
    status := c.WriteHeader(child, false);
  }

  lemma {:induction false} SumBelow(h: Header)
    requires h.parent.Digest?
    ensures PathSum(h) == h.difficulty + PathSum(h.parent.of)
  {
  }

  lemma {:induction false} PathNeedsParent(headers: HeaderMap, h: Header, g: Header)
    requires h != g && h.parent.Digest?
    ensures PathStored(headers, h, g) ==> Has(headers, h.parent.of)
  {
    assert PathStored(headers, h, g) ==> PathStored(headers, h.parent.of, g);
  }

  lemma {:induction false} TwoAbove(g: Header, a: Header, h: Header, side: Header)
    requires g.number == 0 && a.parent == Digest(g) && a.number == 1
    requires h.parent == Digest(a) && h.number == side.number == 2 && h != side
    ensures Rooted(h, g) && At(h, 0, g) == g
    ensures KeyOf(a) in KeysOf(Above(h, 0, g)) && KeyOf(side) !in KeysOf(Above(h, 0, g))
  {
    assert Rooted(a, g) && Rooted(h, g);
    AtZero(h, g);
    assert At(h, 2, g) == h && At(a, 1, g) == a && At(h, 1, g) == At(a, 1, g);
    assert a in Above(h, 0, g);
  }
}
