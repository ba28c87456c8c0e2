/** Block headers with ideal hashes: a hash determines its header, so the ancestor
    path of a header is part of the header itself. */
module Headers {
  const WORD := 0x1_0000_0000_0000_0000

  /** One less in 64-bit arithmetic. */
  function Prev(n: nat): nat { if n == 0 then WORD - 1 else n - 1 }

  datatype Hash = Zero | Digest(of: Header)

  /** The body is what a header commits to: its transactions. */
  datatype Header = Header(parent: Hash, number: nat, difficulty: nat, body: seq<int>)

  /** The database key of a header. */
  datatype Key = Key(hash: Hash, number: nat)

  function KeyOf(h: Header): Key { Key(Digest(h), h.number) }

  type HeaderMap = map<Key, Header>

  /** The hash n parent steps away; zero stays zero. */
  ghost function Walk(hash: Hash, n: nat): Hash
    decreases n
  {
    if n == 0 || hash.Zero? then hash else Walk(hash.of.parent, n - 1)
  }

  /** The path of h ends at the genesis header g and is correctly numbered. */
  ghost predicate Rooted(h: Header, g: Header)
    decreases h
  {
    h == g || (h.parent.Digest? && h.number == h.parent.of.number + 1 && Rooted(h.parent.of, g))
  }

  /** The header with number n on the path of h. */
  ghost function At(h: Header, n: nat, g: Header): (a: Header)
    requires Rooted(h, g) && g.number == 0 && n <= h.number
    ensures Rooted(a, g) && a.number == n
    decreases h
  {
    if n == h.number then h else At(h.parent.of, n, g)
  }

  /** The canonical index of a chain that ends in h: its whole path and nothing above. */
  ghost function IndexOf(h: Header, g: Header): map<nat, Hash>
    requires Rooted(h, g) && g.number == 0
  {
    map n: nat | n <= h.number :: Digest(At(h, n, g))
  }

  /** The sum of the difficulties on the path of h. */
  ghost function PathSum(h: Header): nat
    decreases h
  {
    h.difficulty + if h.parent.Digest? then PathSum(h.parent.of) else 0
  }

  lemma {:induction false} AtZero(h: Header, g: Header)
    requires Rooted(h, g) && g.number == 0
    ensures At(h, 0, g) == g
    decreases h
  {
    if h.number > 0 {
      AtZero(h.parent.of, g);
    }
  }

  /** A path is also the path of every header on it. */
  lemma {:induction false} AtAt(h: Header, m: nat, n: nat, g: Header)
    requires Rooted(h, g) && g.number == 0 && n <= m <= h.number
    ensures At(At(h, m, g), n, g) == At(h, n, g)
    decreases h
  {
    if m < h.number {
      AtAt(h.parent.of, m, n, g);
    }
  }

  lemma ParentAt(h: Header, m: nat, g: Header)
    requires Rooted(h, g) && g.number == 0 < m <= h.number
    ensures At(h, m, g).parent == Digest(At(h, m - 1, g)) && At(h, m, g) != g
  {
    AtAt(h, m, m - 1, g);
  }

  /** Positions on the path are parent steps from the end. */
  lemma {:induction false} AtIsWalk(h: Header, n: nat, g: Header)
    requires Rooted(h, g) && g.number == 0 && n <= h.number
    ensures Digest(At(h, n, g)) == Walk(Digest(h), h.number - n)
    decreases h
  {
    if n < h.number {
      AtIsWalk(h.parent.of, n, g);
    }
  }

  ghost predicate Has(headers: HeaderMap, h: Header) { KeyOf(h) in headers }

  ghost predicate Known(headers: HeaderMap, hash: Hash) { hash.Digest? && Has(headers, hash.of) }

  /** Every header on the path of h is stored. */
  ghost predicate PathStored(headers: HeaderMap, h: Header, g: Header)
    decreases h
  {
    Has(headers, h) && (h == g || (h.parent.Digest? && PathStored(headers, h.parent.of, g)))
  }

  lemma PathStoredStep(headers: HeaderMap, h: Header, g: Header)
    ensures PathStored(headers, h, g) ==> Has(headers, h)
    ensures h != g && h.parent.Digest? && Has(headers, h) ==>
      (PathStored(headers, h, g) <==> PathStored(headers, h.parent.of, g))
  {
  }

  lemma {:induction false} StoredAt(headers: HeaderMap, h: Header, n: nat, g: Header)
    requires Rooted(h, g) && g.number == 0 && n <= h.number && PathStored(headers, h, g)
    ensures PathStored(headers, At(h, n, g), g)
    decreases h
  {
    if n < h.number {
      StoredAt(headers, h.parent.of, n, g);
    }
  }

  lemma {:induction false} PathStoredGrows(headers: HeaderMap, more: HeaderMap, h: Header, g: Header)
    requires PathStored(headers, h, g) && headers.Keys <= more.Keys
    ensures PathStored(more, h, g)
    decreases h
  {
    if h != g {
      PathStoredGrows(headers, more, h.parent.of, g);
    }
  }

  /** A header further up does not matter for a path. */
  lemma {:induction false} PathStoredBelow(headers: HeaderMap, h: Header, x: Header, g: Header)
    requires Rooted(x, g) && x.number < h.number
    ensures PathStored(headers[KeyOf(h) := h], x, g) <==> PathStored(headers, x, g)
    decreases x
  {
    if x != g {
      PathStoredBelow(headers, h, x.parent.of, g);
    }
  }

  /** Every stored header other than the genesis has its parent stored. */
  ghost predicate Closed(headers: HeaderMap, g: Header) {
    forall k :: k in headers && headers[k] != g ==> Known(headers, headers[k].parent)
  }

  /** What the database says is consistent: each header under its own key and rooted,
      with its number and the difficulty sum of its path. */
  ghost predicate Sound(headers: HeaderMap, numbers: map<Hash, nat>, tds: map<Key, nat>, g: Header) {
    && g.number == 0 && g.parent.Zero? && Has(headers, g)
    && (forall k :: k in headers ==> k == KeyOf(headers[k]) && Rooted(headers[k], g) && headers[k].number < WORD - 1)
    && (forall x :: x in numbers <==> Known(headers, x))
    && (forall x :: x in numbers ==> numbers[x] == x.of.number)
    && (forall k :: k in tds <==> k in headers)
    && (forall k :: k in tds ==> tds[k] == PathSum(headers[k]))
  }

  // Whatever a cache holds, the store holds too.

  ghost predicate HeadersCached(headers: HeaderMap, cache: map<Hash, Header>) {
    forall x :: x in cache ==> Known(headers, x) && cache[x] == x.of
  }

  ghost predicate SumsCached(headers: HeaderMap, cache: map<Hash, nat>) {
    forall x :: x in cache ==> Known(headers, x) && cache[x] == PathSum(x.of)
  }

  ghost predicate NumbersCached(headers: HeaderMap, cache: map<Hash, nat>) {
    forall x :: x in cache ==> Known(headers, x) && cache[x] == x.of.number
  }

  /** What is left of a cache after any evictions. */
  function Kept<V>(cache: map<Hash, V>, keep: set<Hash>): map<Hash, V> {
    map x | x in cache && x in keep :: cache[x]
  }

  /** Adding what is stored, and evicting anything, keeps the caches right. */
  lemma CacheMore(headers: HeaderMap, h: Header, keep: set<Hash>,
                  headerCache: map<Hash, Header>, tdCache: map<Hash, nat>, numberCache: map<Hash, nat>)
    requires Has(headers, h)
    ensures HeadersCached(headers, headerCache) ==> HeadersCached(headers, Kept(headerCache[Digest(h) := h], keep))
    ensures SumsCached(headers, tdCache) ==> SumsCached(headers, Kept(tdCache[Digest(h) := PathSum(h)], keep))
    ensures NumbersCached(headers, numberCache) ==>
      NumbersCached(headers, Kept(numberCache[Digest(h) := h.number], keep))
  {
  }

  lemma CachesGrow(headers: HeaderMap, more: HeaderMap,
                   headerCache: map<Hash, Header>, tdCache: map<Hash, nat>, numberCache: map<Hash, nat>)
    requires headers.Keys <= more.Keys
    requires HeadersCached(headers, headerCache) && SumsCached(headers, tdCache) && NumbersCached(headers, numberCache)
    ensures HeadersCached(more, headerCache) && SumsCached(more, tdCache) && NumbersCached(more, numberCache)
  {
  }

  ghost predicate Heaviest(headers: HeaderMap, h: Header) {
    forall k :: k in headers ==> PathSum(headers[k]) <= PathSum(h)
  }

  /** In a closed store all paths are stored. */
  lemma {:induction false} ClosedPaths(headers: HeaderMap, numbers: map<Hash, nat>, tds: map<Key, nat>, h: Header,
                                       g: Header)
    requires Sound(headers, numbers, tds, g) && Closed(headers, g) && Has(headers, h)
    ensures PathStored(headers, h, g)
    decreases h
  {
    assert headers[KeyOf(h)] == h;
    if h != g {
      ClosedPaths(headers, numbers, tds, h.parent.of, g);
    }
  }

  /** Writing a header whose parent is stored. */
  lemma WrittenHeader(headers: HeaderMap, numbers: map<Hash, nat>, tds: map<Key, nat>, h: Header, g: Header)
    requires Sound(headers, numbers, tds, g) && Known(headers, h.parent)
      && h.number == h.parent.of.number + 1 < WORD - 1
    ensures var headers', numbers', tds' := headers[KeyOf(h) := h], numbers[Digest(h) := h.number],
      tds[KeyOf(h) := PathSum(h)];
      && Sound(headers', numbers', tds', g) && Rooted(h, g)
      && PathSum(h) == h.difficulty + PathSum(h.parent.of)
      && (Closed(headers, g) ==> Closed(headers', g))
      && (forall top: Header :: Heaviest(headers, top) && PathSum(h) <= PathSum(top) ==> Heaviest(headers', top))
      && (forall top: Header :: Heaviest(headers, top) && PathSum(h) >= PathSum(top) ==> Heaviest(headers', h))
  {
    assert headers[KeyOf(h.parent.of)] == h.parent.of;
  }

  /** The index while it is being rerouted to h: above m it follows h, up to m it is
      still the index of the base. */
  ghost predicate Rerouting(index: map<nat, Hash>, base: Header, h: Header, m: nat, g: Header)
    requires Rooted(base, g) && Rooted(h, g) && g.number == 0
  {
    && m < h.number
    && (forall n :: n in index ==> n <= h.number)
    && (forall n :: m < n < h.number ==> n in index && index[n] == Digest(At(h, n, g)))
    && (forall n :: 0 <= n <= m ==> (n in index <==> n <= base.number))
    && (forall n :: 0 <= n <= m && n in index ==> index[n] == Digest(At(base, n, g)))
  }

  lemma ReroutingStarts(base: Header, h: Header, index: map<nat, Hash>, g: Header)
    requires Rooted(base, g) && Rooted(h, g) && g.number == 0 < h.number
    requires index == map n | n in IndexOf(base, g) && n <= h.number :: IndexOf(base, g)[n]
    ensures Rerouting(index, base, h, h.number - 1, g)
    ensures h.parent == Digest(At(h, h.number - 1, g))
  {
  }

  /** Overwriting one stale entry; the genesis entry is never stale. */
  lemma ReroutingStep(index: map<nat, Hash>, base: Header, h: Header, m: nat, g: Header)
    requires Rooted(base, g) && Rooted(h, g) && g.number == 0 && Rerouting(index, base, h, m, g)
    requires !(m in index && index[m] == Digest(At(h, m, g)))
    ensures m > 0 && Rerouting(index[m := Digest(At(h, m, g))], base, h, m - 1, g)
    ensures At(h, m, g).parent == Digest(At(h, m - 1, g)) && At(h, m, g) != g
  {
    AtZero(h, g);
    AtZero(base, g);
    ParentAt(h, m, g);
  }

  /** Once an entry is right, all below it are, and the index is that of h. */
  lemma ReroutingEnds(index: map<nat, Hash>, base: Header, h: Header, m: nat, g: Header)
    requires Rooted(base, g) && Rooted(h, g) && g.number == 0 && Rerouting(index, base, h, m, g)
    requires m in index && index[m] == Digest(At(h, m, g))
    ensures index[h.number := Digest(h)] == IndexOf(h, g) && m <= base.number && At(base, m, g) == At(h, m, g)
  {
    forall n: nat | n <= m ensures At(base, n, g) == At(h, n, g) {
      AtAt(base, m, n, g);
      AtAt(h, m, n, g);
    }
  }

  /** The path of h above number k. */
  ghost function Above(h: Header, k: nat, g: Header): set<Header>
    requires Rooted(h, g) && g.number == 0
  {
    set n: nat | k < n <= h.number :: At(h, n, g)
  }

  lemma AtSelf(h: Header, g: Header)
    requires Rooted(h, g) && g.number == 0
    ensures At(h, h.number, g) == h
  {
  }

  lemma EmptyCaches(headers: HeaderMap)
    ensures HeadersCached(headers, map[]) && SumsCached(headers, map[]) && NumbersCached(headers, map[])
  {
  }

  lemma AboveStep(h: Header, k: nat, g: Header)
    requires Rooted(h, g) && g.number == 0
    ensures k >= h.number ==> Above(h, k, g) == {}
    ensures 0 < k <= h.number ==> Above(h, k - 1, g) == Above(h, k, g) + {At(h, k, g)}
  {
  }

  function KeysOf(hs: set<Header>): set<Key> { set h | h in hs :: KeyOf(h) }

  function HashesOf(hs: set<Header>): set<Hash> { set h | h in hs :: Digest(h) }

  /** Cutting the path above k leaves a consistent store and the path up to k. */
  lemma Rewound(headers: HeaderMap, numbers: map<Hash, nat>, tds: map<Key, nat>, h: Header, k: nat, g: Header)
    requires Sound(headers, numbers, tds, g) && Rooted(h, g) && PathStored(headers, h, g) && k <= h.number
    ensures var cut := Above(h, k, g);
      && Sound(headers - KeysOf(cut), numbers - HashesOf(cut), tds - KeysOf(cut), g)
      && PathStored(headers - KeysOf(cut), At(h, k, g), g)
  {
    var cut := Above(h, k, g);
    assert forall x: Header :: KeyOf(x) in KeysOf(cut) <==> x in cut;
    StillStored(headers, h, k, k, g);
  }

  lemma {:induction false} StillStored(headers: HeaderMap, h: Header, k: nat, n: nat, g: Header)
    requires Rooted(h, g) && g.number == 0 && PathStored(headers, h, g) && n <= k <= h.number
    ensures PathStored(headers - KeysOf(Above(h, k, g)), At(h, n, g), g)
  {
    StoredAt(headers, h, n, g);
    if n > 0 {
      ParentAt(h, n, g);
      StillStored(headers, h, k, n - 1, g);
    } else {
      AtZero(h, g);
    }
  }

  lemma IndexCut(h: Header, k: nat, dropped: set<nat>, g: Header)
    requires Rooted(h, g) && g.number == 0 && k <= h.number
    requires forall n: nat :: n in dropped <==> k < n <= h.number
    ensures IndexOf(h, g) - dropped == IndexOf(At(h, k, g), g)
  {
    forall n: nat | n <= k ensures At(At(h, k, g), n, g) == At(h, n, g) {
      AtAt(h, k, n, g);
    }
  }

  /** A cut keeps the store closed exactly when no header that stays had its parent cut. */
  lemma ClosedAfterCut(headers: HeaderMap, h: Header, k: nat, g: Header)
    requires Rooted(h, g) && g.number == 0 && Closed(headers, g)
    requires forall x :: x in headers ==> x == KeyOf(headers[x])
    ensures var cut := Above(h, k, g);
      Closed(headers - KeysOf(cut), g) <==>
        forall x :: x in headers && headers[x] !in cut && headers[x] != g ==> headers[x].parent.of !in cut
  {
    var cut := Above(h, k, g);
    assert forall x: Header :: KeyOf(x) in KeysOf(cut) <==> x in cut;
    var rest := headers - KeysOf(cut);
    if Closed(rest, g) {
      forall x | x in headers && headers[x] !in cut && headers[x] != g ensures headers[x].parent.of !in cut {
        assert x in rest;
      }
    }
  }

  /** A cut can orphan a side header: it stays stored while its parent is gone. */
  lemma CutCanOrphan()
    ensures exists headers: HeaderMap, h, g ::
      && Rooted(h, g) && g.number == 0 && PathStored(headers, h, g) && Closed(headers, g)
      && !Closed(headers - KeysOf(Above(h, 0, g)), g)
  {
    var g := Header(Zero, 0, 1, []);
    var a := Header(Digest(g), 1, 1, []);
    var h := Header(Digest(a), 2, 1, []);
    var side := Header(Digest(a), 2, 1, [1]);
    var headers := map[KeyOf(g) := g, KeyOf(a) := a, KeyOf(h) := h, KeyOf(side) := side];
    assert PathStored(headers, a, g) && PathStored(headers, h, g);
    assert At(h, 1, g) == a && At(h, 2, g) == h;
    var rest := headers - KeysOf(Above(h, 0, g));
    assert a in Above(h, 0, g) && KeyOf(a) in KeysOf(Above(h, 0, g));
    assert forall x :: x in Above(h, 0, g) ==> x == a || x == h;
    assert KeyOf(side) in rest && !Known(rest, rest[KeyOf(side)].parent);
  }
}
