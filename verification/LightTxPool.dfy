/** The light client's transaction pool: it follows the chain head block by block and
    records in which block each local transaction was mined. */
module LightTxPools {
  import opened Headers

  type Tx = int

  const TX_PERMANENT := 500

  /** What has changed since the start of a head change: true is mined, false rolled back. */
  type TxStateChanges = map<Tx, bool>

  function SetState(txc: TxStateChanges, tx: Tx, mined: bool): TxStateChanges {
    if tx in txc && txc[tx] != mined then txc - {tx} else txc[tx := mined]
  }

  ghost predicate NoDuplicates(s: seq<Tx>) { forall i, j :: 0 <= i < j < |s| ==> s[i] != s[j] }

  ghost predicate OnPath(b: Hash, h: Header, g: Header)
    requires Rooted(h, g) && g.number == 0
  {
    b.Digest? && b.of.number <= h.number && At(h, b.of.number, g) == b.of
  }

  /** Some block on the path contains the transaction. */
  ghost predicate InPath(tx: Tx, h: Header, g: Header)
    requires Rooted(h, g)
    decreases h
  {
    tx in h.body || (h != g && InPath(tx, h.parent.of, g))
  }

  /** No transaction occurs twice on the path, as account nonces see to. */
  ghost predicate NoRepeat(h: Header, g: Header)
    requires Rooted(h, g)
    decreases h
  {
    NoDuplicates(h.body) && (h == g
      || (NoRepeat(h.parent.of, g) && forall tx :: tx in h.body ==> !InPath(tx, h.parent.of, g)))
  }

  lemma {:induction false} PathContains(b: Hash, h: Header, g: Header, tx: Tx)
    requires Rooted(h, g) && g.number == 0 && OnPath(b, h, g) && tx in b.of.body
    ensures InPath(tx, h, g)
    decreases h
  {
    if b.of != h {
      PathContains(b, h.parent.of, g, tx);
    }
  }

  /** A transaction is in at most one block of a path. */
  lemma {:induction false} OnlyBlock(b: Hash, c: Hash, h: Header, g: Header, tx: Tx)
    requires Rooted(h, g) && g.number == 0 && NoRepeat(h, g)
    requires OnPath(b, h, g) && OnPath(c, h, g) && tx in b.of.body && tx in c.of.body
    ensures b == c
    decreases h
  {
    if b.of != h && c.of != h {
      OnlyBlock(b, c, h.parent.of, g, tx);
    } else if b.of != h {
      PathContains(b, h.parent.of, g, tx);
    } else if c.of != h {
      PathContains(c, h.parent.of, g, tx);
    }
  }

  /** The records fit the path of h: pending transactions are on none of its blocks, and
      each record of a mined one names the block on the path that contains it. */
  ghost predicate Records(h: Header, g: Header, pending: set<Tx>, mined: map<Hash, seq<Tx>>)
    requires Rooted(h, g) && g.number == 0
  {
    AllRecorded(h, g, mined) && forall tx :: !Astray(h, g, pending, tx)
  }

  ghost predicate AllRecorded(h: Header, g: Header, mined: map<Hash, seq<Tx>>)
    requires Rooted(h, g) && g.number == 0
  {
    forall b :: b in mined ==> Recorded(b, mined[b], h, g)
  }

  /** The transaction is pending, but on the path of h. */
  ghost predicate Astray(h: Header, g: Header, pending: set<Tx>, tx: Tx)
    requires Rooted(h, g)
  {
    tx in pending && InPath(tx, h, g)
  }

  ghost predicate Recorded(b: Hash, list: seq<Tx>, h: Header, g: Header)
    requires Rooted(h, g) && g.number == 0
  {
    OnPath(b, h, g) && NoDuplicates(list) && forall tx :: tx in list ==> tx in b.of.body
  }

  ghost predicate Tracked(pending: set<Tx>, mined: map<Hash, seq<Tx>>, tx: Tx) {
    tx in pending || exists b :: b in mined && tx in mined[b]
  }

  /** A tracked transaction is recorded as mined in exactly the block on the path that
      contains it, and otherwise it is pending; never both. */
  lemma StatusIsExact(h: Header, g: Header, pending: set<Tx>, mined: map<Hash, seq<Tx>>, tx: Tx, b: Hash)
    requires Rooted(h, g) && g.number == 0 && NoRepeat(h, g) && Records(h, g, pending, mined)
      && Tracked(pending, mined, tx)
    ensures b in mined && tx in mined[b] <==> OnPath(b, h, g) && tx in b.of.body
    ensures tx in pending <==> !InPath(tx, h, g)
    ensures tx in pending <==> !exists c :: c in mined && tx in mined[c]
  {
    assert !Astray(h, g, pending, tx);
    if exists c :: c in mined && tx in mined[c] {
      var c :| c in mined && tx in mined[c];
      assert Recorded(c, mined[c], h, g);
      PathContains(c, h, g, tx);
      if OnPath(b, h, g) && tx in b.of.body {
        OnlyBlock(b, c, h, g, tx);
      }
    } else if OnPath(b, h, g) && tx in b.of.body {
      PathContains(b, h, g, tx);
    }
  }

  function Elements(s: seq<Tx>): set<Tx> { set x | x in s }

  /** Rolling back the block at the end of the path: the other records fit the path below, and
      nothing goes astray. */
  lemma RolledBack(h: Header, g: Header, pending: set<Tx>, mined: map<Hash, seq<Tx>>)
    requires Rooted(h, g) && g.number == 0 && h != g && NoRepeat(h, g) && AllRecorded(h, g, mined)
    ensures var list := if Digest(h) in mined then mined[Digest(h)] else [];
      && AllRecorded(h.parent.of, g, mined - {Digest(h)})
      && forall tx :: Astray(h.parent.of, g, pending + Elements(list), tx) ==> Astray(h, g, pending, tx)
  {
    var list := if Digest(h) in mined then mined[Digest(h)] else [];
    assert list == [] || Recorded(Digest(h), list, h, g);
    assert forall tx :: tx in list ==> !InPath(tx, h.parent.of, g);
    forall b | b in mined - {Digest(h)} ensures Recorded(b, mined[b], h.parent.of, g) {
      assert Recorded(b, mined[b], h, g);
    }
  }

  /** Checking the block after the end of the path: its pending transactions are recorded, and
      nothing goes astray. */
  lemma Checked(h: Header, g: Header, pending: set<Tx>, mined: map<Hash, seq<Tx>>, list: seq<Tx>)
    requires Rooted(h, g) && g.number == 0 && h != g && AllRecorded(h.parent.of, g, mined)
    requires NoDuplicates(list) && forall tx :: tx in list <==> tx in h.body && tx in pending
    ensures Digest(h) !in mined
    ensures list == [] ==> AllRecorded(h, g, mined)
    ensures AllRecorded(h, g, mined[Digest(h) := list])
    ensures forall tx :: Astray(h, g, pending - Elements(list), tx) ==> Astray(h.parent.of, g, pending, tx)
  {
    forall b | b in mined ensures b != Digest(h) && Recorded(b, mined[b], h, g) {
      assert Recorded(b, mined[b], h.parent.of, g);
    }
    assert Recorded(Digest(h), list, h, g);
  }

  /** The change map is exactly the difference between two sets of pending transactions. */
  ghost predicate Difference(txc: TxStateChanges, before: set<Tx>, now: set<Tx>) {
    && (forall tx :: tx in txc && txc[tx] <==> tx in before && tx !in now)
    && (forall tx :: tx in txc && !txc[tx] <==> tx !in before && tx in now)
  }

  lemma NoDifference(pending: set<Tx>)
    ensures Difference(map[], pending, pending)
  {
  }

  lemma DifferenceMined(txc: TxStateChanges, before: set<Tx>, now: set<Tx>, tx: Tx)
    requires Difference(txc, before, now) && tx in now
    ensures Difference(SetState(txc, tx, true), before, now - {tx})
  {
  }

  /** A transaction that is pending all the while and recorded as mined counts as mined. */
  lemma DifferenceRolledBack(txc: TxStateChanges, before: set<Tx>, now: set<Tx>, tx: Tx)
    requires Difference(txc, before, now)
    ensures Difference(SetState(txc, tx, false), if tx in now then before - {tx} else before, now + {tx})
  {
  }

  /** Moving transactions between pending and one block's record tracks the same ones. */
  lemma TrackedMove(pending: set<Tx>, mined: map<Hash, seq<Tx>>, pending': set<Tx>, mined': map<Hash, seq<Tx>>,
                    b: Hash, list: seq<Tx>)
    requires b !in mined' && pending' == pending + Elements(list)
    requires mined == mined'[b := list] || (list == [] && mined == mined')
    ensures forall tx :: Tracked(pending', mined', tx) <==> Tracked(pending, mined, tx)
  {
    forall tx ensures Tracked(pending', mined', tx) <==> Tracked(pending, mined, tx) {
      if exists c :: c in mined' && tx in mined'[c] {
        var c :| c in mined' && tx in mined'[c];
        assert c in mined && tx in mined[c];
      }
      if tx in list {
        assert b in mined && tx in mined[b];
      }
    }
  }

  /** The blocks and the receipts that can be fetched at the time. */
  datatype Odr = Odr(blocks: set<Hash>, receipts: set<Hash>)

  /** A block can be checked: nothing is pending, or its body can be fetched and, if it has a
      pending transaction, its receipts. */
  ghost predicate Checkable(odr: Odr, pending: set<Tx>, h: Header) {
    || pending == {}
    || (Digest(h) in odr.blocks && (Digest(h) in odr.receipts || forall tx :: tx in h.body ==> tx !in pending))
  }

  lemma ReceiptsNeeded(odr: Odr, pending: set<Tx>, h: Header, tx: Tx)
    requires tx in h.body && tx in pending
    ensures Checkable(odr, pending, h) <==> Digest(h) in odr.blocks && Digest(h) in odr.receipts
  {
  }

  /** What can happen to the pool: a transaction is submitted while the chain is at `current`, or
      the chain has a new head. */
  datatype Event =
    | Submit(tx: Tx, current: Header)
    | NewHead(header: Header, canonical: map<nat, Hash>, odr: Odr)
  {
    ghost predicate Possible(g: Header) {
      match this
      case Submit(tx, current) => Rooted(current, g) && !InPath(tx, current, g)
      case NewHead(header, canonical, _) => Rooted(header, g) && NoRepeat(header, g) && Numbered(canonical)
    }
  }

  /** The transaction was submitted, or astray at first, and all new heads since have it. */
  ghost predicate Suspect(events: seq<Event>, g: Header, tx: Tx, first: bool) {
    if events == [] then first
    else
      var n := |events| - 1;
      SuspectNow(events[n], g, tx, Suspect(events[..n], g, tx, first))
  }

  ghost predicate SuspectNow(event: Event, g: Header, tx: Tx, before: bool) {
    match event
    case Submit(t, _) => t == tx || before
    case NewHead(header, _, _) => before && Rooted(header, g) && InPath(tx, header, g)
  }

  datatype Snapshot = Snapshot(head: Hash, pending: set<Tx>, mined: map<Hash, seq<Tx>>)

  /** What an event does to the pool: a transaction becomes pending, or the pool follows the chain
      to the new head, or up to a block that cannot be checked. */
  ghost predicate Happened(s: Snapshot, event: Event, t: Snapshot, g: Header) {
    match event
    case Submit(tx, _) => t == s.(pending := s.pending + {tx})
    case NewHead(header, _, odr) =>
      && g.number == 0 && Rooted(header, g) && OnPath(t.head, header, g)
      && (forall tx :: Tracked(t.pending, t.mined, tx) ==> Tracked(s.pending, s.mined, tx))
      && (t.head == Digest(header) ||
          (t.head.of.number < header.number && !Checkable(odr, t.pending, At(header, t.head.of.number + 1, g))))
  }

  class LightTxPool {
    const genesis: Header
    var head: Hash
    var pending: set<Tx>
    var mined: map<Hash, seq<Tx>>
    var clearIdx: nat

    ghost function View(): Snapshot
      reads this
    {
      Snapshot(head, pending, mined)
    }

    ghost predicate Follows(h: Header)
      reads this
    {
      genesis.number == 0 && Rooted(h, genesis) && NoRepeat(h, genesis) && AllRecorded(h, genesis, mined)
    }

    /** What holds in every state: what is recorded as mined is. */
    ghost predicate Sound()
      reads this
    {
      head.Digest? && Follows(head.of)
    }

    ghost predicate Stray(tx: Tx)
      reads this
      requires Sound()
    {
      Astray(head.of, genesis, pending, tx)
    }

    /** The records fit the path of the head. */
    ghost predicate Valid()
      reads this
    {
      Sound() && Records(head.of, genesis, pending, mined)
    }

    lemma ValidMeans()
      requires Sound()
      ensures Valid() <==> forall tx :: !Stray(tx)
    {
      hide Rooted, NoRepeat, AllRecorded, InPath;
      if forall tx :: !Stray(tx) {
        forall tx ensures !Astray(head.of, genesis, pending, tx) {
          assert !Stray(tx);
        }
      }
    }

    constructor (genesis: Header, current: Header)
      requires genesis.number == 0 && Rooted(current, genesis) && NoRepeat(current, genesis)
      ensures Valid() && head == Digest(current) && pending == {} && mined == map[] && clearIdx == current.number
      ensures this.genesis == genesis
    {
      this.genesis, head, clearIdx := genesis, Digest(current), current.number;
      pending, mined := {}, map[];
    }

    /** Starts tracking a transaction. It is checked against the state of the chain's current
        header, which says that it is not on that header's path; the pool's head may be
        elsewhere. The records stay right exactly if the transaction is not on the path of
        the pool's head. */
    method Add(tx: Tx, current: Header) returns (added: bool)
      requires Sound() && Rooted(current, genesis) && !InPath(tx, current, genesis)
      modifies this`pending
      ensures added == (tx !in old(pending)) && pending == old(pending) + {tx} && Sound()
      ensures forall t :: Stray(t) <==> old(Stray(t)) || (t == tx && InPath(tx, head.of, genesis))
      ensures old(Valid()) ==> (Valid() <==> !InPath(tx, head.of, genesis))
      ensures old(Valid()) && OnPath(head, current, genesis) ==> Valid()
    {
      hide InPath, At, Rooted, NoRepeat, AllRecorded, Records;
      ValidMeans();
      if OnPath(head, current, genesis) {
        InLongerPath(tx, head.of.number, current, genesis);
      }
      added := tx !in pending;
      if added {
        pending := pending + {tx};
      }
      assert Stray(tx) <==> InPath(tx, head.of, genesis);
      ValidMeans();
    }

    /** Makes the transactions of a rolled back block pending again. */
    method RollbackTxs(h: Header, changes: TxStateChanges, ghost before: set<Tx>)
        returns (txc: TxStateChanges, ghost was: set<Tx>)
      requires Follows(h) && h != genesis && Difference(changes, before, pending)
      modifies this`pending, this`mined
      ensures Follows(h.parent.of) && Difference(txc, was, pending)
      ensures Shrunk(before, was, old(pending), h)
      ensures forall tx :: Astray(h.parent.of, genesis, pending, tx) ==> Astray(h, genesis, old(pending), tx)
      ensures forall tx :: tx in old(pending) ==> tx in pending
      ensures forall tx :: Tracked(pending, mined, tx) <==> Tracked(old(pending), old(mined), tx)
    {
      hide Difference, InPath, NoRepeat, At, Tracked;
      RolledBack(h, genesis, pending, mined);
      NoRepeatBelow(h, genesis);
      txc, was := changes, before;
      var hash := Digest(h);
      ghost var records, list := mined, if hash in mined then mined[hash] else [];
      assert Recorded(hash, list, h, genesis) by { AtSelf(h, genesis); }
      if hash in mined {
        txc, was := Restore(mined[hash], txc, before);
        RecordedStray(h, genesis, list);
      }
      mined := mined - {hash};
      assert pending == old(pending) + Elements(list);
      assert hash in records ==> records == mined[hash := list];
      assert hash !in records ==> records == mined;
      TrackedMove(old(pending), records, pending, mined, hash, list);
    }

    /** `was` lacks only transactions of `before` that were astray. */
    ghost predicate Shrunk(before: set<Tx>, was: set<Tx>, pending: set<Tx>, h: Header)
      reads this
      requires Rooted(h, genesis)
    {
      was <= before && forall tx :: tx in before && tx !in was ==> Astray(h, genesis, pending, tx)
    }

    lemma NotShrunk(before: set<Tx>, was: set<Tx>, h: Header)
      requires Rooted(h, genesis) && Shrunk(before, was, before, h)
      ensures (forall tx :: !Astray(h, genesis, before, tx)) ==> was == before
    {
      if forall tx :: !Astray(h, genesis, before, tx) {
        forall tx | tx in before ensures tx in was {
          assert !Astray(h, genesis, before, tx);
        }
      }
    }

    method Restore(list: seq<Tx>, changes: TxStateChanges, ghost before: set<Tx>)
        returns (txc: TxStateChanges, ghost was: set<Tx>)
      requires NoDuplicates(list) && Difference(changes, before, pending)
      modifies this`pending
      ensures pending == old(pending) + Elements(list) && Difference(txc, was, pending)
      ensures was <= before && forall tx :: tx in before && tx !in was ==> tx in list && tx in old(pending)
    {
      hide Difference;
      txc, was := changes, before;
      for k := 0 to |list|
        invariant pending == old(pending) + Elements(list[..k]) && Difference(txc, was, pending)
        invariant was <= before && forall tx :: tx in before && tx !in was ==> tx in list && tx in old(pending)
      {
        assert list[..k + 1] == list[..k] + [list[k]] && list[k] !in list[..k];
        DifferenceRolledBack(txc, was, pending, list[k]);
        was := if list[k] in pending then was - {list[k]} else was;
        pending := pending + {list[k]};
        txc := SetState(txc, list[k], false);
      }
      assert list[..|list|] == list;
    }

    method Settle(list: seq<Tx>, changes: TxStateChanges, ghost before: set<Tx>) returns (txc: TxStateChanges)
      requires NoDuplicates(list) && (forall tx :: tx in list ==> tx in pending) && Difference(changes, before, pending)
      modifies this`pending
      ensures pending == old(pending) - Elements(list) && Difference(txc, before, pending)
    {
      hide Difference;
      txc := changes;
      for k := 0 to |list|
        invariant pending == old(pending) - Elements(list[..k]) && Difference(txc, before, pending)
      {
        assert list[..k + 1] == list[..k] + [list[k]] && list[k] !in list[..k];
        DifferenceMined(txc, before, pending, list[k]);
        pending := pending - {list[k]};
        txc := SetState(txc, list[k], true);
      }
      assert list[..|list|] == list;
    }

    /** The pending transactions of a block, in order. */
    method Collect(body: seq<Tx>) returns (list: seq<Tx>)
      requires NoDuplicates(body)
      ensures NoDuplicates(list) && forall tx :: tx in list <==> tx in body && tx in pending
    {
      list := [];
      for k := 0 to |body|
        invariant NoDuplicates(list) && forall tx :: tx in list <==> tx in body[..k] && tx in pending
      {
        assert body[..k + 1] == body[..k] + [body[k]] && body[k] !in body[..k];
        if body[k] in pending {
          list := list + [body[k]];
        }
      }
      assert body[..|body|] == body;
    }

    /** Finds a common ancestor and lists the blocks above it on both sides, from the
        top down. */
    method Fork(old0: Header, new0: Header) returns (oldBlocks: seq<Header>, newBlocks: seq<Header>, ancestor: Header)
      requires genesis.number == 0 && Rooted(old0, genesis) && Rooted(new0, genesis)
      ensures TopDown(oldBlocks, old0, ancestor, genesis) && TopDown(newBlocks, new0, ancestor, genesis)
      ensures Parted(old0, new0, ancestor.number, ancestor.number, genesis)
    {
      hide Rooted, At;
      var oldh, newh := old0, new0;
      oldBlocks, newBlocks := [], [];
      AtSelf(old0, genesis);
      AtSelf(new0, genesis);
      while oldh != newh
        invariant TopDown(oldBlocks, old0, oldh, genesis) && TopDown(newBlocks, new0, newh, genesis)
        invariant Parted(old0, new0, oldh.number, newh.number, genesis)
        decreases oldh.number + newh.number
      {
        GenesisIsShared(old0, new0, oldh, newh, genesis);
        if oldh.number >= newh.number {
          DownStep(oldBlocks, old0, oldh, genesis);
          oldBlocks, oldh := oldBlocks + [oldh], oldh.parent.of;
        }
        if oldh.number < newh.number {
          DownStep(newBlocks, new0, newh, genesis);
          newBlocks, newh := newBlocks + [newh], newh.parent.of;
        }
      }
      ancestor := oldh;
    }

    /** Records the pending transactions that a new block contains. If the block or its receipts
        are needed and cannot be fetched, nothing changes. */
    method CheckMinedTxs(h: Header, odr: Odr, changes: TxStateChanges, ghost before: set<Tx>)
        returns (txc: TxStateChanges, ok: bool)
      requires genesis.number == 0 && Rooted(h, genesis) && h != genesis && NoRepeat(h, genesis)
      requires Follows(h.parent.of) && Difference(changes, before, pending)
      modifies this`pending, this`mined
      ensures ok <==> Checkable(odr, old(pending), h)
      ensures ok ==> Follows(h) && forall tx :: Astray(h, genesis, pending, tx) ==>
        Astray(h.parent.of, genesis, old(pending), tx)
      ensures !ok ==> pending == old(pending) && mined == old(mined) && txc == changes
      ensures Difference(txc, before, pending)
      ensures forall tx :: Tracked(pending, mined, tx) <==> Tracked(old(pending), old(mined), tx)
    {
      hide Difference, InPath, At, AllRecorded;
      txc := changes;
      if pending == {} {
        Checked(h, genesis, pending, mined, []);
        return txc, true;
      }
      ok := Digest(h) in odr.blocks;
      if !ok {
        return txc, false;
      }
      var list := Collect(h.body);
      Checked(h, genesis, pending, mined, list);
      if list != [] {
        ReceiptsNeeded(odr, pending, h, list[0]);
        ok := Digest(h) in odr.receipts;
        if !ok {
          return txc, false;
        }
        txc := Settle(list, txc, before);
        mined := mined[Digest(h) := list];
        assert old(pending) == pending + Elements(list);
        TrackedMove(pending, mined, old(pending), old(mined), Digest(h), list);
      } else {
        assert pending - Elements(list) == pending;
      }
    }

    /** Rolls back the blocks of the old branch, from the top down. */
    method RollbackAll(top: Header, blocks: seq<Header>, ancestor: Header)
        returns (txc: TxStateChanges, ghost was: set<Tx>)
      requires Follows(top) && TopDown(blocks, top, ancestor, genesis)
      modifies this`pending, this`mined
      ensures Follows(ancestor) && Difference(txc, was, pending) && Shrunk(old(pending), was, old(pending), top)
      ensures forall tx :: Astray(ancestor, genesis, pending, tx) ==> Astray(top, genesis, old(pending), tx)
      ensures forall tx :: Tracked(pending, mined, tx) <==> Tracked(old(pending), old(mined), tx)
    {
      hide Difference, NoRepeat, AllRecorded, Tracked, Rooted, At, InPath;
      txc, was := map[], pending;
      NoDifference(pending);
      AtSelf(top, genesis);
      for k := 0 to |blocks|
        invariant Follows(At(top, top.number - k, genesis)) && Difference(txc, was, pending)
        invariant Shrunk(old(pending), was, old(pending), top)
        invariant forall tx :: Astray(At(top, top.number - k, genesis), genesis, pending, tx) ==>
          Astray(top, genesis, old(pending), tx)
        invariant forall tx :: Tracked(pending, mined, tx) <==> Tracked(old(pending), old(mined), tx)
      {
        ParentAt(top, top.number - k, genesis);
        txc, was := RollbackTxs(blocks[k], txc, was);
      }
    }

    /** Checks the blocks of the new branch, from the bottom up, until one fails. */
    method CheckAll(top: Header, blocks: seq<Header>, ghost ancestor: Header, odr: Odr, changes: TxStateChanges,
                    ghost before: set<Tx>)
      returns (txc: TxStateChanges, ok: bool)
      requires Sound() && head == Digest(ancestor) && Rooted(top, genesis) && NoRepeat(top, genesis)
      requires TopDown(blocks, top, ancestor, genesis) && Difference(changes, before, pending)
      modifies this`pending, this`mined, this`head
      ensures Sound() && OnPath(head, top, genesis) && Difference(txc, before, pending)
      ensures ok <==> head == Digest(top)
      ensures !ok ==> head.of.number < top.number && !Checkable(odr, pending, At(top, head.of.number + 1, genesis))
      ensures forall tx :: Stray(tx) ==> old(Stray(tx))
      ensures forall tx :: Tracked(pending, mined, tx) <==> Tracked(old(pending), old(mined), tx)
    {
      hide Difference, NoRepeat, AllRecorded, Tracked, Rooted, At, InPath;
      txc, ok := changes, true;
      var i := |blocks|;
      while i > 0
        invariant 0 <= i <= |blocks| && head == Digest(At(top, top.number - i, genesis)) && Sound()
        invariant Difference(txc, before, pending)
        invariant forall tx :: Stray(tx) ==> old(Stray(tx))
        invariant forall tx :: Tracked(pending, mined, tx) <==> Tracked(old(pending), old(mined), tx)
      {
        i := i - 1;
        ParentAt(top, top.number - i, genesis);
        NoRepeatAt(top, top.number - i, genesis);
        txc, ok := CheckMinedTxs(blocks[i], odr, txc, before);
        if !ok {
          return;
        }
        head := Digest(blocks[i]);
      }
      AtSelf(top, genesis);
    }

    /** Forgets the records of canonical blocks far enough below the new head. */
    method Clear(idx: nat, canonical: map<nat, Hash>)
      requires Sound() && Numbered(canonical)
      modifies this`mined, this`clearIdx
      ensures Sound()
      ensures idx <= old(clearIdx) + TX_PERMANENT ==> mined == old(mined) && clearIdx == old(clearIdx)
      ensures idx > old(clearIdx) + TX_PERMANENT ==>
        && clearIdx == idx - TX_PERMANENT
        && (forall b :: b in mined <==>
             b in old(mined) && !(IsCanonical(canonical, b) && old(clearIdx) <= b.of.number < clearIdx))
        && (forall b :: b in mined ==> mined[b] == old(mined)[b])
    {
      if idx > clearIdx + TX_PERMANENT {
        var idx2 := idx - TX_PERMANENT;
        if mined != map[] {
          var rest, i := mined, clearIdx;
          while i < idx2
            invariant clearIdx <= i <= idx2
            invariant forall b :: b in rest <==>
              b in mined && !(IsCanonical(canonical, b) && clearIdx <= b.of.number < i)
            invariant forall b :: b in rest ==> rest[b] == mined[b]
          {
            if i in canonical {
              rest := rest - {canonical[i]};
            }
            i := i + 1;
          }
          mined := rest;
        }
        clearIdx := idx2;
      }
    }

    /** Follows the chain to a new head. The walk stops part-way exactly where the next block
        cannot be checked; the records then fit the block reached. What was astray stays so only if
        it is on the path of the new head too. */
    method ReorgOnNewHead(newHeader: Header, canonical: map<nat, Hash>, odr: Odr)
        returns (txc: TxStateChanges, ok: bool, ghost fork: Header)
      requires Sound() && Rooted(newHeader, genesis) && NoRepeat(newHeader, genesis) && Numbered(canonical)
      modifies this
      ensures Sound() && OnPath(head, newHeader, genesis) && (old(Valid()) ==> Valid())
      ensures forall tx :: Stray(tx) ==> old(Stray(tx)) && InPath(tx, newHeader, genesis)
      ensures ok <==> head == Digest(newHeader)
      ensures !ok ==>
        head.of.number < newHeader.number && !Checkable(odr, pending, At(newHeader, head.of.number + 1, genesis))
      // records are forgotten from the fork, or the last limit if that is lower, up to 500 below the new head
      ensures fork.number <= old(head).of.number && fork.number <= newHeader.number
        && Parted(old(head).of, newHeader, fork.number, fork.number, genesis)
        && fork == At(old(head).of, fork.number, genesis) == At(newHeader, fork.number, genesis)
      ensures var base := if fork.number < old(clearIdx) then fork.number else old(clearIdx);
        && clearIdx == (if ok && newHeader.number > base + 500 then newHeader.number - 500 else base)
        && forall b :: b in mined && ok && IsCanonical(canonical, b) ==> !(base <= b.of.number < clearIdx)
      // of what was pending, only transactions astray can count as mined in the change map
      ensures exists was :: Shrunk(old(pending), was, old(pending), old(head).of) && Difference(txc, was, pending)
      ensures old(Valid()) ==> Difference(txc, old(pending), pending)
      ensures forall tx :: Tracked(pending, mined, tx) ==> Tracked(old(pending), old(mined), tx)
      ensures forall tx :: Tracked(old(pending), old(mined), tx) ==>
        Tracked(pending, mined, tx) || (ok && Settled(tx, newHeader))
    {
      hide Difference, NoRepeat, Rooted, At, Tracked, InPath, Records, Parted;
      ValidMeans();
      var top := head.of;
      var oldBlocks, newBlocks, ancestor := Fork(top, newHeader);
      fork := ancestor;
      if ancestor.number < clearIdx {
        clearIdx := ancestor.number;
      }
      ghost var was;
      txc, was := RollbackAll(top, oldBlocks, ancestor);
      NotShrunk(old(pending), was, top);
      assert forall tx :: old(Stray(tx)) <==> Astray(top, genesis, old(pending), tx);
      head := Digest(ancestor);
      assert forall tx :: Stray(tx) ==> old(Stray(tx));
      txc, ok := CheckAll(newHeader, newBlocks, ancestor, odr, txc, was);
      forall tx | Stray(tx) ensures old(Stray(tx)) && InPath(tx, newHeader, genesis) {
        InLongerPath(tx, head.of.number, newHeader, genesis);
      }
      ValidMeans();
      if ok {
        ghost var all := mined;
        assert AllRecorded(newHeader, genesis, all) by { assert Follows(newHeader); }
        Clear(newHeader.number, canonical);
        ClearedAreSettled(newHeader, all);
        ValidMeans();
      }
    }

    method Step(event: Event)
      requires Sound() && event.Possible(genesis)
      modifies this
      ensures Sound() && Happened(old(View()), event, View(), genesis)
      ensures forall tx :: Stray(tx) ==> SuspectNow(event, genesis, tx, old(Stray(tx)))
    {
      hide NoRepeat, Rooted, At, InPath, Difference, Tracked, AllRecorded, Records, Checkable;
      match event
      case Submit(tx, current) =>
        var _ := Add(tx, current);
      case NewHead(header, canonical, odr) =>
        ghost var fork;
        var txc, ok;
        txc, ok, fork := ReorgOnNewHead(header, canonical, odr);
    }

    /** Any sequence of events: what is recorded as mined is, and a transaction is astray at the
        end only if it was submitted, or astray at the start, and since then has been on the path
        of every new head. */
    method Run(events: seq<Event>) returns (ghost trace: seq<Snapshot>)
      requires Sound() && forall e :: e in events ==> e.Possible(genesis)
      modifies this
      ensures Sound() && forall tx :: Stray(tx) ==> Suspect(events, genesis, tx, old(Stray(tx)))
      ensures |trace| == |events| + 1 && trace[0] == old(View()) && trace[|events|] == View()
        && forall k :: 0 <= k < |events| ==> Happened(trace[k], events[k], trace[k + 1], genesis)
      ensures old(Valid()) && (forall tx :: !Suspect(events, genesis, tx, false)) ==> Valid()
    {
      hide NoRepeat, Rooted, At, InPath, Difference, Tracked, AllRecorded, Records;
      hide Happened;
      ValidMeans();
      assert events[..0] == [];
      trace := [View()];
      for k := 0 to |events|
        invariant |trace| == k + 1 && trace[0] == old(View()) && trace[k] == View()
        invariant forall i :: 0 <= i < k ==> Happened(trace[i], events[i], trace[i + 1], genesis)
        invariant Sound() && forall tx :: Stray(tx) ==> Suspect(events[..k], genesis, tx, old(Stray(tx)))
      {
        ghost var done := events[..k + 1];
        assert done[..k] == events[..k] && done[k] == events[k] && events[k] in events;
        Step(events[k]);
        trace := trace + [View()];
      }
      assert events[..|events|] == events;
      ValidMeans();
    }

    lemma ClearedAreSettled(h: Header, all: map<Hash, seq<Tx>>)
      requires genesis.number == 0 && Rooted(h, genesis) && AllRecorded(h, genesis, all)
      requires forall b :: b in all && b !in mined ==> b.Digest? && b.of.number + TX_PERMANENT < h.number
      requires forall b :: b in mined ==> b in all && mined[b] == all[b]
      ensures forall tx :: Tracked(pending, mined, tx) ==> Tracked(pending, all, tx)
      ensures forall tx :: Tracked(pending, all, tx) ==> Tracked(pending, mined, tx) || Settled(tx, h)
    {
      forall tx | Tracked(pending, all, tx) ensures Tracked(pending, mined, tx) || Settled(tx, h) {
        if tx !in pending {
          var b :| b in all && tx in all[b];
          assert Recorded(b, all[b], h, genesis);
        }
      }
    }

    /** The transaction is in a block too far below the head to be rolled back. */
    ghost predicate Settled(tx: Tx, h: Header)
      reads this
    {
      genesis.number == 0 && Rooted(h, genesis) &&
      exists b :: OnPath(b, h, genesis) && tx in b.of.body && b.of.number + TX_PERMANENT < h.number
    }
  }

  /** A canonical index: each number leads to a block with that number. */
  ghost predicate Numbered(canonical: map<nat, Hash>) {
    forall i :: i in canonical ==> canonical[i].Digest? && canonical[i].of.number == i
  }

  predicate IsCanonical(canonical: map<nat, Hash>, b: Hash) {
    b.Digest? && b.of.number in canonical && canonical[b.of.number] == b
  }

  /** The list is the path of h from the top down to just above a. */
  ghost predicate TopDown(blocks: seq<Header>, h: Header, a: Header, g: Header)
    requires Rooted(h, g) && g.number == 0
  {
    && a.number <= h.number && a == At(h, a.number, g) && |blocks| == h.number - a.number
    && forall i :: 0 <= i < |blocks| ==> blocks[i] == At(h, h.number - i, g)
  }

  /** The paths of h and k have no block in common above the numbers m and n. */
  ghost predicate Parted(h: Header, k: Header, m: nat, n: nat, g: Header)
    requires Rooted(h, g) && Rooted(k, g) && g.number == 0
  {
    forall i :: 0 <= i <= h.number && i <= k.number && (i > m || i > n) ==> At(h, i, g) != At(k, i, g)
  }

  lemma DownStep(blocks: seq<Header>, h: Header, a: Header, g: Header)
    requires Rooted(h, g) && g.number == 0 && TopDown(blocks, h, a, g) && a.number > 0
    ensures a.parent.Digest? && a.parent.of.number == a.number - 1 && TopDown(blocks + [a], h, a.parent.of, g)
  {
    ParentAt(h, a.number, g);
  }

  /** Two different positions are not both at the genesis. */
  lemma GenesisIsShared(h: Header, k: Header, a: Header, b: Header, g: Header)
    requires Rooted(h, g) && Rooted(k, g) && g.number == 0 && a != b
    requires a.number <= h.number && a == At(h, a.number, g) && b.number <= k.number && b == At(k, b.number, g)
    ensures a.number > 0 || b.number > 0
  {
    AtZero(h, g);
    AtZero(k, g);
  }

  /** What is on the path of an ancestor is on the longer path. */
  lemma {:induction false} InLongerPath(tx: Tx, n: nat, h: Header, g: Header)
    requires Rooted(h, g) && g.number == 0 && n <= h.number
    ensures InPath(tx, At(h, n, g), g) ==> InPath(tx, h, g)
    decreases h
  {
    if n < h.number {
      InLongerPath(tx, n, h.parent.of, g);
    }
  }

  /** A transaction can be pending and recorded as mined at once: it is mined on the path of
      the pool's head `h`, the chain has moved on to `current` without it, and it is added
      before the pool hears of that. Rolling back `h` then reports it as rolled back, although
      it is pending before and after. */
  lemma AddedWhileMined(tx: Tx) returns (g: Header, h: Header, current: Header, mined: map<Hash, seq<Tx>>)
    ensures g.number == 0 && Rooted(h, g) && Rooted(current, g) && NoRepeat(h, g) && NoRepeat(current, g)
    ensures Records(h, g, {}, mined) && Digest(h) in mined && mined[Digest(h)] == [tx] && !InPath(tx, current, g)
    ensures !Records(h, g, {tx}, mined)
    ensures !Difference(SetState(map[], tx, false), {tx}, {tx} + Elements(mined[Digest(h)]))
  {
    hide Rooted, NoRepeat, InPath, Records, At;
    g := Header(Zero, 0, 1, []);
    h, current := Header(Digest(g), 1, 1, [tx]), Header(Digest(g), 1, 1, []);
    mined := map[Digest(h) := [tx]];
    OneBlock(g, h, tx);
    OneBlock(g, current, tx);
    OneRecord(g, h, tx, mined);
    assert !SetState(map[], tx, false)[tx];
  }

  lemma OneBlock(g: Header, h: Header, tx: Tx)
    requires g.number == 0 && g.body == [] && h.parent == Digest(g) && h.number == 1 && |h.body| <= 1
    ensures Rooted(h, g) && NoRepeat(h, g) && At(h, 1, g) == h && (InPath(tx, h, g) <==> tx in h.body)
  {
    assert Rooted(g, g) && NoRepeat(g, g) && forall t :: !InPath(t, g, g);
  }

  lemma OneRecord(g: Header, h: Header, tx: Tx, mined: map<Hash, seq<Tx>>)
    requires g.number == 0 && Rooted(h, g) && h.number == 1 && At(h, 1, g) == h && InPath(tx, h, g)
    requires mined == map[Digest(h) := [tx]] && tx in h.body
    ensures Records(h, g, {}, mined) && !Records(h, g, {tx}, mined)
  {
    hide Rooted, At, InPath;
    assert Recorded(Digest(h), [tx], h, g) && Astray(h, g, {tx}, tx);
  }

  lemma RecordedStray(h: Header, g: Header, list: seq<Tx>)
    requires Rooted(h, g) && g.number == 0 && Recorded(Digest(h), list, h, g)
    ensures forall tx :: tx in list ==> InPath(tx, h, g)
  {
  }

  lemma NoRepeatBelow(h: Header, g: Header)
    requires Rooted(h, g) && h != g && NoRepeat(h, g)
    ensures NoRepeat(h.parent.of, g)
  {
  }

  lemma {:induction false} NoRepeatAt(h: Header, n: nat, g: Header)
    requires Rooted(h, g) && g.number == 0 && n <= h.number && NoRepeat(h, g)
    ensures NoRepeat(At(h, n, g), g)
    decreases h
  {
    if n < h.number {
      NoRepeatAt(h.parent.of, n, g);
    }
  }
}
