/** The transaction pool: executable (pending) and future (queued) transactions by
    account, a lookup by hash, the price heap and the virtual nonces. */
module TxPools {
  import opened Options
  import opened Transactions
  import opened TxLists
  import opened ListTables
  import opened TxPricedLists
  import opened PoolState
  import opened PoolFairness
  import opened PoolAdmission
  import opened PoolOrder

  /** What can happen to a pool. */
  datatype Event =
    | Submit(tx: Tx, local: bool)
    | SubmitBatch(txs: seq<Tx>, local: bool)
    | NewHead(state: ChainState, maxGas: nat, reinject: seq<Tx>)
    | NewPrice(price: int)
    | Idle(accounts: set<Address>)
  {
    /** The transactions that the event offers to the pool. */
    function Txs(): seq<Tx> {
      match this
      case Submit(tx, _) => [tx]
      case SubmitBatch(txs, _) => txs
      case NewHead(_, _, reinject) => reinject
      case _ => []
    }

    function After(state: ChainState): ChainState {
      if NewHead? then this.state else state
    }

    /** What transactions are judged by after the event. */
    ghost function Judged(e: Policy): Policy {
      match this
      case NewHead(state, maxGas, _) => e.(state := state, maxGas := maxGas)
      case NewPrice(price) => e.(gasPrice := price)
      case _ => e
    }
  }

  /** The remote transactions below a price. */
  ghost function Cheap(s: Image, price: int): set<Tx> {
    set h | h in s.all && !IsLocal(s.locals, h.of) && h.of.price < price :: h.of
  }

  /** The queues of the remote accounts given are emptied. */
  ghost predicate Cleared(s: Image, t: Image, accounts: set<Address>) {
    && t.t.p == s.t.p && t.t.over == s.t.over && t.locals == s.locals
    && forall a :: Of(t.t.q, a) == if a in accounts && a !in s.locals then map[] else Of(s.t.q, a)
  }

  /** What an event does to the pool. */
  ghost predicate Happened(s: Image, t: Image, event: Event, e: Policy) {
    match event
    case Submit(tx, local) => exists r: Outcome :: Submitted(s, t, [tx], local, [r], e)
    case SubmitBatch(txs, local) => exists results :: Submitted(s, t, txs, local, results, e)
    case NewHead(_, _, reinject) => Moved(Image(Tables(s.t.p, s.t.q, map[]), s.all, s.locals), t, reinject, e)
    case NewPrice(price) => Evicted(s, t, Cheap(s, price), e.state)
    case Idle(accounts) => Cleared(s, t, accounts)
  }

  /** No account's nonce is set back. */
  ghost predicate Ahead(before: ChainState, state: ChainState) {
    forall a :: before.Nonce(a) <= state.Nonce(a)
  }

  /** No event sets a nonce back. */
  ghost predicate Forward(state: ChainState, events: seq<Event>)
    decreases |events|
  {
    events == [] || (Ahead(state, events[0].After(state)) && Forward(events[0].After(state), events[1..]))
  }

  ghost predicate NoReinjection(events: seq<Event>) {
    forall e :: e in events && e.NewHead? ==> e.reinject == []
  }

  ghost predicate NoNewHead(events: seq<Event>) {
    forall e :: e in events ==> !e.NewHead?
  }

  /** What a run still offers, and what it asks of the states, once the next event is handled. */
  lemma NextEvent(events: seq<Event>, i: nat, state: ChainState)
    requires i < |events|
    ensures NoNewHead(events) ==> !events[i].NewHead?
    ensures NoReinjection(events) && events[i].NewHead? ==> events[i].reinject == []
    ensures Forward(state, events[i..]) ==>
      Ahead(state, events[i].After(state)) && Forward(events[i].After(state), events[i + 1..])
  {
    assert events[i..][0] == events[i] && events[i..][1..] == events[i + 1..];
  }

  lemma OfferedNext(events: seq<Event>, i: nat, base: multiset<Tx>, puts: multiset<Tx>, puts': multiset<Tx>)
    requires i < |events| && puts + Offered(events[i..]) <= base + Offered(events)
    requires puts' <= puts + multiset(events[i].Txs())
    ensures puts' + Offered(events[i + 1..]) <= base + Offered(events)
  {
    assert events[i..][0] == events[i] && events[i..][1..] == events[i + 1..];
  }

  /** All transactions that a run offers to the pool. */
  ghost function Offered(events: seq<Event>): multiset<Tx> {
    if events == [] then multiset{} else multiset(events[0].Txs()) + Offered(events[1..])
  }

  lemma CheapMeans(s: Image, price: int, drop: seq<Tx>)
    requires forall tx :: tx in drop <==> tx.Hash() in s.all && !IsLocal(s.locals, tx) && tx.price < price
    ensures TxSet(drop) == Cheap(s, price)
  {
    forall tx ensures tx in TxSet(drop) <==> tx in Cheap(s, price) {
      if tx in TxSet(drop) {
        assert tx.Hash() in s.all && tx.Hash().of == tx;
      }
    }
  }

  class TxPool {
    const config: Config
    var gasPrice: int
    var locals: set<Address>
    var currentState: ChainState
    var pendingNonces: map<Address, nat>
    var currentMaxGas: nat
    const pending: ListTable
    const queue: ListTable
    const all: TxLookup
    const priced: TxPricedList
    /** Taken off a list and not yet filed again or forgotten. */
    ghost var moving: set<Tx>

    ghost predicate Apart()
      reads this, pending, queue
    {
      && pending.Repr !! queue.Repr
      && this !in pending.Repr && all !in pending.Repr && priced !in pending.Repr
      && this !in queue.Repr && all !in queue.Repr && priced !in queue.Repr
    }

    /** The lists and a lookup with the contents `known` describe the same pool. */
    ghost predicate SoundFor(known: map<Hash, Tx>)
      reads this, all, priced, pending, pending.Repr, queue, queue.Repr
    {
      && pending.Valid() && queue.Valid() && pending.strict && !queue.strict
      && Apart()
      && priced.lookup == all && all.Valid() && priced.Valid()
      && Consistent(pending.View(), queue.View(), known, moving)
    }

    ghost predicate Sound()
      reads this, all, priced, pending, pending.Repr, queue, queue.Repr
    {
      SoundFor(all.all)
    }

    /** Between operations nothing is in transit. */
    ghost predicate Valid()
      reads this, all, priced, pending, pending.Repr, queue, queue.Repr
    {
      Sound() && moving == {} && priced.out == {}
    }

    function PendingNonce(a: Address): nat
      reads this
    {
      Virtual(currentState, pendingNonces, a)
    }

    /** Every account's pending nonces run gap-free from its state nonce up to its
        virtual nonce. */
    ghost predicate Contiguous()
      reads this, pending, pending.Repr
      requires pending.Valid()
    {
      Runs(pending.View(), currentState, pendingNonces)
    }

    /** Every account's pending nonces run gap-free from its state nonce. */
    ghost predicate Starting()
      reads this, pending, pending.Repr
      requires pending.Valid()
    {
      AllStart(pending.View(), currentState)
    }

    /** Every account's pending nonces run gap-free from its state nonce up to its virtual
        nonce, or it is stranded. */
    ghost predicate Sorted()
      reads this, pending, pending.Repr
      requires pending.Valid()
    {
      RunsOrStranded(pending.View(), currentState, pendingNonces)
    }

    ghost predicate NobodyStranded()
      reads this, pending, pending.Repr
      requires pending.Valid()
    {
      NoneStranded(pending.View(), currentState, pendingNonces)
    }

    /** Nothing that could be promoted is left in the queue, except for some accounts. */
    ghost predicate PromotedBut(but: set<Address>)
      reads this, pending, pending.Repr, queue, queue.Repr
      requires pending.Valid() && queue.Valid()
    {
      CaughtUp(Snapshot(), currentState, but)
    }

    /** What is left of that, and of the virtual nonces, while transactions are reinjected. */
    ghost predicate Tailed()
      reads this, pending, pending.Repr
      requires pending.Valid()
    {
      Tails(pending.View(), currentState, pendingNonces, currentMaxGas)
    }

    ghost predicate Executable()
      reads this, all
    {
      AllFit(all.all, currentState, currentMaxGas)
    }

    constructor (config: Config, gasPrice: int, locals: set<Address>, state: ChainState, maxGas: nat)
      ensures Valid() && fresh(pending.Repr) && fresh(queue.Repr) && fresh(all) && fresh(priced)
      ensures pending.View() == map[] && queue.View() == map[] && all.all == map[] && Contiguous() && Executable()
      ensures PromotedBut({}) && Tailed() && WithinCapacity() && priced.puts == multiset{} && priced.lost == 0
      ensures this.config == config && this.gasPrice == gasPrice && this.locals == locals
      ensures currentState == state && currentMaxGas == maxGas && pendingNonces == map[]
    {
      hide Consistent, Balanced, ListTable.Valid;
      ConsistentEmpty();
      TailsNone(state, maxGas);
      this.config, this.gasPrice, this.locals := config, gasPrice, locals;
      currentState, pendingNonces, currentMaxGas, moving := state, map[], maxGas, {};
      pending := new ListTable(true);
      queue := new ListTable(false);
      var lookup := new TxLookup();
      all := lookup;
      priced := new TxPricedList(lookup);
    }

    /** Drops a transaction from the lookup and tells the price heap. */
    method Unregister(tx: Tx)
      requires priced.lookup == all && priced.Valid() && priced.out == {} && tx.Hash() in all.all
      modifies all, priced
      ensures priced.puts == old(priced.puts)
      ensures all.Valid() && priced.Valid() && priced.out == {} && all.all == old(all.all) - {tx.Hash()}
    {
      hide Balanced;
      BalancedRemove(multiset(priced.items), all.all, priced.stales, priced.puts, priced.lost, tx.Hash());
      all.Remove(tx.Hash());
      priced.Removed();
    }

    /** Adds a transaction to the lookup and to the price heap. */
    method Register(tx: Tx)
      requires priced.lookup == all && priced.Valid() && tx.Hash() !in all.all && priced.out == {}
      modifies all, priced
      ensures all.Valid() && priced.Valid() && priced.out == {} && all.all == old(all.all)[tx.Hash() := tx]
      ensures priced.puts == old(priced.puts) + multiset{tx}
    {
      hide Balanced;
      assert (all.all[tx.Hash() := tx]) - {tx.Hash()} == all.all;
      all.Add(tx);
      priced.Put(tx);
    }

    /** Gives up a transaction in transit. */
    method Forget(tx: Tx)
      requires Sound() && tx in moving && priced.out == {}
      modifies this`moving, all, priced
      ensures priced.puts == old(priced.puts)
      ensures Sound() && moving == old(moving) - {tx} && priced.out == {}
      ensures all.all == old(all.all) - {tx.Hash()}
    {
      hide Consistent, Balanced, ListTable.Valid, ListTable.View, TxPricedList.Valid, TxLookup.Valid;
      ForgetMoving(pending.View(), queue.View(), all.all, moving, tx);
      Unregister(tx);
      moving := moving - {tx};
    }

    /** Whether a transaction may be queued: it is in transit, or new to the pool
        and not a replacement for a pending one. */
    ghost predicate Queueable(tx: Tx)
      reads this, all, priced, pending, pending.Repr, queue, queue.Repr
      requires Sound()
    {
      || tx in moving
      || (moving == {} && priced.out == {} && tx.signed
          && tx.Hash() !in all.all && tx.nonce !in Of(pending.View(), tx.from))
    }

    /** Inserts a transaction into the queue, if it beats what it would replace. */
    method EnqueueTx(tx: Tx) returns (inserted: bool, replaced: bool)
      requires Sound() && Queueable(tx)
      modifies this`moving, all, priced, queue.Repr
      ensures Sound() && fresh(queue.Repr - old(queue.Repr)) && pending.View() == old(pending.View())
      ensures moving == old(moving) - {tx} && priced.out == old(priced.out)
      ensures tx in old(moving) ==> all.all == old(all.all) && priced.lost == old(priced.lost)
      ensures tx !in old(moving) ==>
        all.all == if inserted then Displace(old(all.all), Of(old(queue.View()), tx.from), tx) else old(all.all)
      ensures inserted == (tx in old(moving) || Accepts(Of(old(queue.View()), tx.from), tx, config.priceBump))
      ensures priced.puts ==
        if inserted && tx !in old(moving) then old(priced.puts) + multiset{tx} else old(priced.puts)
      ensures replaced == (inserted && tx.nonce in Of(old(queue.View()), tx.from))
      ensures inserted ==>
        queue.View() == old(queue.View())[tx.from := Plus(Of(old(queue.View()), tx.from), tx)]
      ensures !inserted ==> queue.View() == old(queue.View())
    {
      hide Consistent, Balanced, ListTable.Valid, ListTable.View, Accepts, TxPricedList.Valid, TxLookup.Valid;
      ghost var p, q, known := pending.View(), queue.View(), all.all;
      var was;
      if tx in moving {
        MovingIsNew(p, q, known, moving, tx, config.priceBump);
        PutDown(p, q, known, moving, tx);
      } else {
        FileNew(p, q, known, tx);
      }
      inserted, was := queue.Add(tx, config.priceBump);
      replaced := was.Some?;
      if !inserted {
        return;
      }
      if was.Some? {
        Unregister(was.value);
      }
      if all.Get(tx.Hash()) == None {
        Register(tx);
      } else {
        moving := moving - {tx};
      }
    }

    /** Moves a transaction in transit to the pending list of its sender and
        advances the virtual nonce. The nonce is free there, so that the
        transaction can neither be refused nor displace another one. */
    method PromoteTx(tx: Tx)
      requires Sound() && tx in moving && priced.out == {}
      modifies this`moving, this`pendingNonces, pending.Repr
      ensures Sound() && fresh(pending.Repr - old(pending.Repr)) && queue.View() == old(queue.View())
      ensures moving == old(moving) - {tx} && priced.out == {}
      ensures pendingNonces == old(pendingNonces)[tx.from := tx.nonce + 1]
      ensures pending.View() == old(pending.View())[tx.from := Plus(Of(old(pending.View()), tx.from), tx)]
    {
      hide Consistent, Balanced, ListTable.Valid, ListTable.View, Accepts, TxPricedList.Valid, TxLookup.Valid;
      ghost var p, q, known := pending.View(), queue.View(), all.all;
      MovingIsNew(p, q, known, moving, tx, config.priceBump);
      ConsistentSwap(p, q, known, moving);
      PutDown(q, p, known, moving, tx);
      ConsistentSwap(q, p[tx.from := Plus(Of(p, tx.from), tx)], known, moving - {tx});
      var inserted, was := pending.Add(tx, config.priceBump);
      assert inserted && was == None && all.Get(tx.Hash()) != None;
      moving := moving - {tx};
      pendingNonces := pendingNonces[tx.from := tx.nonce + 1];
    }

    /** Queues all transactions in transit. */
    method EnqueueAll(txs: seq<Tx>)
      requires Sound() && moving == TxSet(txs) && Distinct(txs)
      modifies this`moving, all, priced, queue.Repr
      ensures priced.puts == old(priced.puts) && priced.lost == old(priced.lost)
      ensures Sound() && fresh(queue.Repr - old(queue.Repr)) && pending.View() == old(pending.View())
      ensures moving == {} && priced.out == old(priced.out)
      ensures all.all == old(all.all)
      ensures forall tx :: InLists(queue.View(), tx) <==> InLists(old(queue.View()), tx) || tx in txs
    {
      hide Consistent, Balanced, ListTable.Valid, ListTable.View, Accepts, TxPricedList.Valid, TxLookup.Valid;
      for i := 0 to |txs|
        invariant priced.puts == old(priced.puts) && priced.lost == old(priced.lost)
        invariant Sound() && fresh(queue.Repr - old(queue.Repr)) && pending.View() == old(pending.View())
        invariant moving == TxSet(txs[i..]) && priced.out == old(priced.out) && all.all == old(all.all)
        invariant forall tx :: InLists(queue.View(), tx) <==> InLists(old(queue.View()), tx) || tx in txs[..i]
      {
        TailSet(txs, i);
        PutDown(pending.View(), queue.View(), all.all, moving, txs[i]);
        var _, _ := EnqueueTx(txs[i]);
      }
    }

    /** Drops a transaction from the lookup; the price heap is told unless it has
        given the transaction up already. */
    method Deregister(tx: Tx, outofbound: bool)
      requires priced.lookup == all && priced.Valid() && tx.Hash() in all.all
      requires if outofbound then priced.out == {} else tx in priced.out
      modifies all, priced
      ensures priced.puts == old(priced.puts) && (!outofbound ==> priced.lost == old(priced.lost))
      ensures all.Valid() && priced.Valid() && all.all == old(all.all) - {tx.Hash()}
      ensures priced.out == old(priced.out) - {tx}
    {
      if outofbound {
        Unregister(tx);
      } else {
        BalancedEvict(multiset(priced.items), priced.out, all.all, priced.stales, priced.puts, priced.lost, tx);
        all.Remove(tx.Hash());
        priced.out := priced.out - {tx};
      }
    }

    /** Queues what came after a removed pending transaction and lowers the virtual nonce. */
    method Requeue(tx: Tx, invalids: seq<Tx>)
      requires Sound() && moving == TxSet(invalids) && Distinct(invalids)
      modifies this`moving, this`pendingNonces, all, priced, queue.Repr
      ensures priced.puts == old(priced.puts) && priced.lost == old(priced.lost)
      ensures Sound() && fresh(queue.Repr - old(queue.Repr)) && pending.View() == old(pending.View())
      ensures moving == {} && priced.out == old(priced.out) && all.all == old(all.all)
      ensures forall t :: InLists(queue.View(), t) <==> InLists(old(queue.View()), t) || t in invalids
      ensures pendingNonces ==
        if old(PendingNonce(tx.from)) > tx.nonce then old(pendingNonces)[tx.from := tx.nonce] else old(pendingNonces)
    {
      hide Consistent, Balanced, ListTable.Valid, ListTable.View, TxPricedList.Valid, TxLookup.Valid, InLists;
      EnqueueAll(invalids);
      if PendingNonce(tx.from) > tx.nonce {
        pendingNonces := pendingNonces[tx.from := tx.nonce];
      }
    }

    /** Takes a transaction that the lookup has given up already off its lists. */
    method Unlist(tx: Tx, ghost known: map<Hash, Tx>)
      requires SoundFor(known) && moving == {} && tx.Hash() in known && all.all == known - {tx.Hash()}
      modifies this`moving, this`pendingNonces, all, priced, pending.Repr, queue.Repr
      ensures priced.puts == old(priced.puts) && priced.lost == old(priced.lost)
      ensures Sound() && fresh(pending.Repr - old(pending.Repr)) && fresh(queue.Repr - old(queue.Repr))
      ensures moving == {} && priced.out == old(priced.out) && all.all == old(all.all)
      ensures RemovedFrom(old(pending.View()), old(queue.View()), pending.View(), queue.View(), tx)
      ensures pendingNonces == OverAfter(old(pending.View()), currentState, old(pendingNonces), tx)
    {
      hide Consistent, Balanced, ListTable.Valid, ListTable.View, Accepts, TxPricedList.Valid, TxLookup.Valid;
      ghost var p, q := pending.View(), queue.View();
      KnownIsListed(p, q, known, tx);
      pending.Domain(tx.from);
      queue.Domain(tx.from);
      if tx.from in pending.lists {
        var removed, invalids := pending.RemoveAndPrune(tx);
        if removed {
          RemoveFromPending(p, q, known, tx, invalids);
          moving := TxSet(invalids);
          Requeue(tx, invalids);
          return;
        }
      }
      RemoveFromQueue(p, q, known, tx);
      var _, _ := queue.RemoveAndPrune(tx);
    }

    /** Removes exactly the named transaction. If it was pending, the transactions
        of its sender above it go back to the queue. */
    method RemoveTx(hash: Hash, outofbound: bool)
      requires Sound() && moving == {}
      requires hash in all.all ==> if outofbound then priced.out == {} else hash.of in priced.out
      modifies this`moving, this`pendingNonces, all, priced, pending.Repr, queue.Repr
      ensures priced.puts == old(priced.puts) && (!outofbound ==> priced.lost == old(priced.lost))
      ensures Sound() && fresh(pending.Repr - old(pending.Repr)) && fresh(queue.Repr - old(queue.Repr))
      ensures moving == {} && priced.out == old(priced.out) - {hash.of} && all.all == old(all.all) - {hash}
      ensures hash !in old(all.all) ==>
        pending.View() == old(pending.View()) && queue.View() == old(queue.View())
          && pendingNonces == old(pendingNonces)
      ensures hash in old(all.all) ==>
        && RemovedFrom(old(pending.View()), old(queue.View()), pending.View(), queue.View(), hash.of)
        && pendingNonces == OverAfter(old(pending.View()), currentState, old(pendingNonces), hash.of)
      ensures old(Contiguous()) ==> Contiguous()
    {
      hide Consistent, Balanced, ListTable.Valid, ListTable.View, Accepts, TxPricedList.Valid, TxLookup.Valid;
      hide RemovedFrom, Runs, OverAfter, Cut, Fates;
      var tx := all.Get(hash);
      if tx == None {
        if hash.of in priced.out {
          priced.OutIsKnown(hash.of);
        }
        return;
      }
      ghost var known := all.all;
      Deregister(tx.value, outofbound);
      Unlist(tx.value, known);
      if old(Contiguous()) {
        CutByRemoval(old(pending.View()), old(queue.View()), pending.View(), queue.View(),
                     hash.of, currentState, old(pendingNonces));
        FatesAfterCut(old(Snapshot()), Snapshot(), currentState);
        FatesMean(old(Snapshot()), Snapshot(), currentState);
      }
    }

    ghost function Snapshot(): Tables
      reads this, pending, pending.Repr, queue, queue.Repr
      requires pending.Valid() && queue.Valid()
    {
      Tables(pending.View(), queue.View(), pendingNonces)
    }

    ghost function Picture(): Image
      reads this, all, pending, pending.Repr, queue, queue.Repr
      requires pending.Valid() && queue.Valid()
    {
      Image(Snapshot(), all.all, locals)
    }

    function CurrentPolicy(): Policy
      reads this
    {
      Policy(currentState, currentMaxGas, gasPrice, config)
    }

    function CurrentRules(): Rules
      reads this
    {
      CurrentPolicy().Rules(locals)
    }

    /** Removes one of the transactions that the price heap has given up, unless it is gone. */
    method EvictOne(tx: Tx, ghost s: Image, ghost gone: set<Tx>)
      requires Sound() && moving == {} && (tx.Hash() in all.all ==> tx in priced.out)
      requires tx.Hash() in all.all || tx in gone
      requires Evicted(s, Picture(), gone, currentState)
      modifies this`moving, this`pendingNonces, all, priced, pending.Repr, queue.Repr
      ensures Sound() && fresh(pending.Repr - old(pending.Repr)) && fresh(queue.Repr - old(queue.Repr)) && moving == {}
      ensures priced.puts == old(priced.puts) && priced.lost == old(priced.lost)
      ensures priced.out == old(priced.out) - {tx} && all.all == old(all.all) - {tx.Hash()}
      ensures Evicted(s, Picture(), gone + {tx}, currentState)
    {
      hide Consistent, Balanced, ListTable.Valid, ListTable.View, TxPricedList.Valid, TxLookup.Valid;
      hide RemovedFrom, Runs, OverAfter, Evicted;
      ghost var m := Picture();
      RemoveTx(tx.Hash(), false);
      if tx.Hash() in m.all {
        EvictedStep(s, m, Picture(), gone, tx, currentState);
      } else {
        assert gone + {tx} == gone && all.all == m.all;
      }
    }

    /** Removes the transactions that the price heap has given up. */
    method EvictAll(drop: seq<Tx>)
      requires Sound() && moving == {}
      requires forall tx :: tx in priced.out <==> tx in drop
      requires forall tx :: tx in drop ==> tx.Hash() in all.all
      modifies this`moving, this`pendingNonces, all, priced, pending.Repr, queue.Repr
      ensures priced.puts == old(priced.puts) && priced.lost == old(priced.lost)
      ensures Valid() && fresh(pending.Repr - old(pending.Repr)) && fresh(queue.Repr - old(queue.Repr))
      ensures Evicted(old(Picture()), Picture(), TxSet(drop), currentState)
      ensures |all.all| == |old(all.all)| - |old(priced.out)|
    {
      hide Consistent, Balanced, ListTable.Valid, ListTable.View, TxPricedList.Valid, TxLookup.Valid, Evicted;
      EvictedNone(Picture(), currentState);
      assert TxSet([]) == {};
      for i := 0 to |drop|
        invariant priced.puts == old(priced.puts) && priced.lost == old(priced.lost)
        invariant Sound() && fresh(pending.Repr - old(pending.Repr)) && fresh(queue.Repr - old(queue.Repr))
        invariant moving == {}
        invariant forall tx :: tx in priced.out <==> tx in drop && tx.Hash() in all.all
        invariant forall tx :: tx in drop ==> tx.Hash() in all.all || tx in drop[..i]
        invariant |all.all| - |priced.out| == |old(all.all)| - |old(priced.out)|
        invariant Evicted(old(Picture()), Picture(), TxSet(drop[..i]), currentState)
        invariant forall tx :: tx in drop[..i] ==> tx.Hash() !in all.all
      {
        assert drop[..i + 1] == drop[..i] + [drop[i]];
        assert TxSet(drop[..i + 1]) == TxSet(drop[..i]) + {drop[i]};
        LessOne(all.all, drop[i].Hash());
        EvictOne(drop[i], old(Picture()), TxSet(drop[..i]));
      }
      assert drop[..|drop|] == drop;
    }

    /** Replaces the pending transaction with the same nonce, if the price is right. */
    method ReplacePending(tx: Tx) returns (inserted: bool)
      requires Valid() && tx.signed && tx.Hash() !in all.all && tx.nonce in Of(pending.View(), tx.from)
      modifies all, priced, pending.Repr
      ensures Valid() && fresh(pending.Repr - old(pending.Repr)) && queue.View() == old(queue.View())
      ensures inserted == Accepts(Of(old(pending.View()), tx.from), tx, config.priceBump)
      ensures priced.puts == if inserted then old(priced.puts) + multiset{tx} else old(priced.puts)
      ensures !inserted ==> pending.View() == old(pending.View()) && all.all == old(all.all)
      ensures inserted ==>
        && pending.View() == old(pending.View())[tx.from := Plus(Of(old(pending.View()), tx.from), tx)]
        && all.all == Displace(old(all.all), Of(old(pending.View()), tx.from), tx)
    {
      hide Consistent, Balanced, ListTable.Valid, ListTable.View, TxPricedList.Valid, TxLookup.Valid, Accepts, Runs;
      ghost var p, q, known := pending.View(), queue.View(), all.all;
      PendingIsNotQueued(p, q, known, tx);
      ConsistentSwap(p, q, known, {});
      FileNew(q, p, known, tx);
      var was;
      inserted, was := pending.Add(tx, config.priceBump);
      if inserted {
        Unregister(was.value);
        Register(tx);
        ConsistentSwap(q, pending.View(), all.all, {});
      }
    }

    predicate Full()
      reads this, all
    {
      |all.all| >= config.Capacity()
    }

    /** The pool is within its capacity, or no two remote transactions are in it. */
    ghost predicate WithinCapacity()
      reads this, all
    {
      Roomy(all.all, locals, config.Capacity())
    }

    /** Makes room in a full pool, or finds that the transaction is not worth it. */
    method MakeRoom(tx: Tx, local: bool) returns (worthIt: bool)
      requires Valid()
      modifies this`moving, this`pendingNonces, all, priced, pending.Repr, queue.Repr
      ensures Valid() && fresh(pending.Repr - old(pending.Repr)) && fresh(queue.Repr - old(queue.Repr))
      ensures worthIt == !Unworthy(old(Picture()), tx, local, CurrentPolicy())
      ensures if worthIt then MadeRoom(old(Picture()), Picture(), CurrentPolicy()) else Picture() == old(Picture())
      ensures priced.puts == old(priced.puts)
      // enough remote transactions were evicted, as long as there were any, less those that had two entries
      ensures worthIt && old(Full()) ==>
        || |all.all| == config.Capacity() - 1 + (priced.lost - old(priced.lost))
        || forall h :: h in all.all ==> IsLocal(locals, h.of)
      ensures (forall h :: h in old(all.all) ==> multiset(old(priced.items))[h.of] <= 1) ==>
        priced.lost == old(priced.lost)
      ensures worthIt && Single(priced.puts) ==> Spare(all.all, locals, config.Capacity())
    {
      hide Consistent, Balanced, ListTable.Valid, ListTable.View, Worse, MadeRoom, Single, TxLookup.Valid;
      hide TxPricedList.Valid;
      if !Full() {
        NoRoomNeeded(Picture(), CurrentPolicy());
        return true;
      }
      if !local {
        var underpriced := priced.Underpriced(tx, locals);
        if underpriced {
          return false;
        }
      }
      worthIt := true;
      EvictWorst();
    }

    /** Evicts the worst remote transactions of a full pool. */
    method EvictWorst()
      requires Valid() && Full()
      modifies this`moving, this`pendingNonces, all, priced, pending.Repr, queue.Repr
      ensures Valid() && fresh(pending.Repr - old(pending.Repr)) && fresh(queue.Repr - old(queue.Repr))
      ensures MadeRoom(old(Picture()), Picture(), CurrentPolicy())
      ensures priced.puts == old(priced.puts)
      ensures || |all.all| == config.Capacity() - 1 + (priced.lost - old(priced.lost))
              || forall h :: h in all.all ==> IsLocal(locals, h.of)
      ensures (forall h :: h in old(all.all) ==> multiset(old(priced.items))[h.of] <= 1) ==>
        priced.lost == old(priced.lost)
      ensures Single(priced.puts) ==> Spare(all.all, locals, config.Capacity())
    {
      hide Consistent, Balanced, ListTable.Valid, ListTable.View, Worse, MadeRoom, Single, TxLookup.Valid;
      hide TxPricedList.Valid, Evicted;
      var drop := priced.GiveUp(|all.all| + 1 - config.Capacity(), locals);
      EvictAll(drop);
      RoomMade(old(Picture()), Picture(), drop, CurrentPolicy());
      EvictedMeans(old(Picture()), Picture(), TxSet(drop), currentState);
    }

    /** Files a valid new transaction: in the pending list if it replaces a pending
        one, in the queue otherwise. */
    method File(tx: Tx) returns (inserted: bool, replaced: bool, executable: bool)
      requires Valid() && tx.signed && tx.Hash() !in all.all
      modifies this`moving, all, priced, pending.Repr, queue.Repr
      ensures Valid() && fresh(pending.Repr - old(pending.Repr)) && fresh(queue.Repr - old(queue.Repr))
      ensures executable == (tx.nonce in Of(old(pending.View()), tx.from)) && (replaced ==> inserted)
      ensures priced.puts == if inserted then old(priced.puts) + multiset{tx} else old(priced.puts)
      ensures Filed(old(pending.View()), old(queue.View()), pending.View(), queue.View(), tx, config.priceBump,
                    inserted, replaced)
      ensures all.all == if !inserted then old(all.all)
        else Displace(old(all.all), Of(if executable then old(pending.View()) else old(queue.View()), tx.from), tx)
    {
      hide Consistent, Balanced, ListTable.Valid, ListTable.View, TxPricedList.Valid, TxLookup.Valid, Accepts;
      executable := pending.Overlaps(tx);
      if executable {
        inserted := ReplacePending(tx);
        replaced := inserted;
      } else {
        inserted, replaced := EnqueueTx(tx);
      }
    }

    /** Makes room for a valid new transaction and files it. */
    method Admit(tx: Tx, local: bool) returns (r: Outcome)
      requires Valid() && tx.Hash() !in all.all && Validate(tx, local, locals, CurrentPolicy()) == None
      modifies this`moving, this`pendingNonces, this`locals, all, priced, pending.Repr, queue.Repr
      ensures Valid() && fresh(pending.Repr - old(pending.Repr)) && fresh(queue.Repr - old(queue.Repr))
      ensures Added(old(Picture()), Picture(), tx, local, r, CurrentPolicy())
      ensures priced.puts == if r.Accepted? then old(priced.puts) + multiset{tx} else old(priced.puts)
      ensures Single(priced.puts) && old(WithinCapacity()) ==> WithinCapacity()
    {
      hide Consistent, Balanced, ListTable.Valid, ListTable.View, TxPricedList.Valid, TxLookup.Valid;
      hide MadeRoom, Unworthy, Filed, Displace, Validate, Single, Spare, Roomy, Added, IsLocal;
      var worthIt := MakeRoom(tx, local);
      if !worthIt {
        AddedNot(Picture(), tx, local, CurrentPolicy());
        return Refused(Underpriced);
      }
      ghost var m := Picture();
      KeptOut(old(Picture()), m, tx, CurrentPolicy());
      var inserted, replaced, executable := File(tx);
      if !inserted {
        r := Refused(ReplaceUnderpriced);
      } else {
        if local && !executable {
          locals := locals + {tx.from};
        }
        r := Accepted(replaced);
      }
      AddedBy(old(Picture()), m, Picture(), tx, local, r, CurrentPolicy());
      SinglePuts(old(priced.puts), tx);
      CapacityKept(old(Picture()), m, Picture(), tx, local, r, CurrentPolicy());
    }

    /** Validates a transaction and files it: in the pending list if it replaces a
        pending one, in the queue otherwise. */
    method Add(tx: Tx, local: bool) returns (r: Outcome)
      requires Valid()
      modifies this`moving, this`pendingNonces, this`locals, all, priced, pending.Repr, queue.Repr
      ensures Valid() && fresh(pending.Repr - old(pending.Repr)) && fresh(queue.Repr - old(queue.Repr))
      ensures Added(old(Picture()), Picture(), tx, local, r, CurrentPolicy())
      ensures Fates(old(Snapshot()), Snapshot(), currentState) && (old(Contiguous()) ==> Contiguous())
      ensures old(Tailed()) ==> Tailed()
      ensures old(Executable()) ==> Executable()
      ensures priced.puts == if r.Accepted? then old(priced.puts) + multiset{tx} else old(priced.puts)
      ensures Single(priced.puts) && old(WithinCapacity()) ==> WithinCapacity()
    {
      hide Consistent, Balanced, ListTable.Valid, ListTable.View, TxPricedList.Valid, TxLookup.Valid, Runs;
      hide Tails, AllFit;
      hide Unworthy, MadeRoom, Placed, Validate, Single, Roomy, Fates;
      var invalid := Validate(tx, local, locals, CurrentPolicy());
      if all.Get(tx.Hash()) != None {
        r := Refused(Known);
      } else if invalid.Some? {
        r := Refused(invalid.value);
      } else {
        r := Admit(tx, local);
      }
      OrderAfterAdding(old(Picture()), Picture(), tx, local, r, CurrentPolicy());
      FatesMean(old(Snapshot()), Snapshot(), currentState);
    }

    /** Gives up some of the transactions in transit. */
    method ForgetAll(txs: seq<Tx>)
      requires Sound() && priced.out == {} && TxSet(txs) <= moving && Distinct(txs)
      modifies this`moving, all, priced
      ensures priced.puts == old(priced.puts)
      ensures Sound() && priced.out == {} && moving == old(moving) - TxSet(txs)
      ensures forall h :: h in all.all <==> h in old(all.all) && h.of !in txs
    {
      hide Consistent, Balanced, ListTable.Valid, ListTable.View, TxPricedList.Valid, TxLookup.Valid;
      for i := 0 to |txs|
        invariant priced.puts == old(priced.puts)
        invariant Sound() && priced.out == {} && moving == old(moving) - TxSet(txs[..i])
        invariant forall h :: h in all.all <==> h in old(all.all) && h.of !in txs[..i]
      {
        TailSet(txs, i);
        Forget(txs[i]);
      }
      assert txs[..|txs|] == txs;
    }

    /** Notes that `taken` has just been taken off the queued list of `a`. */
    ghost method TakenFromQueue(a: Address, taken: seq<Tx>, q: Lists, kept: NonceMap)
      requires pending.Valid() && queue.Valid() && pending.strict && !queue.strict && Apart()
      requires priced.lookup == all && all.Valid() && priced.Valid()
      requires Consistent(pending.View(), q, all.all, moving) && a in q
      requires queue.View() == q[a := kept] && SubMap(kept, q[a])
      requires forall tx :: tx in taken <==> Has(q[a], tx) && !Has(kept, tx)
      modifies this`moving
      ensures Sound() && moving == old(moving) + TxSet(taken)
    {
      hide Consistent, Balanced, ListTable.Valid, ListTable.View, TxPricedList.Valid, TxLookup.Valid;
      TakeOff(pending.View(), q, all.all, moving, a, kept, TxSet(taken));
      moving := moving + TxSet(taken);
    }

    method DropOldQueued(a: Address)
      requires Valid() && a in queue.lists
      modifies this`moving, all, priced, queue.Repr
      ensures priced.puts == old(priced.puts)
      ensures Valid() && queue.Repr == old(queue.Repr) && queue.lists == old(queue.lists)
      ensures queue.View() == old(queue.View())[a := AtLeast(old(queue.View())[a], currentState.Nonce(a))]
      ensures pending.View() == old(pending.View()) && forall h :: h in all.all ==> h in old(all.all)
    {
      hide Consistent, Balanced, ListTable.Valid, ListTable.View, TxPricedList.Valid, TxLookup.Valid;
      queue.Domain(a);
      ghost var q := queue.View();
      var removed := queue.Forward(a, currentState.Nonce(a));
      TakenFromQueue(a, removed, q, AtLeast(q[a], currentState.Nonce(a)));
      ForgetAll(removed);
    }

    method DropUnpayableQueued(a: Address)
      requires Valid() && a in queue.lists
      modifies this`moving, all, priced, queue.Repr
      ensures priced.puts == old(priced.puts)
      ensures Valid() && queue.Repr == old(queue.Repr) && queue.lists == old(queue.lists)
      ensures queue.View() ==
        old(queue.View())[a := Others(old(queue.View())[a], Unpayable(currentState.Balance(a), currentMaxGas))]
      ensures pending.View() == old(pending.View()) && forall h :: h in all.all ==> h in old(all.all)
    {
      hide Consistent, Balanced, ListTable.Valid, ListTable.View, TxPricedList.Valid, TxLookup.Valid, Criterion.Selects;
      queue.Domain(a);
      ghost var q := queue.View();
      var drops, _ := queue.Filter(a, currentState.Balance(a), currentMaxGas);
      TakenFromQueue(a, drops, q, Others(q[a], Unpayable(currentState.Balance(a), currentMaxGas)));
      ForgetAll(drops);
    }

    method CapQueued(a: Address)
      requires Valid() && a in queue.lists
      modifies this`moving, all, priced, queue.Repr
      ensures priced.puts == old(priced.puts)
      ensures Valid() && queue.Repr == old(queue.Repr) && queue.lists == old(queue.lists)
      ensures a in queue.View() && queue.View() == old(queue.View())[a := queue.View()[a]]
      ensures Lowest(queue.View()[a], old(queue.View())[a], config.accountQueue)
      ensures pending.View() == old(pending.View()) && forall h :: h in all.all ==> h in old(all.all)
    {
      hide Consistent, Balanced, ListTable.Valid, ListTable.View, TxPricedList.Valid, TxLookup.Valid;
      queue.Domain(a);
      ghost var q := queue.View();
      var drops := queue.Cap(a, config.accountQueue);
      TakenFromQueue(a, drops, q, queue.View()[a]);
      ForgetAll(drops);
    }

    /** Promotes transactions of one account in transit, which are listed by nonce
        and are those of `m` below `cut`. */
    method PromoteAll(a: Address, ready: seq<Tx>, ghost m: NonceMap, ghost cut: nat)
      requires Sound() && priced.out == {} && moving == TxSet(ready)
      requires Owned(m, a) && SortedOf(ready, Below(m, cut))
      requires ready != [] ==> ready[|ready| - 1].nonce + 1 == cut
      modifies this`moving, this`pendingNonces, pending.Repr
      ensures Valid() && fresh(pending.Repr - old(pending.Repr)) && queue.View() == old(queue.View())
      ensures ready == [] ==> pending.View() == old(pending.View()) && pendingNonces == old(pendingNonces)
      ensures ready != [] ==> pending.View() == old(pending.View())[a := Of(old(pending.View()), a) + Below(m, cut)]
      ensures ready != [] ==> pendingNonces == old(pendingNonces)[a := cut]
    {
      hide Consistent, Balanced, ListTable.Valid, ListTable.View, TxPricedList.Valid, TxLookup.Valid, Below;
      hide SortedOf, Distinct;
      SortedDistinct(ready, Below(m, cut));
      ghost var p := pending.View();
      for i := 0 to |ready|
        invariant Sound() && fresh(pending.Repr - old(pending.Repr)) && priced.out == {}
        invariant queue.View() == old(queue.View()) && moving == TxSet(ready[i..])
        invariant i == 0 ==> pending.View() == p && pendingNonces == old(pendingNonces)
        invariant i > 0 ==> pending.View() == p[a := Of(p, a) + Below(m, NextNonce(ready, i, cut))]
        invariant i > 0 ==> pendingNonces == old(pendingNonces)[a := ready[i - 1].nonce + 1]
      {
        TailSet(ready, i);
        PromoteStep(ready, m, cut, i, Of(p, a));
        NothingBelowFirst(ready, m, cut, Of(p, a));
        PromoteTx(ready[i]);
      }
    }

    /** Promotes the queued run that continues the pending list. */
    method PromoteReady(a: Address)
      requires Valid() && a in queue.lists
      modifies this`moving, this`pendingNonces, pending.Repr, queue.Repr
      ensures Valid() && queue.Repr == old(queue.Repr) && queue.lists == old(queue.lists)
      ensures fresh(pending.Repr - old(pending.Repr))
      ensures var m := old(queue.View())[a];
        var cut := ReadyCut(m, old(PendingNonce(a)));
        && queue.View() == old(queue.View())[a := AtLeast(m, cut)]
        && (Below(m, cut) == map[] ==> pending.View() == old(pending.View()) && pendingNonces == old(pendingNonces))
        && (Below(m, cut) != map[] ==>
             && pending.View() == old(pending.View())[a := Of(old(pending.View()), a) + Below(m, cut)]
             && pendingNonces == old(pendingNonces)[a := cut])
    {
      hide Consistent, Balanced, ListTable.Valid, ListTable.View, TxPricedList.Valid, TxLookup.Valid, ReadyCut;
      queue.Domain(a);
      ghost var q, m := queue.View(), queue.View()[a];
      ghost var cut := ReadyCut(m, PendingNonce(a));
      AccountOwned(pending.View(), q, all.all, {}, a);
      var ready := queue.Ready(a, PendingNonce(a));
      ReadyEnds(ready, m, PendingNonce(a));
      TakenFromQueue(a, ready, q, AtLeast(m, cut));
      PromoteAll(a, ready, m, cut);
    }

    /** Drops what is stale or unpayable in the queue of one account. */
    method CleanQueued(a: Address)
      requires Valid() && a in queue.lists
      modifies this`moving, all, priced, queue.Repr
      ensures priced.puts == old(priced.puts)
      ensures Valid() && queue.Repr == old(queue.Repr) && queue.lists == old(queue.lists)
      ensures queue.View() == old(queue.View())[a := Others(AtLeast(old(queue.View())[a], currentState.Nonce(a)),
                                                           Unpayable(currentState.Balance(a), currentMaxGas))]
      ensures pending.View() == old(pending.View()) && forall h :: h in all.all ==> h in old(all.all)
    {
      hide Consistent, Balanced, ListTable.Valid, ListTable.View, TxPricedList.Valid, Criterion.Selects, TxLookup.Valid;
      DropOldQueued(a);
      DropUnpayableQueued(a);
    }

    /** Caps the queue of one account and drops its list if it is empty. */
    method TrimQueued(a: Address)
      requires Valid() && a in queue.lists
      modifies this`moving, all, priced, queue.Repr
      ensures priced.puts == old(priced.puts)
      ensures Valid() && queue.Repr == old(queue.Repr)
      ensures Capped(Of(queue.View(), a), Of(old(queue.View()), a), CurrentRules().QueueLimit(a))
      ensures Elsewhere(old(queue.View()), queue.View(), a)
      ensures pending.View() == old(pending.View()) && forall h :: h in all.all ==> h in old(all.all)
      ensures a in queue.View() ==> queue.View()[a] != map[]
    {
      hide Consistent, Balanced, ListTable.Valid, ListTable.View, TxPricedList.Valid, Lowest, TxLookup.Valid;
      queue.Domain(a);
      if a !in locals {
        CapQueued(a);
        queue.Domain(a);
      }
      DropEmptyQueued(a);
    }

    method DropEmptyQueued(a: Address)
      requires Valid() && a in queue.lists
      modifies queue.Repr
      ensures Valid() && queue.Repr == old(queue.Repr)
      ensures Of(queue.View(), a) == Of(old(queue.View()), a) && Elsewhere(old(queue.View()), queue.View(), a)
      ensures pending.View() == old(pending.View()) && (a in queue.View() ==> queue.View()[a] != map[])
    {
      hide Consistent, Balanced, ListTable.Valid, ListTable.View, TxPricedList.Valid, TxLookup.Valid;
      queue.Domain(a);
      if queue.Len(a) == 0 {
        DeleteEmpty(pending.View(), queue.View(), all.all, moving, a);
        queue.Delete(a);
      }
    }

    /** Examines the queue of one account. */
    method PromoteAccount(a: Address)
      requires Valid()
      modifies this`moving, this`pendingNonces, all, priced, pending.Repr, queue.Repr
      ensures priced.puts == old(priced.puts)
      ensures Valid() && fresh(pending.Repr - old(pending.Repr)) && fresh(queue.Repr - old(queue.Repr))
      ensures Promoted(old(Snapshot()), Snapshot(), [a], CurrentRules())
      ensures forall h :: h in all.all ==> h in old(all.all)
      ensures a in queue.View() ==> queue.View()[a] != map[]
    {
      hide Consistent, Balanced, ListTable.Valid, ListTable.View, TxPricedList.Valid, TxLookup.Valid;
      hide ReadyCut, Criterion.Selects, Capped, Elsewhere, Promoted;
      queue.Domain(a);
      if a !in queue.lists {
        NothingToPromote(Snapshot(), a, CurrentRules());
        return;
      }
      CleanQueued(a);
      PromoteReady(a);
      ghost var q := queue.View();
      TrimQueued(a);
      PromotedInStages(old(Snapshot()), Snapshot(), q, a, CurrentRules());
    }

    /** Examines the queues of the given accounts. */
    method PromoteAccounts(accounts: seq<Address>)
      requires Valid() && forall i, j :: 0 <= i < j < |accounts| ==> accounts[i] != accounts[j]
      modifies this`moving, this`pendingNonces, all, priced, pending.Repr, queue.Repr
      ensures priced.puts == old(priced.puts)
      ensures Valid() && fresh(pending.Repr - old(pending.Repr)) && fresh(queue.Repr - old(queue.Repr))
      ensures Promoted(old(Snapshot()), Snapshot(), accounts, CurrentRules())
      ensures forall h :: h in all.all ==> h in old(all.all)
    {
      hide Consistent, Balanced, ListTable.Valid, ListTable.View, TxPricedList.Valid, TxLookup.Valid, Promoted;
      PromotedNone(Snapshot(), CurrentRules());
      for i := 0 to |accounts|
        invariant priced.puts == old(priced.puts)
        invariant Valid() && fresh(pending.Repr - old(pending.Repr)) && fresh(queue.Repr - old(queue.Repr))
        invariant Promoted(old(Snapshot()), Snapshot(), accounts[..i], CurrentRules())
        invariant forall h :: h in all.all ==> h in old(all.all)
      {
        ghost var s := Snapshot();
        PromoteAccount(accounts[i]);
        PromotedStep(old(Snapshot()), s, Snapshot(), accounts[..i], accounts[i], CurrentRules());
        assert accounts[..i + 1] == accounts[..i] + [accounts[i]];
      }
      assert accounts[..|accounts|] == accounts;
    }

    /** Notes that `taken` has just been taken off the pending list of `a`. */
    ghost method TakenFromPending(a: Address, taken: seq<Tx>, p: Lists, kept: NonceMap)
      requires pending.Valid() && queue.Valid() && pending.strict && !queue.strict && Apart()
      requires priced.lookup == all && all.Valid() && priced.Valid()
      requires Consistent(p, queue.View(), all.all, moving) && a in p
      requires pending.View() == p[a := kept] && SubMap(kept, p[a])
      requires forall tx :: tx in taken <==> Has(p[a], tx) && !Has(kept, tx)
      modifies this`moving
      ensures Sound() && moving == old(moving) + TxSet(taken)
    {
      hide Consistent, Balanced, ListTable.Valid, ListTable.View, TxPricedList.Valid, TxLookup.Valid;
      ConsistentSwap(p, queue.View(), all.all, moving);
      TakeOff(queue.View(), p, all.all, moving, a, kept, TxSet(taken));
      moving := moving + TxSet(taken);
      ConsistentSwap(queue.View(), pending.View(), all.all, moving);
    }

    /** Takes the pending transaction of highest nonce of an account off the list
        and out of the lookup. */
    method DropHighest(a: Address) returns (tx: Tx)
      requires Valid() && a in pending.lists && pending.Len(a) > 0
      modifies this`moving, all, priced, pending.Repr
      ensures priced.puts == old(priced.puts)
      ensures Valid() && pending.Repr == old(pending.Repr) && pending.lists == old(pending.lists)
      ensures queue.View() == old(queue.View())
      ensures a in old(pending.View()) && IsHighest(old(pending.View())[a], tx.nonce)
      ensures pending.View() == old(pending.View())[a := old(pending.View())[a] - {tx.nonce}]
      ensures Lowest(old(pending.View())[a] - {tx.nonce}, old(pending.View())[a], |old(pending.View())[a]| - 1)
      ensures forall h :: h in all.all ==> h in old(all.all)
    {
      hide Consistent, Balanced, ListTable.Valid, ListTable.View, TxPricedList.Valid, TxLookup.Valid, Lowest, IsHighest;
      pending.Domain(a);
      ghost var p := pending.View();
      AccountOwned(p, queue.View(), all.all, {}, a);
      var drops := pending.Cap(a, pending.Len(a) - 1);
      OneDropped(p[a], pending.View()[a], drops);
      TakenFromPending(a, drops, p, pending.View()[a]);
      tx := drops[0];
      assert drops == [tx] && TxSet(drops) == {tx};
      Forget(tx);
    }

    /** Gives up the pending transaction of highest nonce of an account. */
    method Shave(a: Address)
      requires Valid() && a in pending.lists && pending.Len(a) > 0
      modifies this`moving, this`pendingNonces, all, priced, pending.Repr
      ensures priced.puts == old(priced.puts)
      ensures Valid() && pending.Repr == old(pending.Repr) && pending.lists == old(pending.lists)
      ensures queue.View() == old(queue.View())
      ensures a in pending.View() && pending.View() == old(pending.View())[a := pending.View()[a]]
      ensures a in old(pending.View())
        && Shaved(old(pending.View())[a], pending.View()[a], a, currentState, old(pendingNonces), pendingNonces)
      ensures forall h :: h in all.all ==> h in old(all.all)
      ensures Cut(old(pending.View()), pending.View(), currentState, old(pendingNonces), pendingNonces)
    {
      hide Consistent, Balanced, ListTable.Valid, ListTable.View, TxPricedList.Valid, TxLookup.Valid, Cut;
      hide Lowest, IsHighest;
      var tx := DropHighest(a);
      if PendingNonce(a) > tx.nonce {
        pendingNonces := pendingNonces[a := tx.nonce];
      }
      CutByShave(old(pending.View()), currentState, old(pendingNonces), a, tx.nonce);
    }

    /** Cuts the accounts at the level by one transaction each. */
    method ShaveAll(offs: seq<Address>, count0: nat, ghost orig: Lists, ghost level: nat) returns (count: nat)
      requires Valid() && level > 0 && AtLevel(pending.View(), orig, level, locals)
      requires AllAt(offs, orig, level, locals) && count0 == Total(pending.View())
      modifies this`moving, this`pendingNonces, all, priced, pending.Repr
      ensures priced.puts == old(priced.puts)
      ensures Valid() && pending.Repr == old(pending.Repr) && queue.View() == old(queue.View())
      ensures AtLevel(pending.View(), orig, level - 1, locals)
      ensures count == Total(pending.View()) && count == count0 - |offs|
      ensures forall h :: h in all.all ==> h in old(all.all)
      ensures Cut(old(pending.View()), pending.View(), currentState, old(pendingNonces), pendingNonces)
    {
      hide Consistent, Balanced, ListTable.Valid, ListTable.View, TxPricedList.Valid, TxLookup.Valid, Cut;
      hide Lowest, IsHighest, Lowering, AtLevel, AllAt, Total;
      count := count0;
      CutNone(pending.View(), currentState, pendingNonces);
      LoweringStart(pending.View(), orig, level, locals);
      for i := 0 to |offs|
        invariant priced.puts == old(priced.puts)
        invariant Valid() && pending.Repr == old(pending.Repr) && queue.View() == old(queue.View())
        invariant Lowering(pending.View(), orig, level, locals, offs[..i])
        invariant count == Total(pending.View()) && count == count0 - i
        invariant forall h :: h in all.all ==> h in old(all.all)
        invariant Cut(old(pending.View()), pending.View(), currentState, old(pendingNonces), pendingNonces)
      {
        var a := offs[i];
        NextAt(offs, i, orig, level, locals);
        ghost var v := pending.View();
        LoweringSize(v, orig, level, locals, offs[..i], a);
        pending.Domain(a);
        ghost var over := pendingNonces;
        Shave(a);
        CutTwice(old(pending.View()), v, pending.View(), currentState, old(pendingNonces), over, pendingNonces);
        LoweringStep(v, orig, level, locals, offs[..i], a, pending.View()[a]);
        count := count - 1;
      }
      assert offs[..|offs|] == offs;
      LoweringEnd(pending.View(), orig, level, locals, offs);
    }

    /** Cuts the offenders step by step, until the pool is small enough or they are
        down to the threshold. */
    method Equalize(offs: seq<Address>, threshold: nat, count0: nat, ghost orig: Lists, ghost level0: nat)
        returns (count: nat, ghost level: nat)
      requires Valid() && offs != [] && AtLevel(pending.View(), orig, level0, locals)
      requires Offending(offs, orig, threshold, level0, locals) && count0 == Total(pending.View())
      modifies this`moving, this`pendingNonces, all, priced, pending.Repr
      ensures priced.puts == old(priced.puts)
      ensures Valid() && pending.Repr == old(pending.Repr) && queue.View() == old(queue.View())
      ensures threshold <= level <= level0 && AtLevel(pending.View(), orig, level, locals)
      ensures Offending(offs, orig, threshold, level, locals)
      ensures count == Total(pending.View()) && (count <= config.globalSlots || level == threshold)
      ensures level < level0 ==> TotalAt(orig, level + 1, locals) > config.globalSlots
      ensures level == level0 ==> pending.View() == old(pending.View())
      ensures forall h :: h in all.all ==> h in old(all.all)
      ensures Cut(old(pending.View()), pending.View(), currentState, old(pendingNonces), pendingNonces)
    {
      hide Consistent, Balanced, ListTable.Valid, ListTable.View, TxPricedList.Valid, TxLookup.Valid, Cut;
      hide AtLevel, AllAt, Total, TotalAt, Offending;
      count, level := count0, level0;
      CutNone(pending.View(), currentState, pendingNonces);
      OffenderSize(pending.View(), orig, threshold, level, locals, offs);
      pending.Domain(offs[|offs| - 1]);
      AtLeastThreshold(offs, orig, threshold, level, locals);
      while count > config.globalSlots && pending.Len(offs[|offs| - 1]) > threshold
        invariant priced.puts == old(priced.puts)
        invariant Valid() && pending.Repr == old(pending.Repr) && queue.View() == old(queue.View())
        invariant threshold <= level <= level0 && AtLevel(pending.View(), orig, level, locals)
        invariant Offending(offs, orig, threshold, level, locals) && count == Total(pending.View())
        invariant offs[|offs| - 1] in pending.View() && |pending.View()[offs[|offs| - 1]]| == level
        invariant offs[|offs| - 1] in pending.lists
        invariant level < level0 ==> TotalAt(orig, level + 1, locals) > config.globalSlots
        invariant level == level0 ==> pending.View() == old(pending.View())
        invariant forall h :: h in all.all ==> h in old(all.all)
        invariant Cut(old(pending.View()), pending.View(), currentState, old(pendingNonces), pendingNonces)
        decreases level
      {
        OffendingAllAt(offs, orig, threshold, level, locals);
        AtLevelTotal(pending.View(), orig, level, locals);
        ghost var v, over := pending.View(), pendingNonces;
        count := ShaveAll(offs, count, orig, level);
        CutTwice(old(pending.View()), v, pending.View(), currentState, old(pendingNonces), over, pendingNonces);
        level := level - 1;
        OffenderSize(pending.View(), orig, threshold, level, locals, offs);
        pending.Domain(offs[|offs| - 1]);
      }
    }

    /** Takes an account with the most pending transactions, as a priority queue
        would. */
    method Largest(spammers: set<Address>) returns (o: Address)
      requires pending.Valid() && spammers != {} && forall a :: a in spammers ==> a in pending.lists
      ensures o in spammers && forall a :: a in spammers ==> |Of(pending.View(), a)| <= |Of(pending.View(), o)|
    {
      hide ListTable.Valid;
      o :| o in spammers;
      var rest := spammers - {o};
      while rest != {}
        invariant rest <= spammers && o in spammers
        invariant forall a :: a in spammers && a !in rest ==> |Of(pending.View(), a)| <= |Of(pending.View(), o)|
        decreases |rest|
      {
        var a :| a in rest;
        if pending.Len(a) > pending.Len(o) {
          o := a;
        }
        rest := rest - {a};
      }
    }

    /** The accounts that are not local and have more than the guaranteed slots. */
    method FindSpammers() returns (spammers: set<Address>)
      requires Valid()
      ensures forall a :: a in spammers <==>
        a in pending.View() && a !in locals && |pending.View()[a]| > config.accountSlots
    {
      hide ListTable.Valid, Consistent, Balanced;
      spammers := set a | a in pending.lists.Keys && a !in locals && pending.Len(a) > config.accountSlots;
    }

    lemma InView(s: set<Address>)
      requires pending.Valid()
      ensures (forall a :: a in s ==> a in pending.View()) <==> (forall a :: a in s ==> a in pending.lists)
    {
      hide ListTable.Valid;
    }

    /** The largest of the accounts in question, which still have their original size. */
    method PickOffender(spammers: set<Address>, ghost orig: Lists) returns (offender: Address, threshold: nat)
      requires Valid() && spammers != {}
      requires forall a :: a in spammers ==> a in pending.View() && a in orig && |pending.View()[a]| == |orig[a]|
      ensures offender in spammers && offender in orig && threshold == |orig[offender]|
      ensures forall a :: a in spammers ==> a in orig && |orig[a]| <= threshold
    {
      hide Consistent, Balanced, ListTable.Valid, TxPricedList.Valid, TxLookup.Valid, ListTable.View;
      InView(spammers);
      offender := Largest(spammers);
      threshold := pending.Len(offender);
    }

    /** Takes the next offender and cuts those before it down to its size. */
    method NextOffender(offenders: seq<Address>, spammers: set<Address>, count0: nat, ghost orig: Lists,
                        ghost level0: nat)
        returns (offender: Address, count: nat, ghost level: nat)
      requires Valid() && spammers != {} && count0 > config.globalSlots
      requires Ranked(offenders, spammers, orig, level0, locals, config.accountSlots)
        && Levelled(offenders, orig, level0)
      requires AtLevel(pending.View(), orig, level0, locals) && count0 == Total(pending.View())
      requires offenders == [] ==> pending.View() == orig
      requires pending.View() == orig || TotalAt(orig, level0 + 1, locals) > config.globalSlots
      modifies this`moving, this`pendingNonces, all, priced, pending.Repr
      ensures priced.puts == old(priced.puts)
      ensures Valid() && pending.Repr == old(pending.Repr) && queue.View() == old(queue.View())
      ensures offender in spammers && config.accountSlots <= level
      ensures Ranked(offenders + [offender], spammers - {offender}, orig, level, locals, config.accountSlots)
      ensures count > config.globalSlots ==> Levelled(offenders + [offender], orig, level)
      ensures AtLevel(pending.View(), orig, level, locals) && count == Total(pending.View())
      ensures pending.View() == orig || TotalAt(orig, level + 1, locals) > config.globalSlots
      ensures forall h :: h in all.all ==> h in old(all.all)
      ensures Cut(old(pending.View()), pending.View(), currentState, old(pendingNonces), pendingNonces)
    {
      hide Consistent, Balanced, ListTable.Valid, TxPricedList.Valid, TxLookup.Valid, Cut, ListTable.View;
      hide AtLevel, Total, TotalAt, Offending, Ranked, Levelled;
      SpammerUntouched(pending.View(), orig, offenders, spammers, level0, locals, config.accountSlots);
      var threshold;
      offender, threshold := PickOffender(spammers, orig);
      RankedPop(offenders, spammers, orig, level0, locals, config.accountSlots, offender);
      if offenders != [] {
        count, level := Equalize(offenders, threshold, count0, orig, level0);
      } else {
        FirstOffender(spammers, orig, level0, locals, config.accountSlots, offender);
        count, level := count0, threshold;
        CutNone(pending.View(), currentState, pendingNonces);
      }
    }

    /** Cuts the pending lists of the largest senders back, evenly, when there are
        too many pending transactions. */
    method TruncatePending()
      requires Valid()
      modifies this`moving, this`pendingNonces, all, priced, pending.Repr
      ensures priced.puts == old(priced.puts)
      ensures Valid() && pending.Repr == old(pending.Repr) && queue.View() == old(queue.View())
      ensures Fair(pending.View(), old(pending.View()), locals, config.accountSlots, config.globalSlots)
      ensures forall h :: h in all.all ==> h in old(all.all)
      ensures Cut(old(pending.View()), pending.View(), currentState, old(pendingNonces), pendingNonces)
    {
      hide Consistent, Balanced, ListTable.Valid, TxPricedList.Valid, TxLookup.Valid, Cut, ListTable.View;
      hide AtLevel, Total, TotalAt, Offending, Ranked, Levelled, Fair;
      ghost var orig := pending.View();
      ghost var level := HighLevel(orig, locals, config.accountSlots);
      CutNone(orig, currentState, pendingNonces);
      var count := pending.Count();
      if count <= config.globalSlots {
        FairAt(orig, orig, locals, config.accountSlots, config.globalSlots, level);
        return;
      }
      var spammers := FindSpammers();
      var offenders: seq<Address> := [];
      RankedStart(orig, spammers, level, locals, config.accountSlots);
      while count > config.globalSlots && spammers != {}
        invariant priced.puts == old(priced.puts)
        invariant Valid() && pending.Repr == old(pending.Repr) && queue.View() == old(queue.View())
        invariant Ranked(offenders, spammers, orig, level, locals, config.accountSlots)
        invariant count > config.globalSlots ==> Levelled(offenders, orig, level)
        invariant AtLevel(pending.View(), orig, level, locals) && count == Total(pending.View())
        invariant offenders == [] ==> pending.View() == orig
        invariant config.accountSlots <= level
        invariant pending.View() == orig || TotalAt(orig, level + 1, locals) > config.globalSlots
        invariant forall h :: h in all.all ==> h in old(all.all)
        invariant Cut(old(pending.View()), pending.View(), currentState, old(pendingNonces), pendingNonces)
        decreases |spammers|
      {
        var offender;
        ghost var v, over := pending.View(), pendingNonces;
        offender, count, level := NextOffender(offenders, spammers, count, orig, level);
        CutTwice(orig, v, pending.View(), currentState, old(pendingNonces), over, pendingNonces);
        offenders, spammers := offenders + [offender], spammers - {offender};
      }
      if count > config.globalSlots {
        NoMoreSpammers(offenders, orig, level, locals, config.accountSlots);
        if offenders != [] {
          ghost var v, over := pending.View(), pendingNonces;
          count, level := Equalize(offenders, config.accountSlots, count, orig, level);
          CutTwice(orig, v, pending.View(), currentState, old(pendingNonces), over, pendingNonces);
        } else {
          level := config.accountSlots;
        }
      }
      FairAt(pending.View(), orig, locals, config.accountSlots, config.globalSlots, level);
    }

    /** Removes one queued transaction. */
    method RemoveQueued(tx: Tx)
      requires Valid() && InLists(queue.View(), tx)
      modifies this`moving, this`pendingNonces, all, priced, pending.Repr, queue.Repr
      ensures priced.puts == old(priced.puts)
      ensures Valid() && fresh(pending.Repr - old(pending.Repr)) && fresh(queue.Repr - old(queue.Repr))
      ensures pending.View() == old(pending.View()) && pendingNonces == old(pendingNonces)
      ensures tx.from in old(queue.View())
        && queue.View() == Upd(old(queue.View()), tx.from, old(queue.View())[tx.from] - {tx.nonce})
      ensures forall h :: h in all.all ==> h in old(all.all)
    {
      hide Consistent, Balanced, ListTable.Valid, TxPricedList.Valid, TxLookup.Valid, ListTable.View, Runs;
      QueuedIsKnown(pending.View(), queue.View(), all.all, tx);
      RemoveTx(tx.Hash(), true);
    }

    /** Drops the whole queue of an account. */
    method RemoveAllQueued(a: Address)
      requires Valid() && a in queue.lists
      modifies this`moving, this`pendingNonces, all, priced, pending.Repr, queue.Repr
      ensures priced.puts == old(priced.puts)
      ensures Valid() && fresh(pending.Repr - old(pending.Repr)) && fresh(queue.Repr - old(queue.Repr))
      ensures pending.View() == old(pending.View()) && pendingNonces == old(pendingNonces)
      ensures a in old(queue.View())
      ensures queue.View() == if old(queue.View())[a] == map[] then old(queue.View()) else old(queue.View()) - {a}
      ensures forall h :: h in all.all ==> h in old(all.all)
    {
      hide Consistent, Balanced, ListTable.Valid, TxPricedList.Valid, TxLookup.Valid, ListTable.View, Runs, Enumerates;
      queue.Domain(a);
      ghost var p, q, m := pending.View(), queue.View(), queue.View()[a];
      AccountOwned(p, q, all.all, {}, a);
      var txs := queue.Flatten(a);
      NothingBelow(txs, m);
      for i := 0 to |txs|
        invariant priced.puts == old(priced.puts)
        invariant Valid() && fresh(pending.Repr - old(pending.Repr)) && fresh(queue.Repr - old(queue.Repr))
        invariant pending.View() == p && pendingNonces == old(pendingNonces)
        invariant i == 0 ==> queue.View() == q
        invariant 0 < i < |txs| ==> queue.View() == q[a := AtLeast(m, txs[i].nonce)]
        invariant 0 < i == |txs| ==> queue.View() == q - {a}
        invariant forall h :: h in all.all ==> h in old(all.all)
      {
        UnlistLowest(txs, m, i);
        assert i == 0 ==> q[a := AtLeast(m, txs[i].nonce)] == q;
        RemoveQueued(txs[i]);
      }
    }

    /** Drops the `n` queued transactions of highest nonce of an account. */
    method RemoveTopQueued(a: Address, n: nat)
      requires Valid() && a in queue.lists && n < queue.Len(a)
      modifies this`moving, this`pendingNonces, all, priced, pending.Repr, queue.Repr
      ensures priced.puts == old(priced.puts)
      ensures Valid() && fresh(pending.Repr - old(pending.Repr)) && fresh(queue.Repr - old(queue.Repr))
      ensures pending.View() == old(pending.View()) && pendingNonces == old(pendingNonces)
      ensures a in queue.View() && a in old(queue.View()) && queue.View() == old(queue.View())[a := queue.View()[a]]
      ensures Lowest(queue.View()[a], old(queue.View())[a], |old(queue.View())[a]| - n)
      ensures |queue.View()[a]| == |old(queue.View())[a]| - n
      ensures forall h :: h in all.all ==> h in old(all.all)
    {
      hide Consistent, Balanced, ListTable.Valid, TxPricedList.Valid, TxLookup.Valid, ListTable.View;
      hide SortedOf, LowerPart, Lowest, Owned;
      queue.Domain(a);
      ghost var p, q, m := pending.View(), queue.View(), queue.View()[a];
      AccountOwned(p, q, all.all, {}, a);
      var txs := queue.Flatten(a);
      var i := |txs|;
      AllLower(txs, m, a);
      assert q[a := m] == q;
      while i > |txs| - n
        invariant priced.puts == old(priced.puts)
        invariant |txs| - n <= i <= |txs|
        invariant Valid() && fresh(pending.Repr - old(pending.Repr)) && fresh(queue.Repr - old(queue.Repr))
        invariant pending.View() == p && pendingNonces == old(pendingNonces)
        invariant queue.View() == q[a := LowerPart(txs, m, i)]
        invariant forall h :: h in all.all ==> h in old(all.all)
      {
        i := i - 1;
        UnlistHighest(txs, m, a, i);
        RemoveQueued(txs[i]);
      }
      LowerSize(txs, m, a, i);
    }

    /** Drops queued transactions of accounts that are not local, account by
        account, when there are too many. Which accounts come first depends on
        their heartbeats. */
    method TruncateQueue()
      requires Valid()
      modifies this`moving, this`pendingNonces, all, priced, pending.Repr, queue.Repr
      ensures priced.puts == old(priced.puts)
      ensures Valid() && fresh(pending.Repr - old(pending.Repr)) && fresh(queue.Repr - old(queue.Repr))
      ensures pending.View() == old(pending.View()) && pendingNonces == old(pendingNonces)
      ensures Trimmed(queue.View(), old(queue.View()), locals, config.globalQueue)
      ensures forall h :: h in all.all ==> h in old(all.all)
    {
      hide Consistent, Balanced, ListTable.Valid, TxPricedList.Valid, TxLookup.Valid, ListTable.View, Runs;
      hide Total, Lowest, Trimming;
      ghost var q := queue.View();
      var queued := queue.Count();
      TrimmingNone(q, locals);
      if queued <= config.globalQueue {
        return;
      }
      var addresses := QueuedRemotes();
      var drop := queued - config.globalQueue;
      while drop > 0 && addresses != {}
        invariant priced.puts == old(priced.puts)
        invariant Valid() && fresh(pending.Repr - old(pending.Repr)) && fresh(queue.Repr - old(queue.Repr))
        invariant pending.View() == old(pending.View()) && pendingNonces == old(pendingNonces)
        invariant Trimming(queue.View(), q, locals) && 0 <= drop == Total(queue.View()) - config.globalQueue
        invariant forall a :: a in addresses ==> a in queue.View() && a !in locals
        invariant drop > 0 ==> forall a :: a in queue.View() && a !in locals && queue.View()[a] != map[] ==>
          a in addresses
        invariant forall h :: h in all.all ==> h in old(all.all)
        decreases addresses
      {
        var addr :| addr in addresses;
        addresses := addresses - {addr};
        queue.Domain(addr);
        ghost var v := queue.View();
        var size := queue.Len(addr);
        if size <= drop {
          RemoveAllQueued(addr);
          TrimmingAll(v, q, locals, addr);
          drop := drop - size;
        } else {
          RemoveTopQueued(addr, drop);
          TrimmingTop(v, q, locals, addr, queue.View()[addr]);
          drop := 0;
        }
      }
    }

    method QueuedRemotes() returns (addresses: set<Address>)
      requires Valid()
      ensures forall a :: a in addresses <==> a in queue.View() && a !in locals
    {
      hide Consistent, Balanced, ListTable.Valid;
      addresses := set a | a in queue.lists.Keys && a !in locals;
    }

    method DropOldPending(a: Address)
      requires Valid() && a in pending.lists
      modifies this`moving, all, priced, pending.Repr
      ensures priced.puts == old(priced.puts)
      ensures Valid() && pending.Repr == old(pending.Repr) && pending.lists == old(pending.lists)
      ensures a in old(pending.View())
      ensures pending.View() == old(pending.View())[a := AtLeast(old(pending.View())[a], currentState.Nonce(a))]
      ensures queue.View() == old(queue.View()) && forall h :: h in all.all ==> h in old(all.all)
    {
      hide Consistent, Balanced, ListTable.Valid, ListTable.View, TxPricedList.Valid, TxLookup.Valid;
      pending.Domain(a);
      ghost var p := pending.View();
      var removed := pending.Forward(a, currentState.Nonce(a));
      TakenFromPending(a, removed, p, AtLeast(p[a], currentState.Nonce(a)));
      ForgetAll(removed);
    }

    /** Drops the unpayable pending transactions of an account and queues those that
        can no longer run before them. */
    method DemoteUnpayable(a: Address)
      requires Valid() && a in pending.lists
      modifies this`moving, all, priced, pending.Repr, queue.Repr
      ensures priced.puts == old(priced.puts)
      ensures Valid() && pending.Repr == old(pending.Repr) && pending.lists == old(pending.lists)
      ensures fresh(queue.Repr - old(queue.Repr))
      ensures a in old(pending.View()) && a in pending.View()
      ensures pending.View() == old(pending.View())[a :=
        Filtered(true, old(pending.View())[a], Unpayable(currentState.Balance(a), currentMaxGas))]
      ensures forall tx :: InLists(queue.View(), tx) <==>
        || InLists(old(queue.View()), tx)
        || (Has(old(pending.View())[a], tx) && !Has(pending.View()[a], tx)
           && !Unpayable(currentState.Balance(a), currentMaxGas).Selects(tx))
      ensures forall h :: h in all.all ==> h in old(all.all)
    {
      hide Consistent, Balanced, ListTable.Valid, ListTable.View, TxPricedList.Valid, TxLookup.Valid;
      hide Filtered, Criterion.Selects;
      pending.Domain(a);
      ghost var p := pending.View();
      ghost var bad := Unpayable(currentState.Balance(a), currentMaxGas);
      AccountOwned(p, queue.View(), all.all, {}, a);
      var drops, invalids := pending.Filter(a, currentState.Balance(a), currentMaxGas);
      FilteredSplit(p[a], bad, drops, invalids);
      TakenFromPending(a, drops + invalids, p, Filtered(true, p[a], bad));
      ForgetAll(drops);
      assert moving == TxSet(invalids) by { SplitSets(drops, invalids); }
      EnqueueAll(invalids);
    }

    /** Queues the whole pending list of an account if its first nonce is missing. */
    method DemoteGapped(a: Address)
      requires Valid() && a in pending.lists
      modifies this`moving, all, priced, pending.Repr, queue.Repr
      ensures priced.puts == old(priced.puts)
      ensures Valid() && pending.Repr == old(pending.Repr) && pending.lists == old(pending.lists)
      ensures fresh(queue.Repr - old(queue.Repr)) && all.all == old(all.all) && a in old(pending.View())
      ensures pending.View() == old(pending.View())[a := Rooted(old(pending.View())[a], currentState.Nonce(a))]
      ensures forall tx :: InLists(queue.View(), tx) <==>
        || InLists(old(queue.View()), tx)
        || (Has(old(pending.View())[a], tx) && currentState.Nonce(a) !in old(pending.View())[a])
    {
      hide Consistent, Balanced, ListTable.Valid, ListTable.View, TxPricedList.Valid, TxLookup.Valid, Lowest, Owned;
      pending.Domain(a);
      ghost var p := pending.View();
      AccountOwned(p, queue.View(), all.all, {}, a);
      if pending.Len(a) > 0 && !pending.HasNonce(a, currentState.Nonce(a)) {
        var txs := pending.Cap(a, 0);
        LowestNone(pending.View()[a], p[a]);
        TakenFromPending(a, txs, p, map[]);
        EnqueueAll(txs);
      } else {
        assert p[a := p[a]] == p;
      }
    }

    method PrunePending(a: Address)
      requires Valid() && a in pending.lists
      modifies pending
      ensures Valid() && pending.Repr == old(pending.Repr) && queue.View() == old(queue.View())
      ensures a in old(pending.View()) && pending.View() == Upd(old(pending.View()), a, old(pending.View())[a])
      ensures pending.lists == old(pending.lists) || pending.lists == old(pending.lists) - {a}
    {
      hide Consistent, Balanced, ListTable.Valid, ListTable.View, TxPricedList.Valid, TxLookup.Valid;
      pending.Domain(a);
      if pending.Len(a) == 0 {
        ConsistentSwap(pending.View(), queue.View(), all.all, {});
        DeleteEmpty(queue.View(), pending.View(), all.all, {}, a);
        ConsistentSwap(queue.View(), pending.View() - {a}, all.all, {});
        pending.Delete(a);
      } else {
        assert pending.View()[a := pending.View()[a]] == pending.View();
      }
    }

    /** Drops or queues the pending transactions of an account that cannot run on the
        current state. */
    method DemoteAccount(a: Address)
      requires Valid() && a in pending.lists
      modifies this`moving, all, priced, pending.Repr, queue.Repr
      ensures priced.puts == old(priced.puts)
      ensures Valid() && pending.Repr == old(pending.Repr) && fresh(queue.Repr - old(queue.Repr))
      ensures Demoted(old(pending.View()), old(queue.View()), pending.View(), queue.View(), {a}, currentState,
                      currentMaxGas)
      ensures pending.lists == old(pending.lists) || pending.lists == old(pending.lists) - {a}
      ensures forall h :: h in all.all ==> h in old(all.all)
    {
      hide Consistent, Balanced, ListTable.Valid, ListTable.View, TxPricedList.Valid, TxLookup.Valid;
      hide Filtered, Criterion.Selects, Demoted;
      ghost var p, q := pending.View(), queue.View();
      AccountOwned(p, q, all.all, {}, a);
      DropOldPending(a);
      DemoteUnpayable(a);
      ghost var p2, q2 := pending.View(), queue.View();
      DemoteGapped(a);
      PrunePending(a);
      DemotedInStages(p, q, p2, q2, pending.View(), queue.View(), a, currentState, currentMaxGas);
    }

    /** Drops or queues all pending transactions that cannot run on the current
        state. */
    method DemoteUnexecutables()
      requires Valid()
      modifies this`moving, all, priced, pending.Repr, queue.Repr
      ensures priced.puts == old(priced.puts)
      ensures Valid() && pending.Repr == old(pending.Repr) && fresh(queue.Repr - old(queue.Repr))
      ensures Demoted(old(pending.View()), old(queue.View()), pending.View(), queue.View(),
                      old(pending.View()).Keys, currentState, currentMaxGas)
      ensures forall h :: h in all.all ==> h in old(all.all)
    {
      hide Consistent, Balanced, ListTable.Valid, ListTable.View, TxPricedList.Valid, TxLookup.Valid, Demoted;
      ghost var p, q := pending.View(), queue.View();
      var accounts := PendingAccounts();
      ghost var done: set<Address> := {};
      DemotedNone(p, q, currentState, currentMaxGas);
      var i := 0;
      while i < |accounts|
        invariant priced.puts == old(priced.puts)
        invariant 0 <= i <= |accounts| && forall a :: a in done <==> a in accounts[..i]
        invariant Valid() && pending.Repr == old(pending.Repr) && fresh(queue.Repr - old(queue.Repr))
        invariant Demoted(p, q, pending.View(), queue.View(), done, currentState, currentMaxGas)
        invariant forall a :: a in accounts[i..] ==> a in pending.lists
        invariant forall h :: h in all.all ==> h in old(all.all)
      {
        var a := accounts[i];
        assert a !in accounts[..i] && accounts[..i + 1] == accounts[..i] + [a] && a in accounts[i..];
        ghost var p1, q1, lists := pending.View(), queue.View(), pending.lists;
        DemoteAccount(a);
        DemotedStep(p, q, p1, q1, pending.View(), queue.View(), done, a, currentState, currentMaxGas);
        done := done + {a};
        i := i + 1;
      }
      assert accounts[..i] == accounts && done == p.Keys;
    }

    method FollowList(a: Address)
      requires Valid() && a in pending.lists && Of(pending.View(), a) != map[]
      modifies this`pendingNonces, pending.Repr
      ensures Valid() && pending.Repr == old(pending.Repr) && pending.lists == old(pending.lists)
      ensures pending.View() == old(pending.View()) && queue.View() == old(queue.View())
      ensures a in pendingNonces && pendingNonces == old(pendingNonces)[a := pendingNonces[a]]
      ensures FollowsOne(Of(pending.View(), a), pendingNonces[a])
    {
      hide Consistent, Balanced, ListTable.Valid, ListTable.View, TxPricedList.Valid, TxLookup.Valid;
      pending.Domain(a);
      AccountOwned(pending.View(), queue.View(), all.all, {}, a);
      var txs := pending.Flatten(a);
      LastIsHighest(txs, pending.View()[a]);
      pendingNonces := pendingNonces[a := txs[|txs| - 1].nonce + 1];
    }

    /** Sets the virtual nonces to follow the pending lists. */
    method AssignNonces()
      requires Valid() && forall a :: a in pending.View() ==> pending.View()[a] != map[]
      modifies this`pendingNonces, pending.Repr
      ensures Valid() && pending.Repr == old(pending.Repr) && pending.View() == old(pending.View())
      ensures queue.View() == old(queue.View())
        && Renumbered(pending.View(), currentState, old(pendingNonces), pendingNonces)
    {
      hide Consistent, Balanced, ListTable.Valid, ListTable.View, TxPricedList.Valid, TxLookup.Valid, FollowsOne;
      ghost var p := pending.View();
      var accounts := PendingAccounts();
      for i := 0 to |accounts|
        invariant Valid() && pending.Repr == old(pending.Repr) && pending.View() == p
          && queue.View() == old(queue.View())
        invariant pending.lists == old(pending.lists)
        invariant forall a :: a in accounts[..i] ==> a in pendingNonces && FollowsOne(Of(p, a), pendingNonces[a])
        invariant forall a :: a !in p ==> PendingNonce(a) == Virtual(currentState, old(pendingNonces), a)
      {
        var a := accounts[i];
        assert a in accounts && accounts[..i + 1] == accounts[..i] + [a];
        FollowList(a);
      }
      assert accounts[..|accounts|] == accounts;
    }

    method PendingAccounts() returns (accounts: seq<Address>)
      requires Valid()
      ensures forall a :: a in accounts <==> a in pending.View()
      ensures forall a :: a in accounts ==> a in pending.lists
      ensures forall i, j :: 0 <= i < j < |accounts| ==> accounts[i] != accounts[j]
    {
      hide Consistent, Balanced, ListTable.Valid;
      accounts := Listing(pending.lists.Keys);
    }

    ghost predicate PendingFits()
      reads this, pending, pending.Repr
      requires pending.Valid()
    {
      ListsFit(pending.View(), currentState, currentMaxGas)
    }

    method QueuedAccounts() returns (accounts: seq<Address>)
      requires Valid()
      ensures forall a :: a in accounts <==> a in queue.View()
      ensures forall i, j :: 0 <= i < j < |accounts| ==> accounts[i] != accounts[j]
    {
      hide Consistent, Balanced, ListTable.Valid;
      accounts := Listing(queue.lists.Keys);
    }

    /** Promotes what has become executable in the given accounts, or in all queued
        ones, and enforces the limits on pending and queued transactions. */
    method PromoteExecutables(accounts: Option<seq<Address>>)
      requires Valid()
      requires accounts.Some? ==> forall i, j :: 0 <= i < j < |accounts.value| ==>
        accounts.value[i] != accounts.value[j]
      modifies this`moving, this`pendingNonces, all, priced, pending.Repr, queue.Repr
      ensures priced.puts == old(priced.puts)
      ensures Valid() && fresh(pending.Repr - old(pending.Repr)) && fresh(queue.Repr - old(queue.Repr))
      ensures Fates(old(Snapshot()), Snapshot(), currentState) && (old(Contiguous()) ==> Contiguous())
      ensures old(Tailed()) ==> Tailed()
      ensures if accounts == None then PromotedBut({})
        else old(PromotedBut(Members(accounts.value))) ==> PromotedBut({})
      ensures forall h :: h in all.all ==> h in old(all.all)
      ensures exists done ::
        && (if accounts.Some? then done == accounts.value else forall a :: a in done <==> a in old(queue.View()))
        && Rebalanced(old(Snapshot()), Snapshot(), done, CurrentRules(), config.GlobalLimits())
      ensures accounts == None && old(PendingFits()) ==> Executable()
    {
      hide Consistent, Balanced, ListTable.Valid, TxPricedList.Valid, TxLookup.Valid, ListTable.View, Runs, Tails, Cut;
      hide Promoted, Fair, Trimmed, ListsFit, AllFit, Fates, CaughtUp;
      var done;
      if accounts.Some? {
        done := accounts.value;
      } else {
        done := QueuedAccounts();
      }
      PromoteAccounts(done);
      ghost var t := Snapshot();
      TruncatePending();
      ghost var p := pending.View();
      TruncateQueue();
      assert Rebalanced(old(Snapshot()), Snapshot(), done, CurrentRules(), config.GlobalLimits());
      OrderAfterRebalance(old(Snapshot()), Snapshot(), old(all.all), done, CurrentRules(), config.GlobalLimits());
      FatesMean(old(Snapshot()), Snapshot(), currentState);
      if accounts == None {
        CaughtButQueued(old(Snapshot()), currentState, done);
      }
      if accounts == None && old(PendingFits()) {
        ListsOwned(old(pending.View()), old(queue.View()), old(all.all));
        PromotedFit(old(Snapshot()), t, done, CurrentRules());
        FairFits(p, t.p, locals, config.accountSlots, config.globalSlots, currentState, currentMaxGas);
        TrimmedFits(queue.View(), t.q, locals, config.globalQueue, currentState, currentMaxGas);
        ListedFit(pending.View(), queue.View(), all.all, currentState, currentMaxGas);
      }
    }

    /** Promotes what has become executable in the given accounts, if any. */
    method Settle(dirty: set<Address>)
      requires Valid()
      modifies this`moving, this`pendingNonces, all, priced, pending.Repr, queue.Repr
      ensures priced.puts == old(priced.puts)
      ensures Valid() && fresh(pending.Repr - old(pending.Repr)) && fresh(queue.Repr - old(queue.Repr))
      ensures Settled(old(Picture()), Picture(), dirty, CurrentPolicy())
      ensures Fates(old(Snapshot()), Snapshot(), currentState)
      ensures old(Tailed()) ==> Tailed()
      ensures old(PromotedBut(dirty)) ==> PromotedBut({})
      ensures forall h :: h in all.all ==> h in old(all.all)
    {
      hide Consistent, Balanced, ListTable.Valid, ListTable.View, TxPricedList.Valid, TxLookup.Valid, Tails;
      hide Rebalanced, Fates, CaughtUp;
      if dirty == {} {
        FatesSame(Snapshot(), currentState);
      } else {
        var addrs := Listing(dirty);
        assert Members(addrs) == dirty;
        PromoteExecutables(Some(addrs));
        assert Ordered(addrs, dirty)
          && Rebalanced(old(Snapshot()), Snapshot(), addrs, CurrentRules(), config.GlobalLimits());
      }
    }

    /** Adds one transaction and promotes what it makes executable. */
    method AddTx(tx: Tx, local: bool) returns (r: Outcome)
      requires Valid()
      modifies this`moving, this`pendingNonces, this`locals, all, priced, pending.Repr, queue.Repr
      ensures Valid() && fresh(pending.Repr - old(pending.Repr)) && fresh(queue.Repr - old(queue.Repr))
      ensures Submitted(old(Picture()), Picture(), [tx], local, [r], CurrentPolicy())
      ensures Fates(old(Snapshot()), Snapshot(), currentState) && (old(Contiguous()) ==> Contiguous())
      ensures old(Sorted()) && old(PromotedBut({})) ==> PromotedBut({})
      ensures old(Tailed()) ==> Tailed()
      ensures old(Executable()) ==> Executable()
      ensures priced.puts == if r.Accepted? then old(priced.puts) + multiset{tx} else old(priced.puts)
      ensures Single(priced.puts) && old(WithinCapacity()) ==> WithinCapacity()
      ensures r == Refused(Known) <==> tx.Hash() in old(all.all)
      ensures forall h :: h in all.all ==> h in old(all.all) || (r.Accepted? && h == tx.Hash())
    {
      hide Consistent, Balanced, ListTable.Valid, ListTable.View, TxPricedList.Valid, TxLookup.Valid, Runs, Tails;
      hide Added, AddedAll, Dirty, Settled, Single, Roomy, Fits, Fates, CaughtUp, RunsOrStranded;
      r := Add(tx, local);
      AddedMeans(old(Picture()), Picture(), tx, local, r, CurrentPolicy());
      AddedOne(old(Picture()), Picture(), tx, local, r, CurrentPolicy());
      ghost var m := Picture();
      if old(Sorted()) && old(PromotedBut({})) {
        CaughtAfterAdding(old(Picture()), m, tx, local, r, CurrentPolicy(), {});
      }
      assert {} + {tx.from} == {tx.from};
      Settle(if r == Accepted(false) then {tx.from} else {});
      FatesTwice(old(Snapshot()), m.t, Snapshot(), currentState);
      FatesMean(old(Snapshot()), Snapshot(), currentState);
      RoomyLess(m.all, all.all, locals, config.Capacity());
    }

    /** Adds the transactions of a batch one by one. */
    method AddEach(txs: seq<Tx>, local: bool) returns (results: seq<Outcome>, dirty: set<Address>)
      requires Valid()
      modifies this`moving, this`pendingNonces, this`locals, all, priced, pending.Repr, queue.Repr
      ensures Valid() && fresh(pending.Repr - old(pending.Repr)) && fresh(queue.Repr - old(queue.Repr))
      ensures AddedAll(old(Picture()), Picture(), txs, local, results, CurrentPolicy())
      ensures |results| == |txs| && dirty == Dirty(txs, results)
      ensures Fates(old(Snapshot()), Snapshot(), currentState)
      ensures old(Sorted()) && old(PromotedBut({})) ==> PromotedBut(dirty)
      ensures old(Tailed()) ==> Tailed()
      ensures old(Executable()) ==> Executable()
      ensures old(priced.puts) <= priced.puts <= old(priced.puts) + multiset(txs)
      ensures Single(priced.puts) && old(WithinCapacity()) ==> WithinCapacity()
      ensures forall h :: h in all.all ==> h in old(all.all) || h.of in txs
    {
      hide Consistent, Balanced, ListTable.Valid, ListTable.View, TxPricedList.Valid, TxLookup.Valid, Runs, Tails;
      hide Added, AddedAll, Dirty, Single, Roomy, Fits, Fates, CaughtUp, RunsOrStranded;
      results, dirty := [], {};
      NoneAdded(Picture(), local, CurrentPolicy());
      FatesSame(Snapshot(), currentState);
      assert txs[..0] == [];
      for i := 0 to |txs|
        invariant Valid() && fresh(pending.Repr - old(pending.Repr)) && fresh(queue.Repr - old(queue.Repr))
        invariant |results| == i && AddedAll(old(Picture()), Picture(), txs[..i], local, results, CurrentPolicy())
        invariant dirty == Dirty(txs[..i], results)
        invariant Fates(old(Snapshot()), Snapshot(), currentState)
        invariant old(Sorted()) && old(PromotedBut({})) ==> PromotedBut(dirty)
        invariant old(Tailed()) ==> Tailed()
        invariant old(Executable()) ==> Executable()
        invariant old(priced.puts) <= priced.puts <= old(priced.puts) + multiset(txs[..i])
        invariant Single(priced.puts) && old(WithinCapacity()) ==> WithinCapacity()
        invariant forall h :: h in all.all ==> h in old(all.all) || h.of in txs
      {
        ghost var m, puts := Picture(), priced.puts;
        FatesMean(old(Snapshot()), m.t, currentState);
        var r := Add(txs[i], local);
        FatesTwice(old(Snapshot()), m.t, Snapshot(), currentState);
        if old(Sorted()) && old(PromotedBut({})) {
          CaughtAfterAdding(m, Picture(), txs[i], local, r, CurrentPolicy(), dirty);
        }
        AddedMeans(m, Picture(), txs[i], local, r, CurrentPolicy());
        AddedStep(old(Picture()), m, Picture(), txs, i, local, results, r, CurrentPolicy());
        MorePuts(old(priced.puts), puts, priced.puts, txs, i);
        if r == Accepted(false) {
          dirty := dirty + {txs[i].from};
        }
        results := results + [r];
      }
      assert txs[..|txs|] == txs;
    }

    /** Adds a batch of transactions and promotes what they make executable. */
    method AddTxsLocked(txs: seq<Tx>, local: bool) returns (results: seq<Outcome>)
      requires Valid()
      modifies this`moving, this`pendingNonces, this`locals, all, priced, pending.Repr, queue.Repr
      ensures Valid() && fresh(pending.Repr - old(pending.Repr)) && fresh(queue.Repr - old(queue.Repr))
      ensures Submitted(old(Picture()), Picture(), txs, local, results, CurrentPolicy())
      ensures Fates(old(Snapshot()), Snapshot(), currentState) && (old(Contiguous()) ==> Contiguous())
      ensures old(Sorted()) && old(PromotedBut({})) ==> PromotedBut({})
      ensures old(Tailed()) ==> Tailed()
      ensures old(Executable()) ==> Executable()
      ensures old(priced.puts) <= priced.puts <= old(priced.puts) + multiset(txs)
      ensures Single(priced.puts) && old(WithinCapacity()) ==> WithinCapacity()
      ensures forall h :: h in all.all ==> h in old(all.all) || h.of in txs
    {
      hide Consistent, Balanced, ListTable.Valid, ListTable.View, TxPricedList.Valid, TxLookup.Valid, Runs, Tails;
      hide AddedAll, Settled, Single, Roomy, Fits, Fates, CaughtUp, RunsOrStranded;
      var dirty;
      results, dirty := AddEach(txs, local);
      ghost var m := Picture();
      Settle(dirty);
      FatesTwice(old(Snapshot()), m.t, Snapshot(), currentState);
      FatesMean(old(Snapshot()), Snapshot(), currentState);
      RoomyLess(m.all, all.all, locals, config.Capacity());
    }

    /** Drops or queues what cannot run on the current state and promotes what can. `before` and
        `over` are the state and the virtual nonces that the pending lists were made for. */
    method Reorganise(ghost before: ChainState, ghost over: map<Address, nat>)
      requires Valid()
      modifies this`moving, this`pendingNonces, all, priced, pending.Repr, queue.Repr
      ensures priced.puts == old(priced.puts)
      ensures Valid() && fresh(pending.Repr - old(pending.Repr)) && fresh(queue.Repr - old(queue.Repr))
      ensures Reorganised(old(Snapshot()), Snapshot(), CurrentRules(), config.GlobalLimits())
      ensures Executable() && forall h :: h in all.all ==> h in old(all.all)
      ensures Runs(old(pending.View()), before, over) && old(pendingNonces) == map[] ==> Contiguous()
      ensures old(Tailed()) ==>
        && Tailed() && Sorted()
        && forall a :: Stranded(pending.View(), currentState, pendingNonces, a) <==>
           old(PendingNonce(a)) < currentState.Nonce(a)
      ensures PromotedBut({})
    {
      hide Consistent, Balanced, ListTable.Valid, ListTable.View, TxPricedList.Valid, TxLookup.Valid, Runs;
      hide Rebalanced, Tails;
      hide Demoted, Renumbered, AllFit, ListsFit, Fates, CaughtUp, RunsOrStranded, Stranded;
      ghost var p, q := pending.View(), queue.View();
      ListsOwned(p, q, all.all);
      DemoteUnexecutables();
      DemotedFit(p, q, pending.View(), queue.View(), currentState, currentMaxGas);
      AssignNonces();
      if Runs(p, before, over) && old(pendingNonces) == map[] {
        RunsAfterReset(p, q, before, over, pending.View(), queue.View(), currentState, currentMaxGas, pendingNonces);
      }
      if old(Tailed()) {
        TailsAfterDemotion(p, q, old(pendingNonces), pending.View(), queue.View(), currentState, currentMaxGas,
                           pendingNonces);
      }
      ghost var u := Snapshot();
      if old(Tailed()) {
        StrandedAfterDemotion(old(Snapshot()), u, currentState, currentMaxGas);
      }
      PromoteExecutables(None);
      FatesMean(u, Snapshot(), currentState);
    }

    /** Takes transactions back in and reorganises the pool for the current state. */
    method Readmit(reinject: seq<Tx>, ghost before: ChainState, ghost over: map<Address, nat>)
      requires Valid()
      modifies this`moving, this`pendingNonces, this`locals, all, priced, pending.Repr, queue.Repr
      ensures Valid() && fresh(pending.Repr - old(pending.Repr)) && fresh(queue.Repr - old(queue.Repr))
      ensures Executable() && Moved(old(Picture()), Picture(), reinject, CurrentPolicy())
      ensures reinject == [] && Runs(old(pending.View()), before, over) && old(pendingNonces) == map[] ==> Contiguous()
      ensures (old(Tailed()) ==> Tailed() && Sorted()) && PromotedBut({})
      ensures old(priced.puts) <= priced.puts <= old(priced.puts) + multiset(reinject)
      ensures Single(priced.puts) && old(WithinCapacity()) ==> WithinCapacity()
      ensures forall h :: h in all.all ==> h in old(all.all) || h.of in reinject
    {
      hide Consistent, Balanced, ListTable.Valid, ListTable.View, TxPricedList.Valid, TxLookup.Valid, Runs, Tails;
      hide Reorganised, AllFit, Submitted, Single, Roomy, Moved, Fates, CaughtUp, RunsOrStranded, Stranded;
      ghost var results := AddTxsLocked(reinject, false);
      ghost var s := Picture();
      if reinject == [] {
        NothingSubmitted(old(Picture()), s, false, results, CurrentPolicy());
      }
      Reorganise(before, over);
      MovedBy(old(Picture()), s, Picture(), reinject, results, CurrentPolicy());
      RoomyLess(s.all, all.all, locals, config.Capacity());
    }

    /** Moves the pool to a new chain state. `reinject` are the transactions that the
        change of the head took off the chain. */
    method Reset(state: ChainState, maxGas: nat, reinject: seq<Tx>)
      requires Valid()
      modifies this`moving, this`pendingNonces, this`locals, this`currentState, this`currentMaxGas, all, priced,
        pending.Repr, queue.Repr
      ensures Valid() && fresh(pending.Repr - old(pending.Repr)) && fresh(queue.Repr - old(queue.Repr))
      ensures currentState == state && currentMaxGas == maxGas
      ensures Executable()
      // the transactions are submitted to a pool without virtual nonces, which is then reorganised
      ensures Moved(Image(Tables(old(pending.View()), old(queue.View()), map[]), old(all.all), old(locals)),
                    Picture(), reinject, CurrentPolicy())
      ensures reinject == [] && old(Contiguous()) ==> Contiguous()
      // with reinjection, lists without gaps stay so if no account with one has its nonce set back,
      // and run up to the virtual nonce except where an account gets stranded
      ensures old(Starting()) && NotSetBack(old(pending.View()), old(currentState), state) ==>
        && Tailed() && Starting() && Sorted() && (Contiguous() <==> NobodyStranded())
        && (NothingSpent(old(pending.View()), state) ==> Contiguous())
      ensures PromotedBut({})
      ensures old(priced.puts) <= priced.puts <= old(priced.puts) + multiset(reinject)
      ensures Single(priced.puts) && old(WithinCapacity()) ==> WithinCapacity()
      ensures forall h :: h in all.all ==> h in old(all.all) || h.of in reinject
    {
      hide Consistent, Balanced, ListTable.Valid, ListTable.View, TxPricedList.Valid, TxLookup.Valid, Runs;
      hide Tails, AllStart;
      hide NotSetBack, AllFit, Single, Roomy, Turnout, CaughtUp, RunsOrStranded, NoneStranded, Submitted;
      hide Reorganised, NothingSpent;
      ghost var before, over, p := currentState, pendingNonces, pending.View();
      currentState, pendingNonces, currentMaxGas := state, map[], maxGas;
      if AllStart(p, before) && NotSetBack(p, before, state) {
        TailsAtReset(p, before, state, maxGas);
      }
      ghost var s := Picture();
      Readmit(reinject, before, over);
      RunsMean(pending.View(), state, pendingNonces);
      if AllStart(p, before) && NotSetBack(p, before, state) && NothingSpent(p, state) {
        NoneGetsStranded(s, Picture(), reinject, CurrentPolicy());
      }
    }

    /** Raises or lowers the price limit; remote transactions below it leave. */
    method SetGasPrice(price: int)
      requires Valid()
      modifies this`gasPrice, this`moving, this`pendingNonces, all, priced, pending.Repr, queue.Repr
      ensures priced.puts == old(priced.puts)
      ensures Valid() && fresh(pending.Repr - old(pending.Repr)) && fresh(queue.Repr - old(queue.Repr))
      ensures gasPrice == price && Fates(old(Snapshot()), Snapshot(), currentState)
      ensures (old(Contiguous()) ==> Contiguous()) && (old(Tailed()) ==> Tailed())
      ensures old(Sorted()) && old(PromotedBut({})) ==> PromotedBut({})
      ensures forall h :: h in all.all <==> h in old(all.all) && (IsLocal(locals, h.of) || h.of.price >= price)
      ensures Evicted(old(Picture()), Picture(), Cheap(old(Picture()), price), currentState)
    {
      hide Consistent, Balanced, ListTable.Valid, ListTable.View, Runs, Tails, Evicted, Fates, CaughtUp, RunsOrStranded;
      gasPrice := price;
      var drop := priced.Cap(price, locals);
      CheapMeans(old(Picture()), price, drop);
      EvictAll(drop);
      EvictedMeans(old(Picture()), Picture(), TxSet(drop), currentState);
      OrderAfterEviction(old(Picture()), Picture(), TxSet(drop), currentState, currentMaxGas);
      FatesMean(old(Snapshot()), Snapshot(), currentState);
    }

    /** Drops the queues of remote accounts that have been idle for too long. */
    method EvictIdle(idle: set<Address>)
      requires Valid()
      modifies this`moving, this`pendingNonces, all, priced, pending.Repr, queue.Repr
      ensures priced.puts == old(priced.puts)
      ensures Valid() && fresh(pending.Repr - old(pending.Repr)) && fresh(queue.Repr - old(queue.Repr))
      ensures pending.View() == old(pending.View()) && pendingNonces == old(pendingNonces)
      ensures forall a :: Of(queue.View(), a) == if a in idle && a !in locals then map[] else Of(old(queue.View()), a)
      ensures forall h :: h in all.all ==> h in old(all.all)
    {
      hide Consistent, Balanced, ListTable.Valid, ListTable.View, TxPricedList.Valid, TxLookup.Valid;
      ghost var q := queue.View();
      var rest := QueuedRemotes();
      while rest != {}
        invariant priced.puts == old(priced.puts)
        invariant Valid() && fresh(pending.Repr - old(pending.Repr)) && fresh(queue.Repr - old(queue.Repr))
        invariant pending.View() == old(pending.View()) && pendingNonces == old(pendingNonces)
        invariant forall a :: a in rest ==> a in queue.View() && a !in locals
        invariant forall a :: a in q && a !in rest && a in idle && a !in locals ==> Of(queue.View(), a) == map[]
        invariant forall a :: !(a in q && a !in rest && a in idle && a !in locals) ==> Of(queue.View(), a) == Of(q, a)
        invariant forall h :: h in all.all ==> h in old(all.all)
        decreases rest
      {
        var addr :| addr in rest;
        rest := rest - {addr};
        if addr in idle {
          queue.Domain(addr);
          RemoveAllQueued(addr);
        }
      }
    }

    /** Any sequence of events: the lists, the lookup and the price heap stay consistent, and
        everything pooled stays executable on the current state. If no nonce is ever set back,
        every account runs gap-free up to its virtual nonce or is stranded; without
        reinjection none is. What can be promoted is. The pool stays within its capacity if no
        transaction is offered twice. */
    method Run(events: seq<Event>) returns (ghost trace: seq<Image>, ghost policies: seq<Policy>)
      requires Valid() && Executable()
      modifies this, all, priced, pending.Repr, queue.Repr
      ensures Valid() && fresh(pending.Repr - old(pending.Repr)) && fresh(queue.Repr - old(queue.Repr))
      ensures Executable()
      // every event does to the pool what it should
      ensures |trace| == |policies| == |events| + 1 && trace[0] == old(Picture()) && trace[|events|] == Picture()
        && policies[0] == old(CurrentPolicy()) && policies[|events|] == CurrentPolicy()
      ensures forall k :: 0 <= k < |events| ==>
        policies[k + 1] == events[k].Judged(policies[k]) && Happened(trace[k], trace[k + 1], events[k], policies[k + 1])
      ensures old(Contiguous()) && NoReinjection(events) ==>
        Contiguous() && (old(PromotedBut({})) ==> PromotedBut({}))
      ensures old(Sorted()) && Forward(old(currentState), events) ==>
        && Sorted() && (Contiguous() <==> NobodyStranded())
        && (old(PromotedBut({})) ==> PromotedBut({}))
      ensures old(Tailed()) && Forward(old(currentState), events) ==> Tailed() && Starting()
      // without a new head no account gets stranded or recovers
      ensures NoNewHead(events) ==> Fates(old(Snapshot()), Snapshot(), currentState)
      ensures priced.puts <= old(priced.puts) + Offered(events)
      ensures Single(old(priced.puts) + Offered(events)) && old(WithinCapacity()) ==> WithinCapacity()
    {
      hide Consistent, Balanced, ListTable.Valid, ListTable.View, TxPricedList.Valid, TxLookup.Valid, Runs, Tails;
      hide AllStart, AllFit, Submitted, Roomy, Single, Fates, CaughtUp, RunsOrStranded, NoneStranded;
      hide Offered, Forward, Ahead, NoReinjection, NoNewHead, Happened;
      assert events[0..] == events;
      trace, policies := [Picture()], [CurrentPolicy()];
      FatesSame(Snapshot(), currentState);
      RunsMean(pending.View(), currentState, pendingNonces);
      for i := 0 to |events|
        invariant Valid() && fresh(pending.Repr - old(pending.Repr)) && fresh(queue.Repr - old(queue.Repr))
        invariant Executable() && |trace| == |policies| == i + 1 && trace[0] == old(Picture())
        invariant trace[i] == Picture() && policies[0] == old(CurrentPolicy()) && policies[i] == CurrentPolicy()
        invariant forall k :: 0 <= k < i ==>
          policies[k + 1] == events[k].Judged(policies[k])
          && Happened(trace[k], trace[k + 1], events[k], policies[k + 1])
        invariant old(Contiguous()) && NoReinjection(events) ==>
          Contiguous() && (old(PromotedBut({})) ==> PromotedBut({}))
        invariant old(Sorted()) && Forward(old(currentState), events) ==>
          Sorted() && (old(PromotedBut({})) ==> PromotedBut({}))
        invariant old(Tailed()) && Forward(old(currentState), events) ==> Tailed()
        invariant Forward(old(currentState), events) ==> Forward(currentState, events[i..])
        invariant NoNewHead(events) ==>
          currentState == old(currentState) && Fates(old(Snapshot()), Snapshot(), currentState)
        invariant priced.puts + Offered(events[i..]) <= old(priced.puts) + Offered(events)
        invariant Single(priced.puts) && old(WithinCapacity()) ==> WithinCapacity()
      {
        NextEvent(events, i, currentState);
        ghost var puts, s := priced.puts, Snapshot();
        RunsMean(pending.View(), currentState, pendingNonces);
        Step(events[i]);
        trace, policies := trace + [Picture()], policies + [CurrentPolicy()];
        SingleSub(puts, priced.puts);
        OfferedNext(events, i, old(priced.puts), puts, priced.puts);
        if NoNewHead(events) {
          FatesTwice(old(Snapshot()), s, Snapshot(), currentState);
        }
      }
      RunsMean(pending.View(), currentState, pendingNonces);
      if Tailed() {
        TailsStartAll(pending.View(), queue.View(), all.all, currentState, pendingNonces, currentMaxGas);
      }
      assert events[|events|..] == [] && priced.puts + Offered([]) <= old(priced.puts) + Offered(events);
      SingleSub(priced.puts, old(priced.puts) + Offered(events));
    }

    /** Handles one event. */
    method Step(event: Event)
      requires Valid() && Executable()
      modifies this, all, priced, pending.Repr, queue.Repr
      ensures Valid() && fresh(pending.Repr - old(pending.Repr)) && fresh(queue.Repr - old(queue.Repr))
      ensures Executable() && currentState == event.After(old(currentState))
      ensures CurrentPolicy() == event.Judged(old(CurrentPolicy()))
      ensures Happened(old(Picture()), Picture(), event, CurrentPolicy())
      ensures old(Contiguous()) && (event.NewHead? ==> event.reinject == []) ==> Contiguous()
      ensures old(Sorted()) && Ahead(old(currentState), currentState) ==> Sorted()
      ensures old(Tailed()) && Ahead(old(currentState), currentState) ==> Tailed()
      ensures !event.NewHead? ==> Fates(old(Snapshot()), Snapshot(), currentState)
      ensures event.NewHead? || (old(Sorted()) && old(PromotedBut({}))) ==> PromotedBut({})
      ensures old(priced.puts) <= priced.puts <= old(priced.puts) + multiset(event.Txs())
      ensures Single(priced.puts) && old(WithinCapacity()) ==> WithinCapacity()
    {
      hide Consistent, Balanced, ListTable.Valid, ListTable.View, TxPricedList.Valid, TxLookup.Valid, Runs, Tails;
      hide AllStart, Fits, Submitted, Roomy, Single, Moved, Fates, CaughtUp, RunsOrStranded, NoneStranded, NothingSpent;
      ghost var known, s := all.all, Snapshot();
      RunsMean(pending.View(), currentState, pendingNonces);
      match event
      case Submit(tx, local) =>
        var r := AddTx(tx, local);
        assert Submitted(old(Picture()), Picture(), [tx], local, [r], CurrentPolicy());
        FatesMean(s, Snapshot(), currentState);
      case SubmitBatch(txs, local) =>
        var results := AddTxsLocked(txs, local);
        assert Submitted(old(Picture()), Picture(), txs, local, results, CurrentPolicy());
        FatesMean(s, Snapshot(), currentState);
      case NewHead(state, maxGas, reinject) =>
        if Tailed() {
          TailsStartAll(pending.View(), queue.View(), all.all, currentState, pendingNonces, currentMaxGas);
        }
        Reset(state, maxGas, reinject);
      case NewPrice(price) =>
        SetGasPrice(price);
        FatesMean(s, Snapshot(), currentState);
        RoomyLess(known, all.all, locals, config.Capacity());
      case Idle(accounts) =>
        EvictIdle(accounts);
        FatesSamePending(s, Snapshot(), currentState);
        FatesMean(s, Snapshot(), currentState);
        if CaughtUp(s, currentState, {}) {
          CaughtWithLess(s, Snapshot(), currentState);
        }
        RoomyLess(known, all.all, locals, config.Capacity());
    }
  }

  /** The elements of a set in some order, as ranging over a map yields its keys. */
  method Listing(s: set<Address>) returns (r: seq<Address>)
    ensures forall a :: a in r <==> a in s
    ensures forall i, j :: 0 <= i < j < |r| ==> r[i] != r[j]
  {
    r := [];
    var rest := s;
    while rest != {}
      invariant rest <= s && forall a :: a in r <==> a in s && a !in rest
      invariant forall i, j :: 0 <= i < j < |r| ==> r[i] != r[j]
      decreases rest
    {
      var a :| a in rest;
      r := r + [a];
      rest := rest - {a};
    }
  }
}
