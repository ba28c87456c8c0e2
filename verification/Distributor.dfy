/** The request distributor: requests wait in the order of their creation, and each
    peer is offered the oldest one it can take. */
module Distributors {
  import opened Options
  import opened RandSelect

  type Peer = nat
  type Req = nat

  /** What the peers and requests say during one pass: who can take what, how long a peer
      has to wait before it, and how much of its buffer would remain. */
  datatype Env = Env(suits: set<(Peer, Req)>, waits: map<(Peer, Req), nat>, buffers: map<(Peer, Req), nat>)

  predicate Suits(e: Env, p: Peer, r: Req) { (p, r) in e.suits }

  function WaitOf(e: Env, p: Peer, r: Req): nat { if (p, r) in e.waits then e.waits[(p, r)] else 0 }

  function WeightFor(e: Env, p: Peer, r: Req): nat { (if (p, r) in e.buffers then e.buffers[(p, r)] else 0) + 1 }

  datatype Candidate = Candidate(peer: Peer, req: Req, weight: nat)

  /** The position of the oldest queued request that a peer can take, or the end. */
  ghost function First(e: Env, q: seq<Req>, p: Peer): (i: nat)
    ensures i <= |q| && (i < |q| ==> Suits(e, p, q[i])) && forall k :: 0 <= k < i ==> !Suits(e, p, q[k])
  {
    if q == [] || Suits(e, p, q[0]) then 0 else
      var i := First(e, q[1..], p);
      assert forall k :: 1 <= k < 1 + i ==> q[k] == q[1..][k - 1];
      1 + i
  }

  /** Some registered peer can take the request. */
  ghost predicate Servable(e: Env, peers: set<Peer>, r: Req) { exists p :: p in peers && Suits(e, p, r) }

  /** Strictly in the order of creation. */
  ghost predicate InOrder(queue: seq<Req>, order: map<Req, nat>) {
    && (forall i :: 0 <= i < |queue| ==> queue[i] in order)
    && (forall i, j :: 0 <= i < j < |queue| ==> order[queue[i]] < order[queue[j]])
  }

  ghost predicate Distinct(order: map<Req, nat>, last: nat) {
    && (forall r :: r in order ==> 0 < order[r] <= last)
    && (forall r, s :: r in order && s in order && order[r] == order[s] ==> r == s)
  }

  ghost function Inserted(queue: seq<Req>, k: nat, r: Req): seq<Req>
    requires k <= |queue|
  {
    queue[..k] + [r] + queue[k..]
  }

  lemma InsertedInOrder(queue: seq<Req>, order: map<Req, nat>, k: nat, r: Req)
    requires InOrder(queue, order) && r in order && k <= |queue|
    requires forall i :: 0 <= i < k ==> order[queue[i]] < order[r]
    requires k < |queue| ==> order[r] < order[queue[k]]
    ensures InOrder(Inserted(queue, k, r), order)
    ensures forall s :: s in Inserted(queue, k, r) <==> s in queue || s == r
  {
    assert queue == queue[..k] + queue[k..];
  }

  /** A request picked for a peer, to be sent after a wait. */
  datatype Pick = NoPick | Pick(peer: Peer, req: Req, wait: nat)

  /** The peer's oldest request in the queue. */
  ghost predicate Oldest(e: Env, q: seq<Req>, p: Peer, r: Req) {
    First(e, q, p) < |q| && r == q[First(e, q, p)]
  }

  /** What a pass has gathered for the peers checked so far: each one that can send at
      once is a candidate with its oldest request, weighted by the buffer it would have
      left, and the best of the others has the shortest wait. */
  ghost predicate Gathered(e: Env, q: seq<Req>, checked: set<Peer>, candidates: map<Candidate, nat>, best: Pick) {
    && (forall c :: c in candidates ==>
       && c.peer in checked && Oldest(e, q, c.peer, c.req) && WaitOf(e, c.peer, c.req) == 0
       && candidates[c] == c.weight == WeightFor(e, c.peer, c.req))
    && (best.Pick? ==>
         best.peer in checked && Oldest(e, q, best.peer, best.req) && best.wait == WaitOf(e, best.peer, best.req) > 0)
    && (forall p, r :: p in checked && Oldest(e, q, p, r) ==>
         if WaitOf(e, p, r) == 0 then Candidate(p, r, WeightFor(e, p, r)) in candidates
         else best.Pick? && best.wait <= WaitOf(e, p, r))
  }

  lemma GatheredMore(e: Env, q: seq<Req>, checked: set<Peer>, candidates: map<Candidate, nat>, best: Pick, p: Peer,
                     r: Req)
    requires Gathered(e, q, checked, candidates, best) && Oldest(e, q, p, r)
    ensures WaitOf(e, p, r) == 0 ==>
      Gathered(e, q, checked + {p}, candidates[Candidate(p, r, WeightFor(e, p, r)) := WeightFor(e, p, r)], best)
    ensures WaitOf(e, p, r) > 0 && (best.NoPick? || WaitOf(e, p, r) < best.wait) ==>
      Gathered(e, q, checked + {p}, candidates, Pick(p, r, WaitOf(e, p, r)))
    ensures WaitOf(e, p, r) > 0 && best.Pick? && best.wait <= WaitOf(e, p, r) ==>
      Gathered(e, q, checked + {p}, candidates, best)
  {
    hide First;
  }

  /** The peers whose oldest request is before position j. */
  ghost predicate CheckedUpTo(e: Env, q: seq<Req>, peers: set<Peer>, checked: set<Peer>, j: nat) {
    checked <= peers && forall p :: p in peers ==> (p in checked <==> First(e, q, p) < j)
  }

  class Distributor {
    var queue: seq<Req>
    var lastReqOrder: nat
    /** The order numbers handed out; a request keeps its number when it is queued again. */
    var order: map<Req, nat>
    /** The requests with an open channel. */
    var open: set<Req>
    var peers: set<Peer>

    ghost predicate Valid()
      reads this
    {
      InOrder(queue, order) && Distinct(order, lastReqOrder) && (forall r :: r in open <==> r in queue)
    }

    constructor ()
      ensures Valid() && queue == [] && order == map[] && peers == {} && lastReqOrder == 0
    {
      queue, lastReqOrder, order, open, peers := [], 0, map[], {}, {};
    }

    /** Queues a request at its place in the order of creation. */
    method Queue(r: Req)
      requires Valid() && r !in queue
      modifies this`queue, this`lastReqOrder, this`order, this`open
      ensures Valid() && r in order && (r in old(order) ==> order == old(order))
      ensures r !in old(order) ==>
        order == old(order)[r := lastReqOrder] && lastReqOrder == old(lastReqOrder) + 1 && queue == old(queue) + [r]
      ensures exists k :: 0 <= k <= |old(queue)| && queue == Inserted(old(queue), k, r)
    {
      hide Inserted;
      if r !in order {
        lastReqOrder := lastReqOrder + 1;
        order := order[r := lastReqOrder];
      }
      var k := Place(r);
      InsertedInOrder(queue, order, k, r);
      assert Inserted(old(queue), k, r) == queue[..k] + [r] + queue[k..] by { InsertedMeans(queue, k, r); }
      queue := queue[..k] + [r] + queue[k..];
      open := open + {r};
    }

    lemma InsertedMeans(queue: seq<Req>, k: nat, r: Req)
      requires k <= |queue|
      ensures Inserted(queue, k, r) == queue[..k] + [r] + queue[k..]
      ensures k == |queue| ==> Inserted(queue, k, r) == queue + [r]
    {
    }

    /** The place of a request: the end, if it is younger than all, or before the first
        that is not older. */
    method Place(r: Req) returns (k: nat)
      requires InOrder(queue, order) && Distinct(order, lastReqOrder) && r in order && r !in queue
      ensures k <= |queue| && (forall i :: 0 <= i < k ==> order[queue[i]] < order[r])
      ensures k < |queue| ==> order[r] < order[queue[k]]
    {
      if queue == [] || order[r] > order[queue[|queue| - 1]] {
        return |queue|;
      }
      k := 0;
      while order[queue[k]] < order[r]
        invariant 0 <= k < |queue|
        invariant forall i :: 0 <= i < k ==> order[queue[i]] < order[r]
      {
        k := k + 1;
      }
    }

    /** Removes a queued request; says whether it was still queued. */
    method Cancel(r: Req) returns (cancelled: bool)
      requires Valid()
      modifies this`queue, this`open
      ensures Valid() && (cancelled <==> r in old(queue)) && r !in queue
      ensures !cancelled ==> queue == old(queue)
      ensures cancelled ==> exists k ::
        0 <= k < |old(queue)| && old(queue)[k] == r && queue == old(queue)[..k] + old(queue)[k + 1..]
    {
      cancelled := r in open;
      if cancelled {
        Remove(r);
      }
    }

    method Remove(r: Req)
      requires Valid() && r in queue
      modifies this`queue, this`open
      ensures Valid() && r !in queue
      ensures exists k :: 0 <= k < |old(queue)| && old(queue)[k] == r && queue == old(queue)[..k] + old(queue)[k + 1..]
    {
      var k := 0;
      while queue[k] != r
        invariant 0 <= k < |queue| && r !in queue[..k]
        decreases |queue| - k
      {
        k := k + 1;
      }
      assert queue == queue[..k] + [r] + queue[k + 1..];
      queue := queue[..k] + queue[k + 1..];
      open := open - {r};
    }

    /** Records what a peer could do with a request. */
    method Consider(e: Env, p: Peer, r: Req, sel: WeightedRandomSelect<Candidate>, best: Pick, ghost q: seq<Req>,
                    ghost checked: set<Peer>)
      returns (best': Pick)
      requires sel.Valid() && Oldest(e, q, p, r) && Gathered(e, q, checked, sel.Weights(), best)
      modifies sel, sel.root.Repr
      ensures sel.Valid() && fresh(sel.root.Repr - old(sel.root.Repr))
      ensures Gathered(e, q, checked + {p}, sel.Weights(), best')
    {
      hide Gathered, First, WeightedRandomSelect.Valid, WeightedRandomSelect.Weights;
      GatheredMore(e, q, checked, sel.Weights(), best, p, r);
      best' := best;
      var wait := WaitOf(e, p, r);
      if wait == 0 {
        var c := Candidate(p, r, WeightFor(e, p, r));
        sel.SetWeight(c, c.weight);
      } else if best == NoPick || wait < best.wait {
        best' := Pick(p, r, wait);
      }
    }

    /** Offers a request to every peer that has not taken an older one. */
    method Offer(e: Env, sel: WeightedRandomSelect<Candidate>, best: Pick, checked: set<Peer>, r: Req,
                 ghost q: seq<Req>, ghost j: nat)
      returns (best': Pick, checked': set<Peer>, canSend: bool)
      requires sel.Valid() && j < |q| && r == q[j]
      requires CheckedUpTo(e, q, peers, checked, j) && Gathered(e, q, checked, sel.Weights(), best)
      modifies sel, sel.root.Repr
      ensures sel.Valid() && fresh(sel.root.Repr - old(sel.root.Repr))
      ensures CheckedUpTo(e, q, peers, checked', j + 1) && Gathered(e, q, checked', sel.Weights(), best')
      ensures canSend <==> exists p :: p in peers && First(e, q, p) == j
    {
      hide Gathered, WeightedRandomSelect.Valid, WeightedRandomSelect.Weights;
      best', checked', canSend := best, checked, false;
      var rest := peers;
      while rest != {}
        invariant rest <= peers && checked' <= peers && sel.Valid() && fresh(sel.root.Repr - old(sel.root.Repr))
        invariant Gathered(e, q, checked', sel.Weights(), best')
        invariant forall p :: p in peers ==>
          (p in checked' <==> First(e, q, p) < j || (First(e, q, p) == j && p !in rest))
        invariant canSend <==> exists p :: p in peers && p !in rest && First(e, q, p) == j
        decreases rest
      {
        var p :| p in rest;
        rest := rest - {p};
        if p !in checked' && Suits(e, p, r) {
          canSend := true;
          best' := Consider(e, p, r, sel, best', q, checked');
          checked' := checked' + {p};
        }
      }
    }

    /** Picks the next request. Requests that nobody can take are dropped while they are
        first in the queue; each peer is considered for the oldest request it can take. */
    method NextRequest(e: Env, draws: nat -> Draw)
      returns (pick: Pick, ghost dropped: nat, ghost table: seq<Cell<Candidate>>)
      requires Valid()
      modifies this`queue, this`open
      ensures Valid() && dropped <= |old(queue)| && queue == old(queue)[dropped..]
      ensures forall i :: 0 <= i < dropped ==> !Servable(e, peers, old(queue)[i])
      ensures queue != [] ==> Servable(e, peers, queue[0])
      ensures pick.NoPick? <==> queue == []
      ensures pick.Pick? ==>
        && pick.peer in peers && Oldest(e, queue, pick.peer, pick.req)
        && pick.wait == WaitOf(e, pick.peer, pick.req) && (pick.peer, pick.req) in e.suits
      ensures forall p, r :: p in peers && Oldest(e, queue, p, r) ==> pick.Pick? && pick.wait <= WaitOf(e, p, r)
      // among the peers that need not wait, each is picked by as many draws as its buffer has left, and one more
      ensures forall p: Peer, r: Req :: p in peers && Oldest(e, queue, p, r) && WaitOf(e, p, r) == 0 ==>
        |Choosing(table, Candidate(p, r, WeightFor(e, p, r)))| ==
          1 + if (p, r) in e.buffers then e.buffers[(p, r)] else 0
      ensures pick.Pick? && pick.wait == 0 ==>
        && Sum(table) > 0
        && var c := Candidate(pick.peer, pick.req, WeightFor(e, pick.peer, pick.req));
           draws(0).place % Sum(table) in Choosing(table, c)
    {
      hide Gathered, First, WeightedRandomSelect.Valid, WeightedRandomSelect.Weights, InOrder, Distinct;
      hide AfterLooks, Looked, Refused, Drawn;
      var sel := new WeightedRandomSelect<Candidate>();
      ghost var q := queue;
      NothingGathered(e, q);
      var best;
      ghost var checked;
      best, dropped, checked := Scan(e, sel);
      GatheredAll(e, q, peers, checked, sel.Weights(), best, dropped);
      table := sel.root.Table();
      Shares(e, queue, peers, sel);
      FirstDraw(table, draws);
      var choice, _ := sel.Choose(Steady, draws);
      pick := if choice.Some? then Pick(choice.value.peer, choice.value.req, 0) else best;
      AnyFront(e, queue, peers);
    }

    /** One turn of the loop: sends the picked request if there is no wait, which takes it
        off the queue. */
    method Turn(e: Env, draws: nat -> Draw) returns (pick: Pick, ghost dropped: nat)
      requires Valid()
      modifies this`queue, this`open
      ensures Valid() && dropped <= |old(queue)|
      ensures pick.NoPick? ==> queue == [] && dropped == |old(queue)|
      ensures pick.Pick? ==> Oldest(e, old(queue)[dropped..], pick.peer, pick.req)
      ensures pick.Pick? && pick.wait > 0 ==> queue == old(queue)[dropped..]
      ensures pick.Pick? && pick.wait == 0 ==>
        exists k :: dropped <= k < |old(queue)| && old(queue)[k] == pick.req
          && queue == old(queue)[dropped..k] + old(queue)[k + 1..]
    {
      hide First;
      ghost var table;
      pick, dropped, table := NextRequest(e, draws);
      if pick.Pick? && pick.wait == 0 {
        ghost var q := queue;
        Remove(pick.req);
        ghost var k :| 0 <= k < |q| && q[k] == pick.req && queue == q[..k] + q[k + 1..];
        assert q[..k] == old(queue)[dropped..dropped + k] && q[k + 1..] == old(queue)[dropped + k + 1..];
      }
    }

    /** Goes through the queue, dropping at its front what nobody can take. */
    method Scan(e: Env, sel: WeightedRandomSelect<Candidate>)
        returns (best: Pick, ghost dropped: nat, ghost gathered: set<Peer>)
      requires Valid() && sel.Valid() && sel.Weights() == map[]
      modifies this`queue, this`open, sel, sel.root.Repr
      ensures Valid() && sel.Valid() && fresh(sel.root.Repr - old(sel.root.Repr))
      ensures dropped <= |old(queue)| && queue == old(queue)[dropped..]
      ensures forall i :: 0 <= i < dropped ==> !Servable(e, peers, old(queue)[i])
      ensures queue != [] ==> Servable(e, peers, queue[0])
      ensures CheckedUpTo(e, old(queue), peers, gathered, |old(queue)|)
      ensures Gathered(e, old(queue), gathered, sel.Weights(), best)
    {
      hide Gathered, First, Servable, WeightedRandomSelect.Valid, WeightedRandomSelect.Weights, InOrder, Distinct;
      var checked, j := {}, 0;
      ghost var q := queue;
      best, dropped := NoPick, 0;
      NothingGathered(e, q);
      while (peers != {} || j == 0) && j < |queue|
        invariant fresh(sel.root.Repr - old(sel.root.Repr)) && sel.Valid()
        invariant dropped <= |q| && queue == q[dropped..] && j <= |queue| && (j > 0 ==> peers != {})
        invariant InOrder(queue, order) && forall r :: r in open <==> r in queue
        invariant CheckedUpTo(e, q, peers, checked, dropped + j) && Gathered(e, q, checked, sel.Weights(), best)
        invariant forall i :: 0 <= i < dropped ==> !Servable(e, peers, q[i])
        invariant j > 0 ==> Servable(e, peers, queue[0])
        decreases |queue| - j
      {
        var canSend: bool;
        best, checked, canSend := Offer(e, sel, best, checked, queue[j], q, dropped + j);
        FrontServable(e, q, peers, dropped);
        if !canSend && j == 0 {
          DropFirst(queue, order);
          open := open - {queue[0]};
          queue := queue[1..];
          dropped := dropped + 1;
        } else {
          j := j + 1;
        }
      }
      gathered := checked;
    }
  }

  /** The candidates are the peers that need not wait for their oldest request, with its weight. */
  ghost predicate Candidates(e: Env, q: seq<Req>, peers: set<Peer>, candidates: map<Candidate, nat>) {
    && (forall c :: c in candidates ==>
         && c.peer in peers && Oldest(e, q, c.peer, c.req) && WaitOf(e, c.peer, c.req) == 0
         && candidates[c] == c.weight == WeightFor(e, c.peer, c.req))
    && forall p, r :: p in peers && Oldest(e, q, p, r) && WaitOf(e, p, r) == 0 ==>
         Candidate(p, r, WeightFor(e, p, r)) in candidates
  }

  lemma Shares(e: Env, q: seq<Req>, peers: set<Peer>, sel: WeightedRandomSelect<Candidate>)
    requires sel.Valid() && Candidates(e, q, peers, sel.Weights())
    ensures forall p, r :: p in peers && Oldest(e, q, p, r) && WaitOf(e, p, r) == 0 ==>
      |Choosing(sel.root.Table(), Candidate(p, r, WeightFor(e, p, r)))| == WeightFor(e, p, r)
  {
    hide First, Choosing;
    forall p, r | p in peers && Oldest(e, q, p, r) && WaitOf(e, p, r) == 0
      ensures |Choosing(sel.root.Table(), Candidate(p, r, WeightFor(e, p, r)))| == WeightFor(e, p, r)
    {
      sel.Fair(Candidate(p, r, WeightFor(e, p, r)));
    }
  }

  /** With weights that stay as they are, the first draw decides. */
  lemma FirstDraw(t: seq<Cell<Candidate>>, draws: nat -> Draw)
    ensures var (choice, _) := Drawn(t, Steady, draws, 0);
      && (choice.None? <==> Sum(t) == 0)
      && (choice.Some? ==> draws(0).place % Sum(t) in Choosing(t, choice.value))
  {
  }

  lemma AnyFront(e: Env, q: seq<Req>, peers: set<Peer>)
    ensures q != [] && Servable(e, peers, q[0]) ==> exists p, r :: p in peers && Oldest(e, q, p, r)
    ensures q == [] ==> forall p, r :: !Oldest(e, q, p, r)
  {
    if q != [] && Servable(e, peers, q[0]) {
      var p :| p in peers && Suits(e, p, q[0]);
      assert Oldest(e, q, p, q[0]);
    }
  }

  lemma NothingGathered(e: Env, q: seq<Req>)
    ensures Gathered(e, q, {}, map[], NoPick)
  {
  }

  /** As long as nobody can take what came before, a request is servable exactly when it
      is the oldest for some peer. */
  lemma FrontServable(e: Env, q: seq<Req>, peers: set<Peer>, k: nat)
    requires k < |q| && forall i :: 0 <= i < k ==> !Servable(e, peers, q[i])
    ensures Servable(e, peers, q[k]) <==> exists p :: p in peers && First(e, q, p) == k
  {
    forall p | p in peers ensures Suits(e, p, q[k]) <==> First(e, q, p) == k {
      var i := First(e, q, p);
      assert i < k ==> Servable(e, peers, q[i]);
    }
  }

  lemma DropFirst(queue: seq<Req>, order: map<Req, nat>)
    requires queue != [] && InOrder(queue, order)
    ensures InOrder(queue[1..], order) && queue[0] !in queue[1..] && queue == [queue[0]] + queue[1..]
  {
  }

  /** Dropping what a peer cannot take does not change its oldest request. */
  lemma OldestStays(e: Env, q: seq<Req>, p: Peer, r: Req, k: nat)
    requires k <= |q| && forall i :: 0 <= i < k ==> !Suits(e, p, q[i])
    ensures Oldest(e, q, p, r) <==> Oldest(e, q[k..], p, r)
  {
    var i, m := First(e, q, p), First(e, q[k..], p);
    assert i >= k;
    assert m < |q| - k ==> q[k..][m] == q[k + m];
    assert i < |q| ==> q[k..][i - k] == q[i];
    assert i == k + m;
  }

  lemma GatheredAll(e: Env, q: seq<Req>, peers: set<Peer>, checked: set<Peer>, candidates: map<Candidate, nat>,
                    best: Pick, k: nat)
    requires k <= |q| && CheckedUpTo(e, q, peers, checked, |q|) && Gathered(e, q, checked, candidates, best)
    requires forall i :: 0 <= i < k ==> !Servable(e, peers, q[i])
    ensures Candidates(e, q[k..], peers, candidates)
    ensures best.Pick? ==>
      best.peer in peers && Oldest(e, q[k..], best.peer, best.req) && best.wait == WaitOf(e, best.peer, best.req)
    ensures candidates == map[] ==> forall p, r :: p in peers && Oldest(e, q[k..], p, r) ==>
      best.Pick? && best.wait <= WaitOf(e, p, r)
  {
    forall p, r | p in peers ensures Oldest(e, q, p, r) <==> Oldest(e, q[k..], p, r) {
      forall i | 0 <= i < k ensures !Suits(e, p, q[i]) {
        assert !Servable(e, peers, q[i]);
      }
      OldestStays(e, q, p, r, k);
    }
  }
}
