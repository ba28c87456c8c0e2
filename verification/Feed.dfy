/** An event feed: one value to many channels. A send goes on until every channel has
    taken the value, while subscriptions may end at any time. */
module Feeds {
  type Channel = nat

  /** The cases of a send: the first one waits for a subscription to end. */
  datatype Case = RemoveSub | Sub(channel: Channel)

  const FIRST_SUB_SEND_CASE := 1

  ghost predicate Cases(cs: seq<Case>) {
    |cs| >= FIRST_SUB_SEND_CASE && cs[0] == RemoveSub && forall i :: 1 <= i < |cs| ==> cs[i].Sub?
  }

  /** The subscribed cases in positions lo to hi. */
  ghost function Bag(cs: seq<Case>, lo: nat, hi: nat): multiset<Case>
    requires lo <= hi <= |cs|
  {
    multiset(cs[lo..hi])
  }

  function Subs(channels: seq<Channel>): (cs: seq<Case>)
    ensures |cs| == |channels| && forall i :: 0 <= i < |cs| ==> cs[i] == Sub(channels[i])
  {
    seq(|channels|, i requires 0 <= i < |channels| => Sub(channels[i]))
  }

  /** The first position of a channel. */
  method Find(cs: seq<Case>, channel: Channel) returns (index: int)
    ensures -1 <= index < |cs|
    ensures index >= 0 ==> cs[index] == Sub(channel) && Sub(channel) !in cs[..index]
    ensures index < 0 <==> Sub(channel) !in cs
  {
    for i := 0 to |cs|
      invariant Sub(channel) !in cs[..i]
    {
      if cs[i] == Sub(channel) {
        return i;
      }
    }
    return -1;
  }

  /** The list without one position. */
  function Delete<T>(cs: seq<T>, index: nat): seq<T>
    requires index < |cs|
  {
    cs[..index] + cs[index + 1..]
  }

  /** The list with a position swapped to the end of the first n. */
  function Deactivate(cs: seq<Case>, n: nat, index: nat): seq<Case>
    requires index < n <= |cs|
  {
    cs[index := cs[n - 1]][n - 1 := cs[index]]
  }

  lemma BagSplit(cs: seq<Case>, lo: nat, mid: nat, hi: nat)
    requires lo <= mid <= hi <= |cs|
    ensures Bag(cs, lo, hi) == Bag(cs, lo, mid) + Bag(cs, mid, hi)
  {
    assert cs[lo..hi] == cs[lo..mid] + cs[mid..hi];
  }

  lemma BagOne(cs: seq<Case>, lo: nat, k: nat, hi: nat)
    requires lo <= k < hi <= |cs|
    ensures Bag(cs, lo, hi) == Bag(cs, lo, k) + multiset{cs[k]} + Bag(cs, k + 1, hi)
  {
    assert cs[lo..hi] == cs[lo..k] + [cs[k]] + cs[k + 1..hi];
  }

  lemma BagSame(cs: seq<Case>, lo: nat, hi: nat, ds: seq<Case>, from: nat, to: nat)
    requires lo <= hi <= |cs| && from <= to <= |ds| && hi - lo == to - from
    requires forall i :: lo <= i < hi ==> cs[i] == ds[i - lo + from]
    ensures Bag(cs, lo, hi) == Bag(ds, from, to)
  {
    assert cs[lo..hi] == ds[from..to];
  }

  /** Deactivating moves one case from the active to the inactive part. */
  lemma Deactivated(cs: seq<Case>, n: nat, k: nat)
    requires Cases(cs) && 1 <= k < n <= |cs|
    ensures Cases(Deactivate(cs, n, k))
    ensures Bag(Deactivate(cs, n, k), 1, n - 1) + multiset{cs[k]} == Bag(cs, 1, n)
    ensures Bag(Deactivate(cs, n, k), n - 1, |cs|) == Bag(cs, n, |cs|) + multiset{cs[k]}
  {
    hide Bag;
    var ds := Deactivate(cs, n, k);
    BagNone(ds, n - 1);
    BagOne(ds, n - 1, n - 1, |ds|);
    BagSame(ds, n, |ds|, cs, n, |cs|);
    SwappedOut(cs, 1, n, k);
  }

  lemma SwappedOut(cs: seq<Case>, lo: nat, n: nat, k: nat)
    requires lo <= k < n <= |cs|
    ensures Bag(Deactivate(cs, n, k), lo, n - 1) + multiset{cs[k]} == Bag(cs, lo, n)
  {
    hide Bag;
    var ds := Deactivate(cs, n, k);
    BagOne(cs, lo, n - 1, n);
    BagNone(cs, n);
    if k < n - 1 {
      BagOne(cs, lo, k, n - 1);
      BagOne(ds, lo, k, n - 1);
      BagSame(ds, lo, k, cs, lo, k);
      BagSame(ds, k + 1, n - 1, cs, k + 1, n - 1);
    } else {
      BagSame(ds, lo, n - 1, cs, lo, n - 1);
    }
  }

  lemma WholeBag(cs: seq<Case>)
    ensures Bag(cs, 0, |cs|) == multiset(cs)
  {
    assert cs[0..|cs|] == cs;
  }

  lemma BagNone(cs: seq<Case>, k: nat)
    requires k <= |cs|
    ensures Bag(cs, k, k) == multiset{}
  {
  }

  /** Deleting takes one case out of the part it is in. */
  lemma Deleted(cs: seq<Case>, n: nat, k: nat)
    requires Cases(cs) && 1 <= k < |cs| && 1 <= n <= |cs|
    ensures Cases(Delete(cs, k))
    ensures k < n ==>
      && Bag(Delete(cs, k), 1, n - 1) + multiset{cs[k]} == Bag(cs, 1, n)
      && Bag(Delete(cs, k), n - 1, |cs| - 1) == Bag(cs, n, |cs|)
    ensures k >= n ==>
      && Bag(Delete(cs, k), 1, n) == Bag(cs, 1, n)
      && Bag(Delete(cs, k), n, |cs| - 1) + multiset{cs[k]} == Bag(cs, n, |cs|)
  {
    hide Bag;
    var ds := Delete(cs, k);
    if k < n {
      BagSame(ds, n - 1, |ds|, cs, n, |cs|);
      CutOut(cs, 1, k, n);
    } else {
      BagSame(ds, 1, n, cs, 1, n);
      CutOut(cs, n, k, |cs|);
    }
  }

  lemma CutOut(cs: seq<Case>, lo: nat, k: nat, hi: nat)
    requires lo <= k < hi <= |cs|
    ensures Bag(Delete(cs, k), lo, hi - 1) + multiset{cs[k]} == Bag(cs, lo, hi)
  {
    hide Bag;
    var ds := Delete(cs, k);
    BagOne(cs, lo, k, hi);
    BagSplit(ds, lo, k, hi - 1);
    BagSame(ds, lo, k, cs, lo, k);
    BagSame(ds, k, hi - 1, cs, k + 1, hi);
  }

  /** Where a send stands: what is still active, what has been delivered, and what was
      removed before (`early`) or after (`late`) its delivery. */
  ghost predicate Balanced(cs: seq<Case>, active: nat, snapshot: multiset<Case>,
                           delivered: seq<Case>, early: multiset<Case>, late: multiset<Case>)
  {
    && Cases(cs) && 1 <= active <= |cs|
    && Bag(cs, 1, active) + multiset(delivered) + early == snapshot
    && Bag(cs, active, |cs|) + late == multiset(delivered)
  }

  lemma BalancedDeliver(cs: seq<Case>, active: nat, snapshot: multiset<Case>,
                        delivered: seq<Case>, early: multiset<Case>, late: multiset<Case>, k: nat)
    requires Balanced(cs, active, snapshot, delivered, early, late) && 1 <= k < active
    ensures active <= |cs| == |Deactivate(cs, active, k)|
    ensures Balanced(Deactivate(cs, active, k), active - 1, snapshot, delivered + [cs[k]], early, late)
  {
    Deactivated(cs, active, k);
  }

  lemma Bounds(cs: seq<Case>, active: nat, snapshot: multiset<Case>, delivered: seq<Case>, early: multiset<Case>,
               late: multiset<Case>)
    requires Balanced(cs, active, snapshot, delivered, early, late)
    ensures 1 <= active <= |cs|
  {
  }

  lemma BalancedRemove(cs: seq<Case>, active: nat, snapshot: multiset<Case>,
                       delivered: seq<Case>, early: multiset<Case>, late: multiset<Case>, k: nat)
    requires Balanced(cs, active, snapshot, delivered, early, late) && 1 <= k < |cs|
    ensures k < active ==> Balanced(Delete(cs, k), active - 1, snapshot, delivered, early + multiset{cs[k]}, late)
    ensures k >= active ==> Balanced(Delete(cs, k), active, snapshot, delivered, early, late + multiset{cs[k]})
  {
    hide Bag;
    Deleted(cs, active, k);
  }

  class Feed {
    var sendCases: seq<Case>
    var inbox: seq<Channel>
    /** Every delivery so far, in order. */
    var deliveries: seq<Case>

    ghost predicate Valid()
      reads this
    {
      Cases(sendCases)
    }

    /** The live subscriptions. */
    ghost function Subscribed(): multiset<Case>
      requires Valid()
      reads this
    {
      Bag(sendCases, 1, |sendCases|) + multiset(Subs(inbox))
    }

    constructor ()
      ensures Valid() && Subscribed() == multiset{} && deliveries == []
    {
      sendCases, inbox, deliveries := [RemoveSub], [], [];
    }

    /** A new subscription waits in the inbox for the next send. */
    method Subscribe(channel: Channel)
      requires Valid()
      modifies this`inbox
      ensures Valid() && Subscribed() == old(Subscribed()) + multiset{Sub(channel)}
    {
      assert Subs(inbox + [channel]) == Subs(inbox) + [Sub(channel)];
      inbox := inbox + [channel];
    }

    /** Ends a subscription while no send is going on. */
    method Remove(channel: Channel)
      requires Valid() && Sub(channel) in Subscribed()
      modifies this`inbox, this`sendCases
      ensures Valid() && Subscribed() == old(Subscribed()) - multiset{Sub(channel)}
    {
      var i := Find(Subs(inbox), channel);
      if i >= 0 {
        RemoveNew(i);
      } else {
        var k := Find(sendCases, channel);
        RemoveSending(k);
      }
    }

    method RemoveNew(i: nat)
      requires Valid() && i < |inbox|
      modifies this`inbox
      ensures Valid() && Subscribed() == old(Subscribed()) - multiset{Sub(old(inbox)[i])}
    {
      hide Bag;
      ghost var was := Subs(inbox);
      CutOut(was, 0, i, |was|);
      inbox := Delete(inbox, i);
      assert Subs(inbox) == Delete(was, i);
      WholeBag(was);
      WholeBag(Delete(was, i));
    }

    method RemoveSending(k: nat)
      requires Valid() && 1 <= k < |sendCases|
      modifies this`sendCases
      ensures Valid() && Subscribed() == old(Subscribed()) - multiset{old(sendCases)[k]}
    {
      hide Bag;
      Deleted(sendCases, |sendCases|, k);
      sendCases := Delete(sendCases, k);
    }

    /** Tries every active channel once without waiting; `ready` says which tries succeed. */
    method TryAll(start: nat, ready: nat -> bool, ghost snapshot: multiset<Case>, ghost before: seq<Case>,
                  ghost early: multiset<Case>, ghost late: multiset<Case>)
      returns (active: nat, nsent: nat, ghost tried: seq<Case>)
      requires before <= deliveries && Balanced(sendCases, start, snapshot, deliveries[|before|..], early, late)
      modifies this`sendCases, this`deliveries
      ensures before <= deliveries && Balanced(sendCases, active, snapshot, deliveries[|before|..], early, late)
      ensures |deliveries| == |old(deliveries)| + nsent && |sendCases| == |old(sendCases)| && active == start - nsent
      ensures multiset(tried) == Bag(old(sendCases), 1, start)
      ensures deliveries == old(deliveries) + Successes(tried, ready)
    {
      hide Bag, Balanced, Successes;
      active, nsent, tried := start, 0, [];
      Bounds(sendCases, start, snapshot, deliveries[|before|..], early, late);
      SuccessesMore([], ready, RemoveSub);
      var i, tries := FIRST_SUB_SEND_CASE, 0;
      while i < active
        invariant 1 <= i <= active <= start <= |sendCases| == |old(sendCases)|
        invariant before <= deliveries && Balanced(sendCases, active, snapshot, deliveries[|before|..], early, late)
        invariant |deliveries| == |old(deliveries)| + nsent && active == start - nsent
        invariant |tried| == tries && multiset(tried) + Bag(sendCases, i, active) == Bag(old(sendCases), 1, start)
        invariant deliveries == old(deliveries) + Successes(tried, ready)
        decreases active - i
      {
        BagOne(sendCases, i, i, active);
        BagNone(sendCases, i);
        SuccessesMore(tried, ready, sendCases[i]);
        tried := tried + [sendCases[i]];
        if ready(tries) {
          BalancedDeliver(sendCases, active, snapshot, deliveries[|before|..], early, late, i);
          SwappedOut(sendCases, i, active, i);
          assert (deliveries + [sendCases[i]])[|before|..] == deliveries[|before|..] + [sendCases[i]];
          deliveries := deliveries + [sendCases[i]];
          sendCases := Deactivate(sendCases, active, i);
          active := active - 1;
          nsent := nsent + 1;
        } else {
          i := i + 1;
        }
        tries := tries + 1;
      }
      BagNone(sendCases, i);
    }

    /** Sends a value to every channel subscribed at the start. `requests` are the requests to
        unsubscribe that come in while it goes on, of which it serves a part. */
    method Send(requests: seq<Channel>) returns (nsent: nat, served: nat)
      requires Valid() && multiset(Subs(requests)) <= Subscribed()
      modifies this
      ensures Valid() && inbox == [] && old(deliveries) <= deliveries
      ensures nsent == |deliveries| - |old(deliveries)| && served <= |requests|
      ensures Delivers(old(Subscribed()), deliveries[|old(deliveries)|..], multiset(Subs(requests[..served])),
                       Subscribed())
    {
      hide Bag;
      ghost var snapshot, before := Subscribed(), deliveries;
      ghost var early: multiset<Case>, late: multiset<Case> := multiset{}, multiset{};
      nsent, served := 0, 0;
      TakeInbox();
      var active: nat := |sendCases|;
      BagNone(sendCases, active);
      while true
        invariant before <= deliveries && inbox == []
          && Balanced(sendCases, active, snapshot, deliveries[|before|..], early, late)
        invariant nsent == |deliveries| - |before| && served <= |requests|
          && early + late == multiset(Subs(requests[..served]))
        decreases |sendCases| + active
      {
        var more: nat;
        var ready: nat -> bool := *;
        ghost var tried;
        active, more, tried := TryAll(active, ready, snapshot, before, early, late);
        nsent := nsent + more;
        if active == FIRST_SUB_SEND_CASE {
          break;
        }
        assert 1 < active;
        var chosen: nat :| chosen < active && (chosen == 0 ==> served < |requests|);
        if chosen == 0 {
          NextIsSubscribed(sendCases, active, snapshot, deliveries[|before|..], early, late, requests, served);
          active, early, late := RemoveDuring(requests[served], active, snapshot, deliveries[|before|..], early, late);
          served := served + 1;
        } else {
          active := Deliver(active, chosen, snapshot, before, early, late);
          nsent := nsent + 1;
        }
      }
      SendEnds(snapshot, deliveries[|before|..], early, late);
    }

    /** The channel that was waited for takes the value. */
    method Deliver(active: nat, chosen: nat, ghost snapshot: multiset<Case>, ghost before: seq<Case>,
                   ghost early: multiset<Case>, ghost late: multiset<Case>)
      returns (active': nat)
      requires before <= deliveries && Balanced(sendCases, active, snapshot, deliveries[|before|..], early, late)
        && 1 <= chosen < active
      modifies this`sendCases, this`deliveries
      ensures active' == active - 1 && |sendCases| == |old(sendCases)|
      ensures before <= deliveries == old(deliveries) + [old(sendCases)[chosen]]
      ensures Balanced(sendCases, active', snapshot, deliveries[|before|..], early, late)
    {
      hide Bag;
      BalancedDeliver(sendCases, active, snapshot, deliveries[|before|..], early, late, chosen);
      assert (deliveries + [sendCases[chosen]])[|before|..] == deliveries[|before|..] + [sendCases[chosen]];
      deliveries := deliveries + [sendCases[chosen]];
      sendCases := Deactivate(sendCases, active, chosen);
      active' := active - 1;
    }

    lemma SendEnds(snapshot: multiset<Case>, delivered: seq<Case>, early: multiset<Case>, late: multiset<Case>)
      requires Balanced(sendCases, 1, snapshot, delivered, early, late) && inbox == []
      ensures Delivers(snapshot, delivered, early + late, Subscribed())
    {
      BagNone(sendCases, 1);
    }

    /** A subscription ends while the send goes on. */
    method RemoveDuring(channel: Channel, active: nat, ghost snapshot: multiset<Case>, ghost delivered: seq<Case>,
                        ghost early: multiset<Case>, ghost late: multiset<Case>)
      returns (active': nat, ghost early': multiset<Case>, ghost late': multiset<Case>)
      requires Balanced(sendCases, active, snapshot, delivered, early, late) && Sub(channel) in sendCases
      modifies this`sendCases
      ensures Balanced(sendCases, active', snapshot, delivered, early', late')
      ensures |sendCases| == |old(sendCases)| - 1 && active' <= active
      ensures early' + late' == early + late + multiset{Sub(channel)}
    {
      hide Bag;
      var k := Find(sendCases, channel);
      BalancedRemove(sendCases, active, snapshot, delivered, early, late, k);
      sendCases := Delete(sendCases, k);
      if k < active {
        active', early', late' := active - 1, early + multiset{Sub(channel)}, late;
      } else {
        active', early', late' := active, early, late + multiset{Sub(channel)};
      }
    }

    method TakeInbox()
      requires Valid()
      modifies this`sendCases, this`inbox
      ensures Valid() && inbox == [] && Bag(sendCases, 1, |sendCases|) == old(Subscribed())
    {
      hide Bag;
      BagSplit(sendCases + Subs(inbox), 1, |sendCases|, |sendCases| + |inbox|);
      BagSame(sendCases + Subs(inbox), 1, |sendCases|, sendCases, 1, |sendCases|);
      BagSame(sendCases + Subs(inbox), |sendCases|, |sendCases| + |inbox|, Subs(inbox), 0, |inbox|);
      WholeBag(Subs(inbox));
      sendCases := sendCases + Subs(inbox);
      inbox := [];
    }
  }

  /** The tries that succeed. */
  ghost function Successes(tried: seq<Case>, ready: nat -> bool): seq<Case> {
    if tried == [] then [] else
      var n := |tried| - 1;
      Successes(tried[..n], ready) + if ready(n) then [tried[n]] else []
  }

  lemma {:induction false} SuccessesMore(tried: seq<Case>, ready: nat -> bool, c: Case)
    ensures Successes([], ready) == []
    ensures Successes(tried + [c], ready) == Successes(tried, ready) + if ready(|tried|) then [c] else []
  {
    assert (tried + [c])[..|tried|] == tried;
  }

  /** What a send does: everything delivered was subscribed at the start, what was not
      delivered was asked to be removed, and what stays subscribed is the rest. */
  ghost predicate Delivers(snapshot: multiset<Case>, delivered: seq<Case>, removed: multiset<Case>,
                           left: multiset<Case>) {
    multiset(delivered) <= snapshot && snapshot - multiset(delivered) <= removed && left + removed == snapshot
  }

  /** The next request is for a subscription that is still there. */
  lemma NextIsSubscribed(cs: seq<Case>, active: nat, snapshot: multiset<Case>, delivered: seq<Case>,
                         early: multiset<Case>, late: multiset<Case>, requests: seq<Channel>, served: nat)
    requires Balanced(cs, active, snapshot, delivered, early, late) && served < |requests|
    requires multiset(Subs(requests)) <= snapshot && early + late == multiset(Subs(requests[..served]))
    ensures Sub(requests[served]) in cs
    ensures multiset(Subs(requests[..served + 1])) == multiset(Subs(requests[..served])) +
      multiset{Sub(requests[served])}
  {
    var c, rs := Sub(requests[served]), Subs(requests);
    assert rs == Subs(requests[..served]) + [c] + rs[served + 1..];
    assert Subs(requests[..served + 1]) == Subs(requests[..served]) + [c];
    BagSplit(cs, 1, active, |cs|);
    assert Bag(cs, 1, |cs|) + early + late == snapshot;
    assert multiset(rs)[c] >= multiset(Subs(requests[..served]))[c] + 1;
    assert c in cs[1..|cs|];
  }

  /** A channel that nobody asked to remove gets the value exactly as often as it is
      subscribed and stays so; one subscribed once that does not get it was removed; and
      none gets it more often than it is subscribed. */
  lemma ExactlyOnce(snapshot: multiset<Case>, delivered: seq<Case>, removed: multiset<Case>, left: multiset<Case>,
                    c: Case)
    requires Delivers(snapshot, delivered, removed, left)
    ensures multiset(delivered)[c] <= snapshot[c]
    ensures c !in removed ==> multiset(delivered)[c] == snapshot[c] == left[c]
    ensures snapshot[c] == 1 ==> (c in delivered || (c in removed && c !in left))
    ensures removed == multiset{} ==> multiset(delivered) == snapshot == left
  {
    assert (snapshot - multiset(delivered))[c] <= removed[c];
    assert snapshot[c] == left[c] + removed[c];
    assert c in delivered <==> multiset(delivered)[c] > 0;
    if removed == multiset{} {
      assert snapshot - multiset(delivered) == multiset{};
      assert multiset(delivered) == snapshot;
    }
  }
}
