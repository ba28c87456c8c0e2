/** On-demand retrieval: one loop that is fed by the events of concurrent attempts,
    each of which asks one peer. Locks and channel operations are atomic steps; which
    step comes next is arbitrary. */
module Retrieval {
  import opened Options

  type Peer = nat

  datatype Kind = Sent | SoftTimeout | HardTimeout | DeliveredValid | DeliveredInvalid

  /** What an attempt tells the loop; `Sent` without a peer means that none was suitable. */
  datatype Event = Event(kind: Kind, peer: Option<Peer>)

  /** Where an attempt is in its code: in the distributor's queue, given to a peer, sent
      and waiting, waiting after the soft timeout, past its last event, or gone. */
  datatype Pc = Queued | Assigned | Fresh | Soft | Leaving | Gone

  datatype Attempt = Attempt(pc: Pc, peer: Option<Peer>)

  /** How far the loop has followed an attempt. */
  datatype View = ViewQueued | ViewFresh | ViewSoft | ViewDone

  datatype Entry = Entry(delivered: bool, valid: Option<bool>)

  datatype Phase = Requesting | NoMorePeers | Stopped | Finished

  datatype Error = NoError | NoPeers | Cancelled | ShuttingDown

  ghost function ViewOf(a: Attempt): View {
    match a.pc
    case Queued => ViewQueued
    case Assigned => ViewQueued
    case Fresh => ViewFresh
    case Soft => ViewSoft
    case Leaving => ViewDone
    case Gone => ViewDone
  }

  /** The order in which the events of one attempt can come. */
  ghost function Next(v: View, e: Event): Option<View> {
    match (v, e.kind)
    case (ViewQueued, Sent) => Some(if e.peer.Some? then ViewFresh else ViewDone)
    case (ViewFresh, SoftTimeout) => Some(ViewSoft)
    case (ViewFresh, DeliveredValid) => Some(ViewDone)
    case (ViewFresh, DeliveredInvalid) => Some(ViewDone)
    case (ViewSoft, HardTimeout) => Some(ViewDone)
    case (ViewSoft, DeliveredValid) => Some(ViewDone)
    case (ViewSoft, DeliveredInvalid) => Some(ViewDone)
    case _ => None
  }

  ghost predicate Asking(v: View) { v.ViewFresh? || v.ViewSoft? }

  /** The attempts that the loop sees as waiting have peers, all different. */
  ghost predicate PeersDiffer(seen: seq<View>, attempts: seq<Attempt>)
    requires |seen| == |attempts|
  {
    && (forall i :: 0 <= i < |seen| && Asking(seen[i]) ==> attempts[i].peer.Some?)
    && (forall i, j :: 0 <= i < j < |seen| && Asking(seen[i]) && Asking(seen[j]) ==>
       attempts[i].peer != attempts[j].peer)
  }

  /** The queued events lead the loop's view, legally and keeping peers apart at each
      one, to where the attempts are. */
  ghost predicate Follows(seen: seq<View>, events: seq<Event>, senders: seq<nat>, attempts: seq<Attempt>)
    requires |seen| == |attempts| && |events| == |senders|
    decreases |events|
  {
    && PeersDiffer(seen, attempts)
    && if events == [] then forall i :: 0 <= i < |seen| ==> seen[i] == ViewOf(attempts[i])
       else
         && senders[0] < |seen| && Next(seen[senders[0]], events[0]).Some?
         && events[0].peer == attempts[senders[0]].peer
         && Follows(seen[senders[0] := Next(seen[senders[0]], events[0]).value], events[1..], senders[1..], attempts)
  }

  /** An attempt still in the distributor has no event in the queue. */
  lemma {:induction false} QueuedIsSilent(seen: seq<View>, events: seq<Event>, senders: seq<nat>,
                                          attempts: seq<Attempt>, i: nat)
    requires |seen| == |attempts| && |events| == |senders| && Follows(seen, events, senders, attempts)
    requires i < |seen| && ViewOf(attempts[i]) == ViewQueued
    ensures seen[i] == ViewQueued && i !in senders
    decreases |events|
  {
    if events != [] {
      QueuedIsSilent(seen[senders[0] := Next(seen[senders[0]], events[0]).value], events[1..], senders[1..], attempts,
                     i);
      assert senders == [senders[0]] + senders[1..];
    }
  }

  /** Launching an attempt. */
  lemma {:induction false} FollowsLaunch(seen: seq<View>, events: seq<Event>, senders: seq<nat>, attempts: seq<Attempt>)
    requires |seen| == |attempts| && |events| == |senders| && Follows(seen, events, senders, attempts)
    ensures Follows(seen + [ViewQueued], events, senders, attempts + [Attempt(Queued, None)])
    decreases |events|
  {
    if events != [] {
      var seen' := seen[senders[0] := Next(seen[senders[0]], events[0]).value];
      FollowsLaunch(seen', events[1..], senders[1..], attempts);
      assert seen' + [ViewQueued] == (seen + [ViewQueued])[senders[0] := seen'[senders[0]]];
    }
  }

  /** An attempt moves on without telling the loop; its peer may change while the loop
      sees it as queued. */
  lemma {:induction false} FollowsQuiet(seen: seq<View>, events: seq<Event>, senders: seq<nat>,
                                        attempts: seq<Attempt>, i: nat, a: Attempt)
    requires |seen| == |attempts| && |events| == |senders| && Follows(seen, events, senders, attempts)
    requires i < |seen| && ViewOf(a) == ViewOf(attempts[i])
    requires a.peer == attempts[i].peer || ViewOf(a) == ViewQueued
    ensures Follows(seen, events, senders, attempts[i := a])
    decreases |events|
  {
    if ViewOf(a) == ViewQueued {
      QueuedIsSilent(seen, events, senders, attempts, i);
    }
    if events != [] {
      FollowsQuiet(seen[senders[0] := Next(seen[senders[0]], events[0]).value], events[1..], senders[1..], attempts,
                   i, a);
    }
  }

  /** An attempt sends its next event. */
  lemma {:induction false} FollowsEvent(seen: seq<View>, events: seq<Event>, senders: seq<nat>,
                                        attempts: seq<Attempt>, i: nat, a: Attempt, e: Event)
    requires |seen| == |attempts| && |events| == |senders| && Follows(seen, events, senders, attempts)
    requires i < |seen| && a.peer == attempts[i].peer == e.peer && Next(ViewOf(attempts[i]), e) == Some(ViewOf(a))
    requires Asking(ViewOf(a)) ==>
      forall j :: 0 <= j < |attempts| && j != i && Asking(ViewOf(attempts[j])) ==> attempts[j].peer != a.peer
    ensures Follows(seen, events + [e], senders + [i], attempts[i := a])
    decreases |events|
  {
    if events == [] {
      var seen' := seen[i := ViewOf(a)];
      assert Follows(seen', [], [], attempts[i := a]);
      assert (events + [e])[1..] == [] && (senders + [i])[1..] == [];
    } else {
      FollowsEvent(seen[senders[0] := Next(seen[senders[0]], events[0]).value], events[1..], senders[1..], attempts,
                   i, a, e);
      assert (events + [e])[1..] == events[1..] + [e] && (senders + [i])[1..] == senders[1..] + [i];
    }
  }

  /** Once the loop has seen the last event of every attempt, nothing is queued and every
      attempt is past its last event. */
  lemma AllSeen(seen: seq<View>, events: seq<Event>, senders: seq<nat>, attempts: seq<Attempt>)
    requires |seen| == |attempts| && |events| == |senders| && Follows(seen, events, senders, attempts)
    requires forall i :: 0 <= i < |seen| ==> seen[i] == ViewDone
    ensures events == [] && forall i :: 0 <= i < |attempts| ==> attempts[i].pc.Leaving? || attempts[i].pc.Gone?
  {
    forall i | 0 <= i < |attempts| && events == [] ensures attempts[i].pc.Leaving? || attempts[i].pc.Gone? {
      assert seen[i] == ViewOf(attempts[i]);
    }
  }

  ghost function CountSoft(seen: seq<View>): nat {
    if seen == [] then 0 else CountSoft(seen[..|seen| - 1]) + if seen[|seen| - 1] == ViewSoft then 1 else 0
  }

  lemma {:induction false} CountSoftUpdate(seen: seq<View>, i: nat, v: View)
    requires i < |seen|
    ensures CountSoft(seen[i := v]) == CountSoft(seen) - (if seen[i] == ViewSoft then 1 else 0) +
      if v == ViewSoft then 1 else 0
    decreases |seen|
  {
    var n := |seen| - 1;
    if i < n {
      CountSoftUpdate(seen[..n], i, v);
      assert seen[i := v][..n] == seen[..n][i := v];
    } else {
      assert seen[i := v][..n] == seen[..n];
    }
  }

  lemma {:induction false} CountSoftZero(seen: seq<View>)
    ensures CountSoft(seen) == 0 <==> forall i :: 0 <= i < |seen| ==> seen[i] != ViewSoft
    decreases |seen|
  {
    if seen != [] {
      var n := |seen| - 1;
      CountSoftZero(seen[..n]);
      assert forall i :: 0 <= i < n ==> seen[..n][i] == seen[i];
    }
  }

  ghost predicate Active(v: View) { v.ViewQueued? || v.ViewFresh? }

  /** The loop's three variables say what it has seen, and at most one attempt is queued
      or freshly sent. */
  ghost predicate Tallies(seen: seq<View>, attempts: seq<Attempt>, queued: bool, sentTo: Option<Peer>, soft: int)
    requires |seen| == |attempts|
  {
    && (forall i, j :: 0 <= i < j < |seen| ==> !(Active(seen[i]) && Active(seen[j])))
    && (queued <==> exists i :: 0 <= i < |seen| && seen[i] == ViewQueued)
    && (sentTo.Some? <==> exists i :: 0 <= i < |seen| && seen[i] == ViewFresh)
    && (forall i :: 0 <= i < |seen| && seen[i] == ViewFresh ==> attempts[i].peer == sentTo)
    && soft == CountSoft(seen)
  }

  /** The views after the loop has handled an event of attempt i. */
  ghost function Handled(seen: seq<View>, i: nat, e: Event): seq<View>
    requires i < |seen| && Next(seen[i], e).Some?
  {
    seen[i := Next(seen[i], e).value]
  }

  lemma FollowsNext(seen: seq<View>, events: seq<Event>, senders: seq<nat>, attempts: seq<Attempt>)
    requires |seen| == |attempts| && |events| == |senders| && Follows(seen, events, senders, attempts) && events != []
    ensures senders[0] < |seen| && Next(seen[senders[0]], events[0]).Some? && PeersDiffer(seen, attempts)
    ensures events[0].peer == attempts[senders[0]].peer && |Handled(seen, senders[0], events[0])| == |seen|
    ensures Follows(Handled(seen, senders[0], events[0]), events[1..], senders[1..], attempts)
  {
  }

  /** Handling an event keeps the tallies: this is the arithmetic of `update`. */
  lemma TalliesUpdate(seen: seq<View>, attempts: seq<Attempt>, queued: bool, sentTo: Option<Peer>, soft: int, i: nat,
                      e: Event)
    requires |seen| == |attempts| && Tallies(seen, attempts, queued, sentTo, soft) && PeersDiffer(seen, attempts)
    requires i < |seen| && Next(seen[i], e).Some? && e.peer == attempts[i].peer
    ensures e.kind.Sent? ==> Tallies(Handled(seen, i, e), attempts, false, e.peer, soft)
    ensures e.kind.SoftTimeout? ==> Tallies(Handled(seen, i, e), attempts, queued, None, soft + 1) && !queued
    ensures e.kind.HardTimeout? ==> Tallies(Handled(seen, i, e), attempts, queued, sentTo, soft - 1)
    ensures !queued && sentTo.None? ==> !e.kind.Sent? && !e.kind.SoftTimeout? && e.peer.Some?
    ensures e.kind.DeliveredValid? || e.kind.DeliveredInvalid? ==>
      if e.peer == sentTo then Tallies(Handled(seen, i, e), attempts, queued, None, soft)
      else Tallies(Handled(seen, i, e), attempts, queued, sentTo, soft - 1)
  {
    hide CountSoft, ViewOf;
    var seen' := Handled(seen, i, e);
    CountSoftUpdate(seen, i, seen'[i]);
    assert forall j :: 0 <= j < |seen| && j != i ==> seen'[j] == seen[j];
    SoleActive(seen, seen', i);
  }

  /** When only view i changes and was the active one, no other is active. */
  lemma SoleActive(seen: seq<View>, seen': seq<View>, i: nat)
    requires |seen| == |seen'| && i < |seen|
    requires forall j, k :: 0 <= j < k < |seen| ==> !(Active(seen[j]) && Active(seen[k]))
    requires forall j :: 0 <= j < |seen| && j != i ==> seen'[j] == seen[j]
    ensures Active(seen[i]) ==> forall j :: 0 <= j < |seen| && j != i ==> !Active(seen[j]) && !Active(seen'[j])
  {
  }

  lemma TalliesLaunch(seen: seq<View>, attempts: seq<Attempt>, soft: int)
    requires |seen| == |attempts| && Tallies(seen, attempts, false, None, soft)
    ensures Tallies(seen + [ViewQueued], attempts + [Attempt(Queued, None)], true, None, soft)
  {
    var seen' := seen + [ViewQueued];
    assert seen'[..|seen|] == seen && seen'[|seen|] == ViewQueued;
  }

  /** The loop waits exactly as long as it has not seen the last event of every attempt. */
  lemma WaitingMeans(seen: seq<View>, attempts: seq<Attempt>, queued: bool, sentTo: Option<Peer>, soft: int)
    requires |seen| == |attempts| && Tallies(seen, attempts, queued, sentTo, soft)
    ensures soft >= 0
    ensures queued || sentTo.Some? || soft > 0 <==> exists i :: 0 <= i < |seen| && seen[i] != ViewDone
  {
    CountSoftZero(seen);
  }

  /** An attempt that is queued or freshly sent is so in the loop's view too. */
  lemma {:induction false} ActiveIsSeen(seen: seq<View>, events: seq<Event>, senders: seq<nat>,
                                        attempts: seq<Attempt>, i: nat)
    requires |seen| == |attempts| && |events| == |senders| && Follows(seen, events, senders, attempts)
    requires i < |seen| && Active(ViewOf(attempts[i]))
    ensures Active(seen[i])
    decreases |events|
  {
    if events != [] {
      ActiveIsSeen(Handled(seen, senders[0], events[0]), events[1..], senders[1..], attempts, i);
    }
  }

  ghost predicate Holds(a: Attempt) { a.pc.Assigned? || a.pc.Fresh? || a.pc.Soft? || a.pc.Leaving? }

  /** Every attempt under way has its own peer in the table. */
  ghost predicate Placed(attempts: seq<Attempt>, sentTo: map<Peer, Entry>) {
    && (forall i :: 0 <= i < |attempts| && Holds(attempts[i]) ==>
       attempts[i].peer.Some? && attempts[i].peer.value in sentTo)
    && (forall i, j :: 0 <= i < j < |attempts| && Holds(attempts[i]) && Holds(attempts[j]) ==>
       attempts[i].peer != attempts[j].peer)
    && (forall i :: 0 <= i < |attempts| && attempts[i].pc.Queued? ==> attempts[i].peer.None?)
  }

  ghost predicate HeldBy(attempts: seq<Attempt>, i: nat, p: Peer) {
    i < |attempts| && Holds(attempts[i]) && attempts[i].peer == Some(p)
  }

  /** The table of peers has exactly the peers of the attempts under way, one each. */
  ghost predicate Held(attempts: seq<Attempt>, sentTo: map<Peer, Entry>) {
    && Placed(attempts, sentTo)
    && (forall p :: p in sentTo ==> exists i :: HeldBy(attempts, i, p))
  }

  /** Whoever held a peer before a change of attempt i still holds it. */
  lemma HoldersStay(attempts: seq<Attempt>, attempts': seq<Attempt>, sentTo: map<Peer, Entry>, i: nat)
    requires |attempts| <= |attempts'| && forall j :: 0 <= j < |attempts| && j != i ==> attempts'[j] == attempts[j]
    requires i < |attempts| && Holds(attempts[i]) ==> attempts'[i].peer == attempts[i].peer && Holds(attempts'[i])
    requires forall p :: p in sentTo ==> exists j :: HeldBy(attempts, j, p)
    ensures forall p :: p in sentTo ==> exists j :: HeldBy(attempts', j, p)
  {
    forall p | p in sentTo ensures exists j :: HeldBy(attempts', j, p) {
      var j: nat :| HeldBy(attempts, j, p);
      assert HeldBy(attempts', j, p);
    }
  }

  lemma HeldAssign(attempts: seq<Attempt>, sentTo: map<Peer, Entry>, i: nat, p: Peer)
    requires Held(attempts, sentTo) && i < |attempts| && attempts[i].pc.Queued? && p !in sentTo
    ensures Held(attempts[i := Attempt(Assigned, Some(p))], sentTo[p := Entry(false, None)])
  {
    var attempts' := attempts[i := Attempt(Assigned, Some(p))];
    HoldersStay(attempts, attempts', sentTo, i);
    assert HeldBy(attempts', i, p);
  }

  lemma HeldMove(attempts: seq<Attempt>, sentTo: map<Peer, Entry>, i: nat, pc: Pc)
    requires Held(attempts, sentTo) && i < |attempts| && !pc.Queued?
    requires Holds(attempts[i]) <==> Holds(Attempt(pc, attempts[i].peer))
    ensures Held(attempts[i := Attempt(pc, attempts[i].peer)], sentTo)
  {
    HoldersStay(attempts, attempts[i := Attempt(pc, attempts[i].peer)], sentTo, i);
  }

  lemma HeldRelease(attempts: seq<Attempt>, sentTo: map<Peer, Entry>, i: nat)
    requires Held(attempts, sentTo) && i < |attempts| && attempts[i].pc.Leaving?
    ensures attempts[i].peer.Some? && Held(attempts[i := attempts[i].(pc := Gone)], sentTo - {attempts[i].peer.value})
  {
    var attempts', sentTo' := attempts[i := attempts[i].(pc := Gone)], sentTo - {attempts[i].peer.value};
    forall q | q in sentTo' ensures exists j :: HeldBy(attempts', j, q) {
      var j: nat :| HeldBy(attempts, j, q);
      assert HeldBy(attempts', j, q);
    }
  }

  lemma HeldLaunch(attempts: seq<Attempt>, sentTo: map<Peer, Entry>)
    requires Held(attempts, sentTo)
    ensures Held(attempts + [Attempt(Queued, None)], sentTo)
  {
    HoldersStay(attempts, attempts + [Attempt(Queued, None)], sentTo, |attempts|);
  }

  lemma HeldAnswer(attempts: seq<Attempt>, sentTo: map<Peer, Entry>, p: Peer, e: Entry)
    requires Held(attempts, sentTo) && p in sentTo
    ensures Held(attempts, sentTo[p := e])
  {
  }

  /** Only a reply found valid is ever reported as one. */
  ghost predicate Vouched(sentTo: map<Peer, Entry>, events: seq<Event>, vouched: set<Peer>) {
    && (forall p :: p in sentTo && sentTo[p].valid == Some(true) ==> p in vouched)
    && (forall e :: e in events && e.kind.DeliveredValid? ==> e.peer.Some? && e.peer.value in vouched)
  }

  lemma VouchedLess(sentTo: map<Peer, Entry>, events: seq<Event>, vouched: set<Peer>)
    requires events != [] && Vouched(sentTo, events, vouched)
    ensures Vouched(sentTo, events[1..], vouched)
  {
  }

  /** A request that is being retrieved, with its loop and its attempts. */
  class SentReq {
    var events: seq<Event>
    var attempts: seq<Attempt>
    var sentTo: map<Peer, Entry>
    var stopped: bool
    var err: Error
    var phase: Phase
    var lastReqQueued: bool
    var lastReqSentTo: Option<Peer>
    var reqSrtoCount: int
    // The attempt that sent each queued event, and what the loop has seen of each attempt.
    ghost var senders: seq<nat>
    ghost var seen: seq<View>
    // The peers asked whose reply was found valid.
    ghost var vouched: set<Peer>

    predicate Waiting()
      reads this
    {
      lastReqQueued || lastReqSentTo.Some? || reqSrtoCount > 0
    }

    ghost function View(): Snapshot
      reads this
    {
      Snapshot(events, attempts, sentTo, stopped, err, phase, lastReqQueued, lastReqSentTo, reqSrtoCount)
    }

    ghost predicate Tracked()
      reads this
    {
      && |seen| == |attempts| && |events| == |senders|
      && Follows(seen, events, senders, attempts)
      && Tallies(seen, attempts, lastReqQueued, lastReqSentTo, reqSrtoCount)
      && Held(attempts, sentTo)
    }

    ghost predicate Valid()
      reads this
    {
      && Tracked()
      && (phase.NoMorePeers? ==> !lastReqQueued && lastReqSentTo.None?)
      && (phase.Stopped? || phase.Finished? ==> stopped)
      && (phase.Finished? ==> !Waiting())
      && Vouched(sentTo, events, vouched)
    }

    /** Starts the loop with its first attempt. */
    constructor ()
      ensures Valid() && phase == Requesting && !stopped && attempts == [Attempt(Queued, None)] && events == []
        && sentTo == map[] && vouched == {}
    {
      events, attempts, sentTo := [], [Attempt(Queued, None)], map[];
      stopped, err, phase := false, NoError, Requesting;
      lastReqQueued, lastReqSentTo, reqSrtoCount := true, None, 0;
      senders, seen, vouched := [], [ViewQueued], {};
      new;
      assert CountSoft(seen) == 0 by { CountSoftZero(seen); }
    }

    /** What holds in every state of every interleaving. */
    lemma AlwaysHolds()
      requires Valid()
      ensures forall i, j :: 0 <= i < j < |attempts| ==> !(Active(ViewOf(attempts[i])) && Active(ViewOf(attempts[j])))
      ensures reqSrtoCount == CountSoft(seen) >= 0
      ensures Waiting() <==> exists i :: 0 <= i < |seen| && seen[i] != ViewDone
      ensures phase.Finished? ==> events == [] && forall i :: 0 <= i < |attempts| ==>
        attempts[i].pc.Leaving? || attempts[i].pc.Gone?
    {
      WaitingMeans(seen, attempts, lastReqQueued, lastReqSentTo, reqSrtoCount);
      forall i, j | 0 <= i < j < |attempts| ensures !(Active(ViewOf(attempts[i])) && Active(ViewOf(attempts[j]))) {
        if Active(ViewOf(attempts[i])) && Active(ViewOf(attempts[j])) {
          ActiveIsSeen(seen, events, senders, attempts, i);
          ActiveIsSeen(seen, events, senders, attempts, j);
        }
      }
      if phase.Finished? {
        AllSeen(seen, events, senders, attempts);
      }
    }

    // Steps of an attempt.

    /** The distributor hands a queued attempt to a peer that has none yet. */
    method Assign(i: nat, p: Peer)
      requires Valid() && i < |attempts| && attempts[i].pc.Queued? && p !in sentTo
      modifies this`attempts, this`sentTo
      ensures Valid() && attempts == old(attempts)[i := Attempt(Assigned, Some(p))]
      ensures sentTo == old(sentTo)[p := Entry(false, None)]
    {
      hide Follows, Tallies, Held;
      HeldAssign(attempts, sentTo, i, p);
      FollowsQuiet(seen, events, senders, attempts, i, Attempt(Assigned, Some(p)));
      QueuedIsSilent(seen, events, senders, attempts, i);
      TalliesPeer(i, Attempt(Assigned, Some(p)));
      sentTo := sentTo[p := Entry(false, None)];
      attempts := attempts[i := Attempt(Assigned, Some(p))];
    }

    lemma TalliesPeer(i: nat, a: Attempt)
      requires i < |seen| == |attempts| && (seen[i] == ViewFresh ==> a.peer == attempts[i].peer)
      requires Tallies(seen, attempts, lastReqQueued, lastReqSentTo, reqSrtoCount)
      ensures Tallies(seen, attempts[i := a], lastReqQueued, lastReqSentTo, reqSrtoCount)
    {
    }

    /** An attempt sends an event and moves on. */
    method Tell(i: nat, kind: Kind, pc: Pc)
      requires Valid() && i < |attempts|
      requires Next(ViewOf(attempts[i]), Event(kind, attempts[i].peer)) == Some(ViewOf(Attempt(pc, attempts[i].peer)))
      requires !pc.Queued? && (Holds(attempts[i]) <==> Holds(Attempt(pc, attempts[i].peer)))
      requires kind.DeliveredValid? ==> attempts[i].peer.Some? && attempts[i].peer.value in vouched
      modifies this`attempts, this`events, this`senders
      ensures Valid() && attempts == old(attempts)[i := Attempt(pc, old(attempts)[i].peer)]
      ensures events == old(events) + [Event(kind, old(attempts)[i].peer)]
    {
      hide Follows, Tallies, CountSoft;
      var a, e := Attempt(pc, attempts[i].peer), Event(kind, attempts[i].peer);
      HeldMove(attempts, sentTo, i, pc);
      FollowsEvent(seen, events, senders, attempts, i, a, e);
      TalliesPeer(i, a);
      attempts, events := attempts[i := a], events + [e];
      senders := senders + [i];
    }

    /** A queued attempt gets no peer: none is suitable, or it was cancelled after a stop. */
    method NoPeer(i: nat)
      requires Valid() && i < |attempts| && attempts[i].pc.Queued?
      modifies this`attempts, this`events, this`senders
      ensures Valid() && attempts == old(attempts)[i := Attempt(Gone, None)]
        && events == old(events) + [Event(Sent, None)]
    {
      Tell(i, Sent, Gone);
    }

    /** An attempt learns its peer, which the table is sure to have. */
    method Send(i: nat)
      requires Valid() && i < |attempts| && attempts[i].pc.Assigned?
      modifies this`attempts, this`events, this`senders
      ensures Valid() && attempts == old(attempts)[i := old(attempts)[i].(pc := Fresh)]
      ensures events == old(events) + [Event(Sent, attempts[i].peer)] && attempts[i].peer.Some?
        && attempts[i].peer.value in sentTo
    {
      Tell(i, Sent, Fresh);
    }

    method SoftTimeOut(i: nat)
      requires Valid() && i < |attempts| && attempts[i].pc.Fresh?
      modifies this`attempts, this`events, this`senders
      ensures Valid() && attempts == old(attempts)[i := old(attempts)[i].(pc := Soft)]
      ensures events == old(events) + [Event(SoftTimeout, old(attempts)[i].peer)]
    {
      Tell(i, SoftTimeout, Soft);
    }

    method HardTimeOut(i: nat)
      requires Valid() && i < |attempts| && attempts[i].pc.Soft?
      modifies this`attempts, this`events, this`senders
      ensures Valid() && attempts == old(attempts)[i := old(attempts)[i].(pc := Leaving)]
      ensures events == old(events) + [Event(HardTimeout, old(attempts)[i].peer)]
    {
      Tell(i, HardTimeout, Leaving);
    }

    /** An attempt takes the verdict on its peer's reply. */
    method Receive(i: nat)
      requires Valid() && i < |attempts| && (attempts[i].pc.Fresh? || attempts[i].pc.Soft?)
      requires attempts[i].peer.Some? && attempts[i].peer.value in sentTo && sentTo[attempts[i].peer.value].valid.Some?
      modifies this`attempts, this`events, this`senders
      ensures Valid() && attempts == old(attempts)[i := old(attempts)[i].(pc := Leaving)]
      ensures events == old(events) +
        [Event(if sentTo[old(attempts)[i].peer.value].valid.value then DeliveredValid
          else DeliveredInvalid, old(attempts)[i].peer)]
    {
      if sentTo[attempts[i].peer.value].valid.value {
        Tell(i, DeliveredValid, Leaving);
      } else {
        Tell(i, DeliveredInvalid, Leaving);
      }
    }

    /** An attempt removes its entry from the table and ends. */
    method Leave(i: nat)
      requires Valid() && i < |attempts| && attempts[i].pc.Leaving?
      modifies this`attempts, this`sentTo
      ensures Valid() && attempts == old(attempts)[i := old(attempts)[i].(pc := Gone)]
      ensures old(attempts)[i].peer.Some? && sentTo == old(sentTo) - {old(attempts)[i].peer.value}
    {
      hide Follows, Tallies, Held;
      HeldRelease(attempts, sentTo, i);
      FollowsQuiet(seen, events, senders, attempts, i, attempts[i].(pc := Gone));
      TalliesPeer(i, attempts[i].(pc := Gone));
      sentTo := sentTo - {attempts[i].peer.value};
      attempts := attempts[i := attempts[i].(pc := Gone)];
    }

    // Steps of the loop.

    /** Starts an attempt when none is queued or freshly sent. */
    method Launch()
      requires Tracked() && !lastReqQueued && lastReqSentTo.None?
      modifies this`attempts, this`seen, this`lastReqQueued
      ensures Tracked() && lastReqQueued && attempts == old(attempts) + [Attempt(Queued, None)]
    {
      hide Follows, Tallies, Held;
      FollowsLaunch(seen, events, senders, attempts);
      TalliesLaunch(seen, attempts, reqSrtoCount);
      HeldLaunch(attempts, sentTo);
      attempts := attempts + [Attempt(Queued, None)];
      seen := seen + [ViewQueued];
      lastReqQueued := true;
    }

    /** Takes an event from the queue and updates the flags and the counter. */
    method Update() returns (ev: Event)
      requires Tracked() && events != []
      modifies this`events, this`senders, this`seen, this`lastReqQueued, this`lastReqSentTo, this`reqSrtoCount
      ensures Tracked() && ev == old(events)[0] && View() == Counted(old(View()))
      ensures ev.kind.Sent? ==> lastReqSentTo == ev.peer && !lastReqQueued
      ensures ev.kind.SoftTimeout? ==> lastReqSentTo.None? && !lastReqQueued
      ensures !old(lastReqQueued) && old(lastReqSentTo).None? ==>
        !lastReqQueued && lastReqSentTo.None? && !ev.kind.Sent? && !ev.kind.SoftTimeout?
      ensures !ev.kind.Sent? ==> lastReqQueued == old(lastReqQueued)
      ensures ev.kind.Sent? ==> reqSrtoCount == old(reqSrtoCount)
      ensures ev.kind.SoftTimeout? ==> reqSrtoCount == old(reqSrtoCount) + 1
      ensures ev.kind.HardTimeout? ==> lastReqSentTo == old(lastReqSentTo) && reqSrtoCount == old(reqSrtoCount) - 1
      ensures ev.kind.DeliveredValid? || ev.kind.DeliveredInvalid? ==>
        if ev.peer == old(lastReqSentTo) then lastReqSentTo.None? && reqSrtoCount == old(reqSrtoCount)
        else lastReqSentTo == old(lastReqSentTo) && reqSrtoCount == old(reqSrtoCount) - 1
    {
      hide Follows, Tallies, Held, CountSoft, Next, Handled;
      ev := events[0];
      ghost var i := senders[0];
      FollowsNext(seen, events, senders, attempts);
      TalliesUpdate(seen, attempts, lastReqQueued, lastReqSentTo, reqSrtoCount, i, ev);
      events := events[1..];
      seen, senders := Handled(seen, i, ev), senders[1..];
      Tally(ev);
    }

    method Tally(ev: Event)
      modifies this`lastReqQueued, this`lastReqSentTo, this`reqSrtoCount
      ensures ev.kind.Sent? ==>
        !lastReqQueued && lastReqSentTo == ev.peer && reqSrtoCount == old(reqSrtoCount)
      ensures !ev.kind.Sent? ==> lastReqQueued == old(lastReqQueued)
      ensures ev.kind.SoftTimeout? ==> lastReqSentTo == None && reqSrtoCount == old(reqSrtoCount) + 1
      ensures ev.kind.HardTimeout? ==> lastReqSentTo == old(lastReqSentTo) && reqSrtoCount == old(reqSrtoCount) - 1
      ensures ev.kind.DeliveredValid? || ev.kind.DeliveredInvalid? ==>
        if ev.peer == old(lastReqSentTo) then lastReqSentTo == None && reqSrtoCount == old(reqSrtoCount)
        else lastReqSentTo == old(lastReqSentTo) && reqSrtoCount == old(reqSrtoCount) - 1
    {
      match ev.kind
      case Sent =>
        lastReqQueued, lastReqSentTo := false, ev.peer;
      case SoftTimeout =>
        lastReqSentTo := None;
        reqSrtoCount := reqSrtoCount + 1;
      case HardTimeout =>
        reqSrtoCount := reqSrtoCount - 1;
      case _ =>
        if ev.peer == lastReqSentTo {
          lastReqSentTo := None;
        } else {
          reqSrtoCount := reqSrtoCount - 1;
        }
    }

    /** The loop handles an event according to its phase. */
    method HandleEvent() returns (ev: Event)
      requires Valid() && events != [] && !phase.Finished?
      modifies this
      ensures Valid() && ev == old(events)[0] && events == old(events)[1..] && sentTo == old(sentTo)
      ensures vouched == old(vouched)
      ensures old(phase).Stopped? ==> phase.Stopped?
      ensures !old(phase).Stopped? && ev.kind.DeliveredValid? ==> phase.Stopped? && stopped
      ensures old(phase).NoMorePeers? && !ev.kind.DeliveredValid? ==> phase.NoMorePeers?
      ensures old(phase).Requesting? && ev == Event(Sent, None) ==> phase == if Waiting() then NoMorePeers else Finished
      ensures old(phase).Requesting? && ev.kind.Sent? && ev.peer.Some? ==> phase.Requesting?
      ensures old(phase).Requesting? && (ev.kind.DeliveredInvalid? || ev.kind.HardTimeout?) ==> phase.Requesting?
      ensures old(phase).Requesting? && ev.kind.SoftTimeout? ==>
        phase.Requesting? && lastReqQueued && attempts == old(attempts) + [Attempt(Queued, None)]
      ensures !(old(phase).Requesting? && ev.kind.SoftTimeout?) ==> attempts == old(attempts)
      ensures View() == Taken(old(View()))
      // a stall begins exactly with the last outstanding event being an invalid reply or a hard timeout
      ensures old(phase).Requesting? && !old(stopped) ==>
        (Stalled() <==>
          && (ev.kind.DeliveredInvalid? || ev.kind.HardTimeout?) && !old(lastReqQueued)
          && if ev.kind.DeliveredInvalid? && ev.peer == old(lastReqSentTo) then old(reqSrtoCount) <= 0
             else old(lastReqSentTo).None? && old(reqSrtoCount) <= 1)
      ensures !(old(phase).Requesting? && !old(stopped)) ==> !Stalled()
      // the outcome: a valid reply means success, and running out of peers failure; the first outcome stays
      ensures old(stopped) ==> stopped && err == old(err)
      ensures !old(stopped) && ev.kind.DeliveredValid? ==> stopped && err == NoError
      ensures !old(stopped) && ev == Event(Sent, None) ==>
        (stopped <==> !Waiting()) && err == if stopped then NoPeers else old(err)
      ensures !ev.kind.DeliveredValid? && ev != Event(Sent, None) ==> stopped == old(stopped) && err == old(err)
    {
      hide Follows, Tallies, Held, Vouched, SentReq.Tracked;
      VouchedLess(sentTo, events, vouched);
      ev := Update();
      React(ev);
    }

    /** What the loop does about an event it has counted. */
    method React(ev: Event)
      requires Tracked() && Vouched(sentTo, events, vouched) && !phase.Finished? && (phase.Stopped? ==> stopped)
      requires phase.NoMorePeers? || ev.kind.SoftTimeout? ==> !lastReqQueued && lastReqSentTo.None?
      requires ev.kind.Sent? ==> !lastReqQueued && lastReqSentTo == ev.peer
      modifies this
      ensures Valid() && vouched == old(vouched) && View() == Reacted(old(View()), ev)
    {
      hide Follows, Tallies, Held, Vouched;
      if phase.Requesting? {
        match ev.kind
        case Sent =>
          if ev.peer.None? {
            if Waiting() {
              phase := NoMorePeers;
            } else {
              Halt(NoPeers);
              phase := Finished;
            }
          }
        case SoftTimeout =>
          Launch();
        case DeliveredValid =>
          Halt(NoError);
          phase := Stopped;
        case _ =>
      } else if phase.NoMorePeers? && ev.kind.DeliveredValid? {
        Halt(NoError);
        phase := Stopped;
      }
    }

    /** The loop notices the stop. */
    method SeeStop()
      requires Valid() && stopped && (phase.Requesting? || phase.NoMorePeers?)
      modifies this`phase
      ensures Valid() && phase == Stopped
    {
      hide Follows, Tallies, Held;
      phase := Stopped;
    }

    /** After a while without suitable peers the loop tries again. */
    method Retry()
      requires Valid() && phase.NoMorePeers?
      modifies this
      ensures Valid() && phase == Requesting && attempts == old(attempts) + [Attempt(Queued, None)]
        && events == old(events) && lastReqQueued && lastReqSentTo.None? && reqSrtoCount == old(reqSrtoCount)
      ensures stopped == old(stopped) && err == old(err) && sentTo == old(sentTo) && vouched == old(vouched)
    {
      hide Follows, Tallies, Held, Vouched;
      Launch();
      phase := Requesting;
    }

    /** A stopped loop ends once it waits for nothing. */
    method Exit()
      requires Valid() && phase.Stopped? && !Waiting()
      modifies this`phase
      ensures Valid() && phase == Finished
    {
      hide Follows, Tallies, Held;
      phase := Finished;
    }

    // Steps from outside.

    /** A reply comes in; each peer asked may answer once. */
    method Deliver(p: Peer, valid: bool) returns (accepted: bool)
      requires Valid()
      modifies this`sentTo, this`vouched
      ensures Valid() && (accepted <==> p in old(sentTo) && !old(sentTo)[p].delivered && valid)
      ensures vouched == if accepted then old(vouched) + {p} else old(vouched)
      ensures sentTo ==
        if p in old(sentTo) && !old(sentTo)[p].delivered then old(sentTo)[p := Entry(true, Some(valid))]
        else old(sentTo)
    {
      hide Follows, Tallies, Held;
      if p !in sentTo || sentTo[p].delivered {
        return false;
      }
      HeldAnswer(attempts, sentTo, p, Entry(true, Some(valid)));
      sentTo := sentTo[p := Entry(true, Some(valid))];
      vouched := if valid then vouched + {p} else vouched;
      accepted := valid;
    }

    /** Stops the retrieval; the first reason stays. */
    method Halt(reason: Error)
      modifies this`stopped, this`err
      ensures stopped && err == if old(stopped) then old(err) else reason
    {
      if !stopped {
        stopped, err := true, reason;
      }
    }

    // Runs.

    /** No event is queued or will be, yet the loop goes on until somebody stops it. */
    ghost predicate Stalled()
      reads this
    {
      phase.Requesting? && !stopped && !Waiting()
    }

    /** As long as the loop waits, an event is queued or some attempt will send one. */
    lemma WaitsForSomething()
      requires Valid()
      ensures Waiting() <==> events != [] || exists i :: 0 <= i < |attempts| && ViewOf(attempts[i]) != ViewDone
    {
      WaitingMeans(seen, attempts, lastReqQueued, lastReqSentTo, reqSrtoCount);
      if Waiting() {
        if events == [] {
          var i :| 0 <= i < |seen| && seen[i] != ViewDone;
          assert seen[i] == ViewOf(attempts[i]);
        }
      } else {
        AllSeen(seen, events, senders, attempts);
      }
    }

    /** One step, and the event it makes the loop take. */
    method TakeStep(s: Step) returns (ghost taken: Option<Event>)
      requires Valid()
      modifies this
      ensures Valid()
      ensures Stepped(old(View()), s, View())
      ensures old(Stalled()) && !s.StopStep? ==> Stalled()
      ensures old(phase).Finished? ==> phase.Finished?
      ensures taken == if s.EventStep? && old(events) != [] && !old(phase).Finished? then Some(old(events)[0]) else None
      ensures IsValidReply(taken) ==> taken.value.peer.value in old(vouched)
      ensures forall p :: p in vouched ==> p in old(vouched) || s == DeliverStep(p, true)
      ensures old(stopped) ==> stopped && err == old(err)
      ensures !old(stopped) && s.StopStep? ==> stopped && err == s.reason
      ensures !old(stopped) && IsValidReply(taken) ==> stopped && err == NoError
      ensures !old(stopped) && !s.StopStep? && !IsValidReply(taken) && stopped ==>
        taken == Some(Event(Sent, None)) && !Waiting() && err == NoPeers
      ensures taken == Some(Event(Sent, None)) && !Waiting() ==> stopped
    {
      hide Follows, Tallies, Held, Next, ViewOf;
      taken := None;
      WaitsForSomething();
      match s
      case AttemptStep(i, move, p) => Attempting(i, move, p);
      case EventStep =>
        if events != [] && !phase.Finished? {
          var ev := HandleEvent();
          taken := Some(ev);
        }
      case LoopStep(retry) => Looping(retry);
      case DeliverStep(p, valid) =>
        var _ := Deliver(p, valid);
      case StopStep(reason) => Halt(reason);
    }

    method Looping(retry: bool)
      requires Valid()
      modifies this
      ensures Valid() && vouched == old(vouched) && View() == Looped(old(View()), retry)
      ensures old(Stalled()) ==> Stalled()
    {
      hide Follows, Tallies, Held, Vouched;
      if phase.NoMorePeers? && retry {
        Retry();
      } else if stopped && (phase.Requesting? || phase.NoMorePeers?) {
        SeeStop();
      } else if phase.Stopped? && !Waiting() {
        Exit();
      }
    }

    method Attempting(i: nat, move: Move, p: Peer)
      requires Valid()
      modifies this`attempts, this`sentTo, this`events, this`senders
      ensures Valid() && View() == Moved(old(View()), i, move, p)
    {
      hide Follows, Tallies, Held, Next, ViewOf;
      if i < |attempts| {
        match move
        case ToPeer => if attempts[i].pc.Queued? && p !in sentTo { Assign(i, p); }
        case ToNobody => if attempts[i].pc.Queued? { NoPeer(i); }
        case Sending => if attempts[i].pc.Assigned? { Send(i); }
        case TimeOut =>
          if attempts[i].pc.Fresh? { SoftTimeOut(i); }
          else if attempts[i].pc.Soft? { HardTimeOut(i); }
        case Reply =>
          if (attempts[i].pc.Fresh? || attempts[i].pc.Soft?) && attempts[i].peer.Some?
            && attempts[i].peer.value in sentTo
             && sentTo[attempts[i].peer.value].valid.Some? {
            Receive(i);
          }
        case End => if attempts[i].pc.Leaving? { Leave(i); }
      }
    }

    /** Any interleaving of steps, with the events taken and the step that stopped the retrieval. The
        retrieval succeeds exactly if what stopped it was a valid reply, or a stop that says so; and
        for every valid reply it takes, some peer's reply was delivered before and found valid. */
    method Run(steps: seq<Step>)
      returns (ghost taken: seq<Option<Event>>, ghost first: nat, ghost trace: seq<Snapshot>)
      requires Valid()
      modifies this
      ensures Valid()
      ensures old(Stalled()) && (forall s :: s in steps ==> !s.StopStep?) ==> Stalled()
      ensures |trace| == |steps| + 1 && trace[0] == old(View()) && trace[|steps|] == View()
        && forall k :: 0 <= k < |steps| ==> Stepped(trace[k], steps[k], trace[k + 1])
      ensures |taken| == |steps| && first <= |steps|
      ensures old(stopped) ==> stopped && err == old(err)
      ensures !old(stopped) ==> (stopped <==> first < |steps|)
      ensures !old(stopped) ==> forall k :: 0 <= k < first ==> !steps[k].StopStep? && !IsValidReply(taken[k])
      ensures !old(stopped) && stopped ==> err == Outcome(steps[first], taken[first])
      ensures !old(stopped) && stopped ==>
        (err == NoError <==> IsValidReply(taken[first]) || steps[first] == StopStep(NoError))
      ensures forall k :: 0 <= k < |steps| && IsValidReply(taken[k]) ==>
        steps[k].EventStep? && (taken[k].value.peer.value in old(vouched) ||
          exists j :: 0 <= j < k && steps[j] == DeliverStep(taken[k].value.peer.value, true))
    {
      hide SentReq.Valid, SentReq.Waiting, Stepped;
      taken, first, trace := [], if stopped then 0 else |steps|, [View()];
      for k := 0 to |steps|
        invariant Valid()
        invariant old(Stalled()) && (forall s :: s in steps ==> !s.StopStep?) ==> Stalled()
        invariant |trace| == k + 1 && trace[0] == old(View()) && trace[k] == View()
        invariant forall i :: 0 <= i < k ==> Stepped(trace[i], steps[i], trace[i + 1])
        invariant |taken| == k && (if stopped then first <= k else first == |steps|)
        invariant old(stopped) ==> stopped && err == old(err)
        invariant !old(stopped) && stopped ==> first < k && err == Outcome(steps[first], taken[first])
        invariant !old(stopped) && stopped ==>
          (err == NoError <==> IsValidReply(taken[first]) || steps[first] == StopStep(NoError))
        invariant !old(stopped) ==>
          forall i :: 0 <= i < k && i < first ==> !steps[i].StopStep? && !IsValidReply(taken[i])
        invariant forall p :: p in vouched ==>
          p in old(vouched) || exists j :: 0 <= j < k && steps[j] == DeliverStep(p, true)
        invariant forall i :: 0 <= i < k && IsValidReply(taken[i]) ==>
          steps[i].EventStep? && (taken[i].value.peer.value in old(vouched) ||
            exists j :: 0 <= j < i && steps[j] == DeliverStep(taken[i].value.peer.value, true))
      {
        ghost var was := stopped;
        ghost var ev := TakeStep(steps[k]);
        taken, trace := taken + [ev], trace + [View()];
        first := if !was && stopped then k else first;
      }
    }
  }

  /** The state of a retrieval. */
  datatype Snapshot = Snapshot(
    events: seq<Event>, attempts: seq<Attempt>, sentTo: map<Peer, Entry>, stopped: bool, err: Error, phase: Phase,
    queued: bool, last: Option<Peer>, soft: int)
  {
    ghost predicate Waiting() { queued || last.Some? || soft > 0 }

    ghost function Halted(reason: Error): Snapshot { if stopped then this else this.(stopped := true, err := reason) }

    ghost function Launched(): Snapshot { this.(attempts := attempts + [Attempt(Queued, None)], queued := true) }

    ghost function With(i: nat, pc: Pc, kind: Kind): Snapshot
      requires i < |attempts|
    {
      this.(attempts := attempts[i := attempts[i].(pc := pc)], events := events + [Event(kind, attempts[i].peer)])
    }
  }

  /** The loop counts an event. */
  ghost function Counted(s: Snapshot): Snapshot
    requires s.events != []
  {
    var e, t := s.events[0], s.(events := s.events[1..]);
    match e.kind
    case Sent => t.(queued := false, last := e.peer)
    case SoftTimeout => t.(last := None, soft := s.soft + 1)
    case HardTimeout => t.(soft := s.soft - 1)
    case _ => if e.peer == s.last then t.(last := None) else t.(soft := s.soft - 1)
  }

  /** The loop acts on an event it has counted. */
  ghost function Reacted(s: Snapshot, e: Event): Snapshot {
    if s.phase.Requesting? && e == Event(Sent, None) then
      if s.Waiting() then s.(phase := NoMorePeers) else s.Halted(NoPeers).(phase := Finished)
    else if s.phase.Requesting? && e.kind.SoftTimeout? then s.Launched()
    else if (s.phase.Requesting? || s.phase.NoMorePeers?) && e.kind.DeliveredValid? then
      s.Halted(NoError).(phase := Stopped)
    else s
  }

  /** The loop takes an event. */
  ghost function Taken(s: Snapshot): Snapshot
    requires s.events != []
  {
    Reacted(Counted(s), s.events[0])
  }

  /** The loop goes on by itself: it tries again after a pause, sees a stop, or ends. */
  ghost function Looped(s: Snapshot, retry: bool): Snapshot {
    if s.phase.NoMorePeers? && retry then s.Launched().(phase := Requesting)
    else if s.stopped && (s.phase.Requesting? || s.phase.NoMorePeers?) then s.(phase := Stopped)
    else if s.phase.Stopped? && !s.Waiting() then s.(phase := Finished)
    else s
  }

  /** An attempt goes on, if it can. */
  ghost function Moved(s: Snapshot, i: nat, move: Move, p: Peer): Snapshot {
    if i >= |s.attempts| then s else
      var a := s.attempts[i];
      match (move, a.pc)
      case (ToPeer, Queued) =>
        if p in s.sentTo then s
        else s.(attempts := s.attempts[i := Attempt(Assigned, Some(p))], sentTo := s.sentTo[p := Entry(false, None)])
      case (ToNobody, Queued) =>
        s.(attempts := s.attempts[i := Attempt(Gone, None)], events := s.events + [Event(Sent, None)])
      case (Sending, Assigned) => s.With(i, Fresh, Sent)
      case (TimeOut, Fresh) => s.With(i, Soft, SoftTimeout)
      case (TimeOut, Soft) => s.With(i, Leaving, HardTimeout)
      case (Reply, pc) =>
        if (pc.Fresh? || pc.Soft?) && a.peer.Some? && a.peer.value in s.sentTo
          && s.sentTo[a.peer.value].valid.Some? then
          s.With(i, Leaving, if s.sentTo[a.peer.value].valid.value then DeliveredValid else DeliveredInvalid)
        else s
      case (End, Leaving) =>
        if a.peer.None? then s
        else s.(attempts := s.attempts[i := a.(pc := Gone)], sentTo := s.sentTo - {a.peer.value})
      case _ => s
  }

  /** What one step does. */
  ghost predicate Stepped(s: Snapshot, step: Step, t: Snapshot) {
    match step
    case AttemptStep(i, move, p) => t == Moved(s, i, move, p)
    case EventStep => t == if s.events != [] && !s.phase.Finished? then Taken(s) else s
    case LoopStep(retry) => t == Looped(s, retry)
    case DeliverStep(p, valid) =>
      t == if p in s.sentTo && !s.sentTo[p].delivered then s.(sentTo := s.sentTo[p := Entry(true, Some(valid))]) else s
    case StopStep(reason) => t == s.Halted(reason)
  }

  ghost predicate IsValidReply(taken: Option<Event>) {
    taken.Some? && taken.value.kind.DeliveredValid? && taken.value.peer.Some?
  }

  /** The error that a stop by this step stands for. */
  ghost function Outcome(s: Step, taken: Option<Event>): Error {
    if s.StopStep? then s.reason else if IsValidReply(taken) then NoError else NoPeers
  }

  datatype Move = ToPeer | ToNobody | Sending | TimeOut | Reply | End

  datatype Step =
    | AttemptStep(attempt: nat, move: Move, peer: Peer)
    | EventStep
    | LoopStep(retry: bool)
    | DeliverStep(from: Peer, valid: bool)
    | StopStep(reason: Error)

  /** One invalid reply is enough to stall a retrieval: no further peer is asked. */
  method InvalidReplyStalls(p: Peer) returns (r: SentReq)
    ensures r.Valid() && r.Stalled() && r.events == []
  {
    hide SentReq.Valid, SentReq.Waiting;
    r := new SentReq();
    r.Assign(0, p);
    r.Send(0);
    var sent := r.HandleEvent();
    assert r.attempts == [Attempt(Fresh, Some(p))] && r.sentTo == map[p := Entry(false, None)];
    var _ := r.Deliver(p, false);
    r.Receive(0);
    var invalid := r.HandleEvent();
    assert r.attempts == [Attempt(Leaving, Some(p))];
    r.WaitsForSomething();
  }
}
