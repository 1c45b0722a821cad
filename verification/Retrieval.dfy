/**
 The retrieval state machine of a light client. One loop follows any number of attempts to get an answer, each run
 by its own goroutine that reports to the loop through a channel. The loop knows the attempts only through a flag,
 one peer and a counter; the invariant says that these describe the attempts exactly, as far as their events have
 been received.
 */
module Retrieval {
  import opened Options

  type Peer = nat

  // ----- events and phases -----

  datatype Kind = RpSent | RpSoftTimeout | RpHardTimeout | RpDeliveredValid | RpDeliveredInvalid

  /** An event as sent on the channel. The loop looks at the kind and the peer only. */
  datatype Event = Event(attempt: nat, kind: Kind, peer: Option<Peer>)

  /** How far an attempt has come according to its events; `Wrong` if it cannot have sent such events. */
  datatype Phase = Queued | Sent(peer: Peer) | Soft(peer: Peer) | Done | Wrong

  function Advance(phase: Phase, kind: Kind, peer: Option<Peer>): Phase {
    match phase
    case Queued =>
      if kind != RpSent then Wrong else if peer == None then Done else Sent(peer.value)
    case Sent(p) =>
      if peer != Some(p) || kind == RpSent || kind == RpHardTimeout then Wrong
      else if kind == RpSoftTimeout then Soft(p) else Done
    case Soft(p) =>
      if peer != Some(p) || kind == RpSent || kind == RpSoftTimeout then Wrong else Done
    case Done => Wrong
    case Wrong => Wrong
  }

  predicate Busy(phase: Phase) {
    phase.Queued? || phase.Sent?
  }

  predicate Asking(phase: Phase, p: Peer) {
    phase == Sent(p) || phase == Soft(p)
  }

  function Apply(phases: seq<Phase>, ev: Event): seq<Phase> {
    if ev.attempt < |phases| then phases[ev.attempt := Advance(phases[ev.attempt], ev.kind, ev.peer)] else phases
  }

  function Play(phases: seq<Phase>, events: seq<Event>): (r: seq<Phase>)
    ensures |r| == |phases|
    decreases |events|
  {
    if events == [] then phases else Play(Apply(phases, events[0]), events[1..])
  }

  /** At most one attempt is queued or sent, and no two attempts are asking the same peer. */
  ghost predicate Orderly(phases: seq<Phase>) {
    && (forall a :: 0 <= a < |phases| ==> phases[a] != Wrong)
    && (forall a, b :: 0 <= a < b < |phases| ==> !(Busy(phases[a]) && Busy(phases[b])))
    && (forall a, b, p :: 0 <= a < b < |phases| && Asking(phases[a], p) ==> !Asking(phases[b], p))
  }

  /** Orderly now and after each event that is still in the channel. */
  ghost predicate Calm(phases: seq<Phase>, events: seq<Event>)
    decreases |events|
  {
    && Orderly(phases)
    && (events != [] ==> events[0].attempt < |phases| && Calm(Apply(phases, events[0]), events[1..]))
  }

  lemma {:induction false} CalmIsOfAttempts(phases: seq<Phase>, events: seq<Event>)
    requires Calm(phases, events)
    ensures forall i :: 0 <= i < |events| ==> events[i].attempt < |phases|
    decreases |events|
  {
    if events != [] {
      CalmIsOfAttempts(Apply(phases, events[0]), events[1..]);
      forall i | 1 <= i < |events|
        ensures events[i].attempt < |phases|
      {
        assert events[i] == events[1..][i - 1];
      }
    }
  }

  lemma {:induction false} PlayAppends(phases: seq<Phase>, events: seq<Event>, ev: Event)
    ensures Play(phases, events + [ev]) == Apply(Play(phases, events), ev)
    decreases |events|
  {
    if events == [] {
      assert (events + [ev])[1..] == [];
    } else {
      assert (events + [ev])[1..] == events[1..] + [ev];
      PlayAppends(Apply(phases, events[0]), events[1..], ev);
    }
  }

  /** An event can be added to the channel if everything is orderly once it will have been received. */
  lemma {:induction false} CalmAppends(phases: seq<Phase>, events: seq<Event>, ev: Event)
    requires Calm(phases, events) && ev.attempt < |phases|
    requires Orderly(Apply(Play(phases, events), ev))
    ensures Calm(phases, events + [ev])
    decreases |events|
  {
    if events == [] {
      assert (events + [ev])[1..] == [];
    } else {
      assert (events + [ev])[1..] == events[1..] + [ev];
      CalmAppends(Apply(phases, events[0]), events[1..], ev);
    }
  }

  lemma {:induction false} CalmEnds(phases: seq<Phase>, events: seq<Event>)
    requires Calm(phases, events)
    ensures Orderly(Play(phases, events))
    decreases |events|
  {
    if events != [] {
      CalmEnds(Apply(phases, events[0]), events[1..]);
    }
  }

  ghost predicate Idle(phases: seq<Phase>) {
    forall a :: 0 <= a < |phases| ==> !Busy(phases[a])
  }

  /** An attempt can be started when none is queued or sent. */
  lemma {:induction false} CalmStarts(phases: seq<Phase>, events: seq<Event>)
    requires Calm(phases, events) && Idle(phases)
    ensures Calm(phases + [Queued], events) && Play(phases + [Queued], events) == Play(phases, events) + [Queued]
    decreases |events|
  {
    if events != [] {
      var next := Apply(phases, events[0]);
      assert Apply(phases + [Queued], events[0]) == next + [Queued];
      CalmStarts(next, events[1..]);
    }
  }

  /** The next event in the channel is from an attempt that is not done. */
  lemma NextIsOwed(phases: seq<Phase>, events: seq<Event>)
    requires Calm(phases, events) && events != []
    ensures events[0].attempt < |phases| && phases[events[0].attempt] != Done
  {
    assert Apply(phases, events[0])[events[0].attempt] != Wrong;
  }

  // ----- the counters of the loop -----

  datatype Counters = Counters(queued: bool, sentTo: Option<Peer>, soft: int)

  function CountSoft(phases: seq<Phase>): nat {
    if phases == [] then 0 else CountSoft(phases[1..]) + if phases[0].Soft? then 1 else 0
  }

  /** The counters describe the phases exactly. */
  ghost predicate Counted(phases: seq<Phase>, c: Counters) {
    && (c.queued <==> Queued in phases)
    && (forall p: Peer :: c.sentTo == Some(p) <==> Sent(p) in phases)
    && c.soft == CountSoft(phases)
  }

  /** What `update` makes of the counters; it sees neither the attempt nor its phase. */
  function Updated(c: Counters, kind: Kind, peer: Option<Peer>): Counters {
    match kind
    case RpSent => c.(queued := false, sentTo := peer)
    case RpSoftTimeout => c.(sentTo := None, soft := c.soft + 1)
    case RpHardTimeout => c.(soft := c.soft - 1)
    case RpDeliveredValid => if peer == c.sentTo then c.(sentTo := None) else c.(soft := c.soft - 1)
    case RpDeliveredInvalid => if peer == c.sentTo then c.(sentTo := None) else c.(soft := c.soft - 1)
  }

  lemma {:induction false} CountSoftUpdates(phases: seq<Phase>, a: nat, phase: Phase)
    requires a < |phases|
    ensures CountSoft(phases[a := phase]) ==
              CountSoft(phases) - (if phases[a].Soft? then 1 else 0) + (if phase.Soft? then 1 else 0)
  {
    if a > 0 {
      assert phases[a := phase][1..] == phases[1..][a - 1 := phase];
      CountSoftUpdates(phases[1..], a - 1, phase);
    } else {
      assert phases[a := phase][1..] == phases[1..];
    }
  }

  lemma {:induction false} CountSoftStarts(phases: seq<Phase>)
    ensures CountSoft(phases + [Queued]) == CountSoft(phases)
  {
    if phases != [] {
      assert (phases + [Queued])[1..] == phases[1..] + [Queued];
      CountSoftStarts(phases[1..]);
    }
  }

  lemma {:induction false} NoneIsSoft(phases: seq<Phase>)
    ensures CountSoft(phases) == 0 <==> forall a :: 0 <= a < |phases| ==> !phases[a].Soft?
  {
    if phases != [] {
      NoneIsSoft(phases[1..]);
      assert forall a :: 0 <= a < |phases[1..]| ==> phases[1..][a] == phases[a + 1];
      assert forall a :: 1 <= a < |phases| ==> phases[a] == phases[1..][a - 1];
    }
  }

  /** The heart of the accounting: an update without knowledge of the attempt still counts right. */
  lemma UpdateCounts(phases: seq<Phase>, c: Counters, ev: Event)
    requires Counted(phases, c) && Orderly(phases) && ev.attempt < |phases| && Orderly(Apply(phases, ev))
    ensures Counted(Apply(phases, ev), Updated(c, ev.kind, ev.peer))
  {
    var a, next := ev.attempt, Apply(phases, ev);
    assert next[a] != Wrong;
    CountSoftUpdates(phases, a, next[a]);
    assert phases[a] in phases;
    assert next[a] in next;
    OthersStay(phases, a, next[a]);
    if Busy(phases[a]) {
      BusyLeaves(phases, a, next[a]);
    } else {
      assert c.sentTo != ev.peer by {
        if c.sentTo == ev.peer {
          var b :| 0 <= b < |phases| && phases[b] == Sent(ev.peer.value);
          assert Asking(phases[a], ev.peer.value) && Asking(phases[b], ev.peer.value);
        }
      }
    }
  }

  lemma BusyLeaves(phases: seq<Phase>, a: nat, phase: Phase)
    requires Orderly(phases) && a < |phases| && Busy(phases[a])
    ensures forall x :: x in phases && Busy(x) ==> x == phases[a]
    ensures forall x :: x in phases[a := phase] && Busy(x) ==> x == phase
  {
  }

  lemma OthersStay(phases: seq<Phase>, a: nat, phase: Phase)
    requires a < |phases|
    ensures forall x :: x != phases[a] && x != phase ==> (x in phases[a := phase] <==> x in phases)
  {
    forall x | x != phases[a] && x != phase
      ensures x in phases[a := phase] <==> x in phases
    {
      if x in phases {
        var i :| 0 <= i < |phases| && phases[i] == x;
        assert phases[a := phase][i] == x;
      }
    }
  }

  predicate Waiting(c: Counters) {
    c.queued || c.sentTo != None || c.soft > 0
  }

  ghost predicate AllDone(phases: seq<Phase>) {
    forall a :: 0 <= a < |phases| ==> phases[a] == Done
  }

  /** What the loop can tell from its counters. */
  lemma CountersTell(phases: seq<Phase>, c: Counters)
    requires Counted(phases, c) && Orderly(phases)
    ensures Idle(phases) <==> !c.queued && c.sentTo == None
    ensures AllDone(phases) <==> !Waiting(c)
  {
    NoneIsSoft(phases);
    forall a | 0 <= a < |phases|
      ensures Busy(phases[a]) ==> c.queued || c.sentTo != None
    {
      assert phases[a] in phases;
    }
    if c.sentTo.Some? {
      assert Sent(c.sentTo.value) in phases;
    }
  }

  lemma StartCounts(phases: seq<Phase>, c: Counters)
    requires Counted(phases, c)
    ensures Counted(phases + [Queued], c.(queued := true))
  {
    CountSoftStarts(phases);
    assert (phases + [Queued])[|phases|] == Queued;
  }

  // ----- the attempts -----

  /** Where the goroutine of an attempt is; with a peer, its entry in the sentTo map has not been deleted yet. */
  datatype Stage =
    | Unassigned | Assigned(peer: Peer) | Awaiting(peer: Peer) | Late(peer: Peer) | Ended(peer: Peer) | Gone

  /** The phase of the attempt according to all events it has sent. */
  function Reported(stage: Stage): Phase {
    match stage
    case Unassigned => Queued
    case Assigned(_) => Queued
    case Awaiting(p) => Sent(p)
    case Late(p) => Soft(p)
    case Ended(_) => Done
    case Gone => Done
  }

  predicate Holds(stage: Stage, p: Peer) {
    !stage.Unassigned? && !stage.Gone? && stage.peer == p
  }

  /** The peers with an entry are those that are asked, each by one attempt. */
  ghost predicate Tracked(stages: seq<Stage>, peers: set<Peer>) {
    && (forall a, p :: 0 <= a < |stages| && Holds(stages[a], p) ==> p in peers)
    && (forall a, b, p :: 0 <= a < b < |stages| && Holds(stages[a], p) ==> !Holds(stages[b], p))
    && (forall p :: p in peers ==> exists a :: 0 <= a < |stages| && Holds(stages[a], p))
  }

  lemma TrackStays(stages: seq<Stage>, peers: set<Peer>, a: nat, stage: Stage)
    requires Tracked(stages, peers) && a < |stages| && forall p :: Holds(stage, p) <==> Holds(stages[a], p)
    ensures Tracked(stages[a := stage], peers)
  {
    var next := stages[a := stage];
    forall p | p in peers
      ensures exists b :: 0 <= b < |next| && Holds(next[b], p)
    {
      var b :| 0 <= b < |stages| && Holds(stages[b], p);
      assert Holds(next[b], p);
    }
  }

  lemma TrackAssigns(stages: seq<Stage>, peers: set<Peer>, a: nat, p: Peer)
    requires Tracked(stages, peers) && a < |stages| && stages[a] == Unassigned && p !in peers
    ensures Tracked(stages[a := Assigned(p)], peers + {p})
  {
    var next := stages[a := Assigned(p)];
    forall q | q in peers + {p}
      ensures exists b :: 0 <= b < |next| && Holds(next[b], q)
    {
      if q in peers {
        var b :| 0 <= b < |stages| && Holds(stages[b], q);
        assert Holds(next[b], q);
      } else {
        assert Holds(next[a], q);
      }
    }
  }

  lemma TrackForgets(stages: seq<Stage>, peers: set<Peer>, a: nat, p: Peer)
    requires Tracked(stages, peers) && a < |stages| && Holds(stages[a], p)
    ensures Tracked(stages[a := Gone], peers - {p})
  {
    var next := stages[a := Gone];
    forall q | q in peers - {p}
      ensures exists b :: 0 <= b < |next| && Holds(next[b], q)
    {
      var b :| 0 <= b < |stages| && Holds(stages[b], q);
      assert Holds(next[b], q);
    }
  }

  lemma TrackStarts(stages: seq<Stage>, peers: set<Peer>)
    requires Tracked(stages, peers)
    ensures Tracked(stages + [Unassigned], peers)
  {
    var next := stages + [Unassigned];
    forall p | p in peers
      ensures exists b :: 0 <= b < |next| && Holds(next[b], p)
    {
      var b :| 0 <= b < |stages| && Holds(stages[b], p);
      assert Holds(next[b], p);
    }
  }

  /** Replaying the channel leads from what the loop has seen to what the attempts have reported. */
  ghost predicate Linked(seen: seq<Phase>, events: seq<Event>, stages: seq<Stage>) {
    && |seen| == |stages|
    && Calm(seen, events)
    && forall a :: 0 <= a < |stages| ==> Play(seen, events)[a] == Reported(stages[a])
  }

  /** An attempt moves on and sends an event that says so. */
  lemma EmitLinks(seen: seq<Phase>, events: seq<Event>, stages: seq<Stage>, a: nat, stage: Stage, ev: Event,
                  peers: set<Peer>)
    requires Linked(seen, events, stages) && a < |stages| && ev.attempt == a
    requires Reported(stage) == Advance(Reported(stages[a]), ev.kind, ev.peer) != Wrong
    requires Tracked(stages[a := stage], peers)
    ensures Linked(seen, events + [ev], stages[a := stage])
  {
    var now := Play(seen, events);
    CalmEnds(seen, events);
    PlayAppends(seen, events, ev);
    var next := Apply(now, ev);
    forall b, c, p | 0 <= b < c < |next| && Asking(next[b], p)
      ensures !Asking(next[c], p)
    {
      assert next[b] == Reported(stages[a := stage][b]) && next[c] == Reported(stages[a := stage][c]);
      assert Holds(stages[a := stage][b], p) && !Holds(stages[a := stage][c], p);
    }
    CalmAppends(seen, events, ev);
  }

  lemma StartLinks(seen: seq<Phase>, events: seq<Event>, stages: seq<Stage>)
    requires Linked(seen, events, stages) && Idle(seen)
    ensures Linked(seen + [Queued], events, stages + [Unassigned])
  {
    CalmStarts(seen, events);
  }

  lemma ReceiveLinks(seen: seq<Phase>, events: seq<Event>, stages: seq<Stage>)
    requires Linked(seen, events, stages) && events != []
    ensures Linked(Apply(seen, events[0]), events[1..], stages)
    ensures Orderly(seen) && Orderly(Apply(seen, events[0])) && events[0].attempt < |seen|
  {
  }

  /** Once the loop has seen all attempts done, no attempt owes an event and none is on its way. */
  lemma NothingIsOwed(seen: seq<Phase>, events: seq<Event>, stages: seq<Stage>)
    requires Linked(seen, events, stages) && AllDone(seen)
    ensures events == [] && forall a :: 0 <= a < |stages| ==> Reported(stages[a]) == Done
  {
    if events != [] {
      NextIsOwed(seen, events);
    }
  }

  // ----- the answers -----

  predicate Delivered(kind: Kind) {
    kind == RpDeliveredValid || kind == RpDeliveredInvalid
  }

  /** An event about an answer says whether it was valid, and no other answer can come. */
  ghost predicate TrueEvent(good: set<nat>, ev: Event, stages: seq<Stage>, sentTo: map<Peer, Option<bool>>) {
    Delivered(ev.kind) && ev.attempt < |stages| ==>
      && (ev.kind == RpDeliveredValid <==> ev.attempt in good)
      && (stages[ev.attempt].Gone? || stages[ev.attempt].Ended?)
      && forall p :: Holds(stages[ev.attempt], p) && p in sentTo ==> sentTo[p].Some?
  }

  /** The attempts in `good` have had a valid answer; entries and events agree with it. */
  ghost predicate Truthful(good: set<nat>, events: seq<Event>, stages: seq<Stage>, sentTo: map<Peer, Option<bool>>) {
    && (forall a :: a in good ==> a < |stages| && stages[a] != Unassigned)
    && (forall a, p | 0 <= a < |stages| && Holds(stages[a], p) && p in sentTo :: sentTo[p] == Some(true) <==> a in good)
    && (forall i :: 0 <= i < |events| ==> TrueEvent(good, events[i], stages, sentTo))
  }

  lemma TruthOfRest(good: set<nat>, events: seq<Event>, stages: seq<Stage>, sentTo: map<Peer, Option<bool>>)
    requires Truthful(good, events, stages, sentTo) && events != []
    ensures Truthful(good, events[1..], stages, sentTo) && TrueEvent(good, events[0], stages, sentTo)
  {
    hide TrueEvent;
  }

  lemma EventsOfAttempts(seen: seq<Phase>, events: seq<Event>, stages: seq<Stage>)
    requires Linked(seen, events, stages)
    ensures forall i :: 0 <= i < |events| ==> events[i].attempt < |stages|
  {
    CalmIsOfAttempts(seen, events);
  }

  lemma TruthStarts(good: set<nat>, events: seq<Event>, stages: seq<Stage>, sentTo: map<Peer, Option<bool>>)
    requires Truthful(good, events, stages, sentTo) && forall i :: 0 <= i < |events| ==> events[i].attempt < |stages|
    ensures Truthful(good, events, stages + [Unassigned], sentTo)
  {
  }

  lemma TruthAssigns(good: set<nat>, events: seq<Event>, stages: seq<Stage>, sentTo: map<Peer, Option<bool>>, a: nat,
                     p: Peer)
    requires Truthful(good, events, stages, sentTo) && Tracked(stages, sentTo.Keys)
    requires a < |stages| && stages[a] == Unassigned && p !in sentTo
    ensures Truthful(good, events, stages[a := Assigned(p)], sentTo[p := None])
  {
    var next := stages[a := Assigned(p)];
    forall b | 0 <= b < |next| && b != a
      ensures next[b] == stages[b] && !Holds(next[b], p)
    {
    }
  }

  lemma TruthEmits(good: set<nat>, events: seq<Event>, stages: seq<Stage>, sentTo: map<Peer, Option<bool>>, a: nat,
                   stage: Stage, ev: Event)
    requires Truthful(good, events, stages, sentTo) && a < |stages| && ev.attempt == a && stage != Unassigned
    requires Reported(stages[a]) != Done && forall p :: Holds(stage, p) ==> Holds(stages[a], p)
    requires TrueEvent(good, ev, stages[a := stage], sentTo)
    ensures Truthful(good, events + [ev], stages[a := stage], sentTo)
  {
    var next := stages[a := stage];
    forall i | 0 <= i < |events|
      ensures TrueEvent(good, events[i], next, sentTo)
    {
      assert TrueEvent(good, events[i], stages, sentTo);
    }
  }

  lemma TruthForgets(good: set<nat>, events: seq<Event>, stages: seq<Stage>, sentTo: map<Peer, Option<bool>>, a: nat,
                     p: Peer)
    requires Truthful(good, events, stages, sentTo) && a < |stages| && stages[a] != Unassigned
    ensures Truthful(good, events, stages[a := Gone], sentTo - {p})
  {
    var next := stages[a := Gone];
    forall i | 0 <= i < |events|
      ensures TrueEvent(good, events[i], next, sentTo - {p})
    {
      assert TrueEvent(good, events[i], stages, sentTo);
    }
  }

  /** The attempts that ask peer `p`. */
  ghost function Askers(stages: seq<Stage>, p: Peer): set<nat> {
    set a: nat | a < |stages| && Holds(stages[a], p)
  }

  lemma TruthAnswers(good: set<nat>, events: seq<Event>, stages: seq<Stage>, sentTo: map<Peer, Option<bool>>, p: Peer,
                     valid: bool)
    requires Truthful(good, events, stages, sentTo) && Tracked(stages, sentTo.Keys) && p in sentTo && sentTo[p] == None
    ensures Truthful(good + if valid then Askers(stages, p) else {}, events, stages, sentTo[p := Some(valid)])
  {
    var good' := good + if valid then Askers(stages, p) else {};
    forall a | 0 <= a < |stages| && Holds(stages[a], p)
      ensures a !in good
    {
    }
    forall i | 0 <= i < |events|
      ensures TrueEvent(good', events[i], stages, sentTo[p := Some(valid)])
    {
      assert TrueEvent(good, events[i], stages, sentTo);
    }
  }

  // ----- the state machine -----

  datatype LoopState = Requesting | NoMorePeers | Stopped | Exited
  datatype Outcome = Success | NoPeers | Cancelled

  /** What the state of the loop says about the attempts it has heard of. */
  ghost predicate LoopOk(state: LoopState, seen: seq<Phase>, stopped: bool) {
    match state
    case Requesting => !Idle(seen)
    case NoMorePeers => Idle(seen) && !AllDone(seen)
    case Stopped => stopped
    case Exited => stopped && AllDone(seen)
  }

  /** After a soft timeout nothing is queued or sent; a hard timeout does not concern what is. */
  lemma TimeoutsAndBusy(seen: seq<Phase>, ev: Event)
    requires Orderly(seen) && ev.attempt < |seen| && Orderly(Apply(seen, ev))
    ensures ev.kind == RpSoftTimeout ==> Idle(Apply(seen, ev))
    ensures ev.kind == RpHardTimeout && !Idle(seen) ==> !Idle(Apply(seen, ev))
    ensures ev.kind == RpSent && ev.peer.Some? ==> !Idle(Apply(seen, ev))
    ensures ev.kind == RpSent && ev.peer.None? ==> Idle(Apply(seen, ev))
  {
    var next := Apply(seen, ev);
    assert next[ev.attempt] != Wrong;
    if !Idle(seen) {
      var b :| 0 <= b < |seen| && Busy(seen[b]);
      assert b != ev.attempt ==> next[b] == seen[b];
    }
  }

  lemma IdleStays(seen: seq<Phase>, ev: Event)
    requires Orderly(seen) && ev.attempt < |seen| && Orderly(Apply(seen, ev)) && Idle(seen)
    ensures Idle(Apply(seen, ev))
  {
  }

  /** How many events the attempts can still send at most. */
  function Debt(phases: seq<Phase>): nat {
    if phases == [] then 0
    else Debt(phases[1..]) + match phases[0] case Queued => 3 case Sent(_) => 2 case Soft(_) => 1 case _ => 0
  }

  lemma {:induction false} DebtFalls(seen: seq<Phase>, ev: Event)
    requires ev.attempt < |seen| && Apply(seen, ev)[ev.attempt] != Wrong
    ensures Debt(Apply(seen, ev)) < Debt(seen)
  {
    if ev.attempt > 0 {
      var shifted := ev.(attempt := ev.attempt - 1);
      assert Apply(seen, ev)[1..] == Apply(seen[1..], shifted);
      DebtFalls(seen[1..], shifted);
    }
  }

  lemma TrackedHasEntry(stages: seq<Stage>, peers: set<Peer>, a: nat, p: Peer)
    requires Tracked(stages, peers) && a < |stages| && Holds(stages[a], p)
    ensures p in peers
  {
  }

  lemma {:induction false} CountsTheSoft(phases: seq<Phase>, n: nat)
    requires n <= |phases|
    ensures CountSoft(phases[n..]) == |set a | n <= a < |phases| && phases[a].Soft?|
    decreases |phases| - n
  {
    var tail := set a | n <= a < |phases| && phases[a].Soft?;
    if n == |phases| {
      assert tail == {};
    } else {
      CountsTheSoft(phases, n + 1);
      assert phases[n..][1..] == phases[n + 1..];
      var rest := set a | n + 1 <= a < |phases| && phases[a].Soft?;
      assert tail == if phases[n].Soft? then rest + {n} else rest;
    }
  }

  datatype AttemptStep = Distribute(peer: Peer) | GiveUp | Proceed | Reply | TimeOut

  datatype Step =
    | Receive | RetryTimer | NoticeStop | CancelRequest | Attempt(a: nat, step: AttemptStep)
    | Answer(peer: Peer, valid: bool)

  /** What a step of an attempt leads to: its new stage, the events it sends and the entries of the peers asked. */
  datatype Move = Move(stage: Stage, sent: seq<Event>, sentTo: map<Peer, Option<bool>>)

  /** The move that attempt `a` makes from `stage`; a step that does not apply there changes nothing. */
  function After(a: nat, stage: Stage, step: AttemptStep, sentTo: map<Peer, Option<bool>>): Move {
    match (step, stage)
    case (Distribute(p), Unassigned) => if p in sentTo then Move(stage, [], sentTo)
      else Move(Assigned(p), [], sentTo[p := None])
    case (GiveUp, Unassigned) => Move(Gone, [Event(a, RpSent, None)], sentTo)
    case (Proceed, Assigned(p)) => Move(Awaiting(p), [Event(a, RpSent, Some(p))], sentTo)
    case (Proceed, Ended(p)) => Move(Gone, [], sentTo - {p})
    case (Reply, Awaiting(p)) => Answered(a, stage, p, sentTo)
    case (Reply, Late(p)) => Answered(a, stage, p, sentTo)
    case (TimeOut, Awaiting(p)) => Move(Late(p), [Event(a, RpSoftTimeout, Some(p))], sentTo)
    case (TimeOut, Late(p)) => Move(Ended(p), [Event(a, RpHardTimeout, Some(p))], sentTo)
    case _ => Move(stage, [], sentTo)
  }

  function Answered(a: nat, stage: Stage, p: Peer, sentTo: map<Peer, Option<bool>>): Move {
    if p in sentTo && sentTo[p].Some?
    then Move(Ended(p), [Event(a, if sentTo[p].value then RpDeliveredValid else RpDeliveredInvalid, Some(p))], sentTo)
    else Move(stage, [], sentTo)
  }

  /** The step by which an attempt that has not ended tells the loop about itself, whatever its peer does. */
  function Telling(stage: Stage): AttemptStep {
    match stage
    case Unassigned => GiveUp
    case Assigned(_) => Proceed
    case _ => TimeOut
  }

  /** An attempt that has not ended. */
  predicate Active(stage: Stage) {
    !stage.Ended? && !stage.Gone?
  }

  /** Every attempt that has not ended can send an event. */
  lemma Tells(a: nat, stage: Stage, sentTo: map<Peer, Option<bool>>)
    requires Active(stage)
    ensures |After(a, stage, Telling(stage), sentTo).sent| == 1
  {
  }

  /** While the loop waits for an attempt and the channel is empty, some attempt has not ended. */
  lemma SomeoneIsActive(seen: seq<Phase>, stages: seq<Stage>)
    requires Linked(seen, [], stages) && !AllDone(seen)
    ensures exists a :: 0 <= a < |stages| && Active(stages[a])
  {
    var a :| 0 <= a < |seen| && seen[a] != Done;
    assert Play(seen, [])[a] == Reported(stages[a]);
    assert Active(stages[a]);
  }

  method FirstActive(stages: seq<Stage>) returns (a: nat)
    requires exists b :: 0 <= b < |stages| && Active(stages[b])
    ensures a < |stages| && Active(stages[a]) && forall b :: 0 <= b < a ==> !Active(stages[b])
  {
    a := 0;
    while !Active(stages[a])
      invariant a < |stages| && forall b :: 0 <= b < a ==> !Active(stages[b])
      decreases |stages| - a
    {
      a := a + 1;
    }
  }

  /** The state the loop is in after an event received while requesting. */
  function AfterEvent(ev: Event, waiting: bool): LoopState {
    match ev.kind
    case RpSent => if ev.peer.Some? then Requesting else if waiting then NoMorePeers else Exited
    case RpDeliveredValid => Stopped
    case _ => Requesting
  }

  /** Whether the loop starts a new attempt after an event received while requesting. */
  predicate Restarts(ev: Event, c: Counters) {
    ev.kind == RpSoftTimeout || (ev.kind == RpDeliveredInvalid && !c.queued && c.sentTo == None)
  }

  ghost predicate RequestingTo(ev: Event, c: Counters, state: LoopState, stages: seq<Stage>, stages': seq<Stage>) {
    var c' := Updated(c, ev.kind, ev.peer);
    && state == AfterEvent(ev, Waiting(c'))
    && stages' == stages + if Restarts(ev, c') then [Unassigned] else []
  }

  /** The state the loop is in after an event received while no more peers can be asked. */
  predicate WaitingTo(ev: Event, waiting: bool, state: LoopState) {
    && (ev.kind == RpDeliveredValid <==> state == Stopped)
    && (ev.kind != RpDeliveredValid && waiting <==> state == NoMorePeers)
    && state != Requesting
  }

  /** What holds when the first attempt is queued. */
  lemma FirstAttempt(sentTo: map<Peer, Option<bool>>)
    requires sentTo == map[]
    ensures Linked([Queued], [], [Unassigned]) && Tracked([Unassigned], sentTo.Keys)
    ensures Truthful({}, [], [Unassigned], sentTo)
    ensures Counted([Queued], Counters(true, None, 0)) && !Idle([Queued])
  {
    assert [Queued][0] == Queued && Busy([Queued][0]);
  }

  class SentReq {
    var lastReqQueued: bool
    var lastReqSentTo: Option<Peer>
    var reqSrtoCount: int
    var sentTo: map<Peer, Option<bool>>  // the delivered answer, if any, and whether it was valid
    var stopped: bool
    var err: Outcome
    var state: LoopState
    var events: seq<Event>
    var stages: seq<Stage>               // the goroutines of the attempts
    ghost var seen: seq<Phase>           // the attempts according to the events received by the loop
    ghost var answered: bool             // whether the loop has received a valid answer
    ghost var good: set<nat>             // the attempts that have had a valid answer

    ghost function Now(): Counters
      reads `lastReqQueued, `lastReqSentTo, `reqSrtoCount
    {
      Counters(lastReqQueued, lastReqSentTo, reqSrtoCount)
    }

    /** Channel, attempts, entries, counters and answers agree, whatever the loop does. */
    ghost predicate Core()
      reads `lastReqQueued, `lastReqSentTo, `reqSrtoCount, `sentTo, `events, `stages, `seen, `answered, `good
    {
      && Linked(seen, events, stages)
      && Tracked(stages, sentTo.Keys)
      && Counted(seen, Now())
      && Truthful(good, events, stages, sentTo) && (answered ==> good != {})
    }

    ghost predicate Valid()
      reads this
    {
      && Core()
      && LoopOk(state, seen, stopped)
      && (stopped && err == Success ==> answered)
      && (stopped && err == NoPeers ==> state == Exited)
      && (stopped && (state == Requesting || state == NoMorePeers) ==> err == Cancelled)
    }

    // ----- the loop -----

    constructor ()
      ensures Valid() && state == Requesting && stages == [Unassigned] && !stopped && events == [] && good == {}
    {
      FirstAttempt(map[]);
      hide Linked, Tracked, Counted, Idle, Truthful;
      lastReqQueued, lastReqSentTo, reqSrtoCount := true, None, 0;
      sentTo, stopped, err, state, events := map[], false, Cancelled, Requesting, [];
      stages, seen, answered, good := [Unassigned], [Queued], false, {};
    }

    /** Adjusts the counters; they still describe the attempts exactly. */
    method Update(ev: Event)
      requires Counted(seen, Now()) && Orderly(seen) && ev.attempt < |seen| && Orderly(Apply(seen, ev))
      modifies `lastReqQueued, `lastReqSentTo, `reqSrtoCount, `seen
      ensures seen == Apply(old(seen), ev) && Counted(seen, Now())
      ensures Now() == Updated(old(Now()), ev.kind, ev.peer)
    {
      UpdateCounts(seen, Now(), ev);
      seen := Apply(seen, ev);
      match ev.kind {
        case RpSent =>
          lastReqQueued := false;
          lastReqSentTo := ev.peer;
        case RpSoftTimeout =>
          lastReqSentTo := None;
          reqSrtoCount := reqSrtoCount + 1;
        case RpHardTimeout =>
          reqSrtoCount := reqSrtoCount - 1;
        case RpDeliveredValid =>
          if ev.peer == lastReqSentTo {
            lastReqSentTo := None;
          } else {
            reqSrtoCount := reqSrtoCount - 1;
          }
        case RpDeliveredInvalid =>
          if ev.peer == lastReqSentTo {
            lastReqSentTo := None;
          } else {
            reqSrtoCount := reqSrtoCount - 1;
          }
      }
    }

    function IsWaiting(): bool
      reads `lastReqQueued, `lastReqSentTo, `reqSrtoCount
    {
      lastReqQueued || lastReqSentTo != None || reqSrtoCount > 0
    }

    /** Takes the next event from the channel and updates the counters. */
    method Receive() returns (ev: Event)
      requires Core() && events != []
      modifies `lastReqQueued, `lastReqSentTo, `reqSrtoCount, `seen, `events, `answered
      ensures ev == old(events[0]) && events == old(events[1..])
      ensures ev.attempt < |old(seen)| && seen == Apply(old(seen), ev)
      ensures Core() && Now() == Updated(old(Now()), ev.kind, ev.peer)
      ensures answered == (old(answered) || ev.kind == RpDeliveredValid)
      ensures Delivered(ev.kind) ==> (ev.kind == RpDeliveredValid <==> ev.attempt in good)
    {
      hide Calm, Play, Counted, Truthful;
      ReceiveLinks(seen, events, stages);
      TruthOfRest(good, events, stages, sentTo);
      ev := events[0];
      Update(ev);
      events := events[1..];
      answered := answered || ev.kind == RpDeliveredValid;
    }

    /** Starts an attempt. */
    method StartAttempt()
      requires Core() && Idle(seen)
      modifies `lastReqQueued, `seen, `stages
      ensures Core() && !Idle(seen) && stages == old(stages) + [Unassigned]
    {
      hide Linked, Counted, Tracked, Truthful;
      StartLinks(seen, events, stages);
      EventsOfAttempts(seen, events, stages);
      TruthStarts(good, events, stages, sentTo);
      TrackStarts(stages, sentTo.Keys);
      StartCounts(seen, Now());
      stages := stages + [Unassigned];
      lastReqQueued := true;
      seen := seen + [Queued];
      assert seen[|seen| - 1] == Queued;
    }

    /** Stops the retrieval; only the first outcome is kept. */
    method Stop(outcome: Outcome)
      modifies `stopped, `err
      ensures stopped && err == if old(stopped) then old(err) else outcome
    {
      if !stopped {
        stopped := true;
        err := outcome;
      }
    }

    lemma CountersSay()
      requires Core() && Orderly(seen)
      ensures Idle(seen) <==> !lastReqQueued && lastReqSentTo == None
      ensures AllDone(seen) <==> !IsWaiting()
    {
      CountersTell(seen, Now());
    }

    /** What the loop does after an event it has received while requesting. */
    method AfterRequesting(ev: Event)
      requires Core() && Orderly(seen)
      requires stopped ==> err == Cancelled
      requires ev.kind == RpDeliveredValid ==> answered
      requires ev.kind == RpSoftTimeout ==> Idle(seen)
      requires ev.kind == RpHardTimeout || (ev.kind == RpSent && ev.peer.Some?) ==> !Idle(seen)
      requires ev.kind == RpSent && ev.peer.None? ==> Idle(seen)
      modifies `lastReqQueued, `seen, `stages, `stopped, `err, `state
      ensures Valid() && state == AfterEvent(ev, old(IsWaiting()))
      ensures stages == old(stages) + if Restarts(ev, old(Now())) then [Unassigned] else []
      ensures old(stopped) ==> stopped && err == old(err)
      ensures !old(stopped) && ev.kind == RpDeliveredValid ==> stopped && err == Success
      ensures !old(stopped) && state == Requesting ==> !stopped
    {
      hide Core, Orderly, Idle, AllDone;
      CountersSay();
      match ev.kind {
        case RpSent =>
          if ev.peer.Some? {
            state := Requesting;
          } else if IsWaiting() {
            state := NoMorePeers;
          } else {
            Stop(NoPeers);
            state := Exited;
          }
        case RpSoftTimeout =>
          StartAttempt();
          state := Requesting;
        case RpHardTimeout =>
          state := Requesting;
        case RpDeliveredInvalid =>
          if !lastReqQueued && lastReqSentTo == None {
            StartAttempt();
          }
          state := Requesting;
        case RpDeliveredValid =>
          Stop(Success);
          state := Stopped;
      }
    }

    /** One step of the loop while requesting: an event or the closed stop channel, whichever is chosen. */
    method StepRequesting(event: bool)
      requires Valid() && state == Requesting && (if event then events != [] else stopped)
      modifies `lastReqQueued, `lastReqSentTo, `reqSrtoCount, `seen, `events, `answered, `stages, `stopped, `err, `state
      ensures Valid()
      ensures !event ==> state == Stopped && stages == old(stages) && events == old(events)
      ensures event ==>
                RequestingTo(old(events[0]), old(Now()), state, old(stages), stages) && events == old(events[1..])
      ensures old(stopped) ==> stopped && err == old(err)
      ensures event && Delivered(old(events[0]).kind) ==> (state == Stopped <==> old(events[0]).attempt in good)
      ensures event && Delivered(old(events[0]).kind) && !old(stopped) ==>
                if old(events[0]).attempt in good then stopped && err == Success else !stopped && state == Requesting
    {
      hide Core, Orderly, Idle, AllDone, Apply;
      if !event {
        state := Stopped;
        return;
      }
      EventIsOrderly();
      var ev := Receive();
      AfterRequesting(ev);
    }

    lemma EventIsOrderly()
      requires Core() && events != []
      ensures events[0].attempt < |seen| && Orderly(seen) && Orderly(Apply(seen, events[0]))
      ensures var now := Apply(seen, events[0]);
              && (events[0].kind == RpSoftTimeout ==> Idle(now))
              && (events[0].kind == RpHardTimeout && !Idle(seen) ==> !Idle(now))
              && (events[0].kind == RpSent && events[0].peer.Some? ==> !Idle(now))
              && (events[0].kind == RpSent && events[0].peer.None? ==> Idle(now))
    {
      ReceiveLinks(seen, events, stages);
      TimeoutsAndBusy(seen, events[0]);
    }

    /** One step of the loop while no more peers can be asked: the retry timer, an event or the stop channel. */
    method StepNoMorePeers(timer: bool, event: bool)
      requires Valid() && state == NoMorePeers && (timer || if event then events != [] else stopped)
      modifies `lastReqQueued, `lastReqSentTo, `reqSrtoCount, `seen, `events, `answered, `stages, `stopped, `err, `state
      ensures Valid()
      ensures timer ==> state == Requesting && stages == old(stages) + [Unassigned] && events == old(events)
      ensures !timer ==> stages == old(stages) && events == if event then old(events[1..]) else old(events)
      ensures !timer && !event ==> state == Stopped
      ensures !timer && event ==>
                && WaitingTo(old(events[0]), IsWaiting(), state)
                && (Delivered(old(events[0]).kind) && old(events[0]).attempt in good ==>
                      state == Stopped && (!old(stopped) ==> err == Success))
      ensures old(stopped) ==> stopped && err == old(err)
    {
      hide Tracked, Counted, Truthful;
      if timer {
        hide Linked;
        StartAttempt();
        state := Requesting;
      } else if !event {
        state := Stopped;
      } else {
        ReceiveLinks(seen, events, stages);
        IdleStays(seen, events[0]);
        hide Linked;
        var ev := Receive();
        CountersTell(seen, Now());
        hide Idle, AllDone, Updated, Apply, Orderly;
        if ev.kind == RpDeliveredValid {
          Stop(Success);
          state := Stopped;
        } else if !IsWaiting() {
          Stop(NoPeers);
          state := Exited;
        }
      }
    }

    /** The loop has stopped asking and only waits for the attempts that have not ended. */
    method StepStopped()
      requires Valid() && state == Stopped && (IsWaiting() ==> events != [])
      modifies `lastReqQueued, `lastReqSentTo, `reqSrtoCount, `seen, `events, `answered, `state
      ensures Valid()
      ensures state == (if old(IsWaiting()) then Stopped else Exited)
      ensures events == if old(IsWaiting()) then old(events[1..]) else old(events)
      ensures state == Stopped ==> Debt(seen) < old(Debt(seen))
    {
      hide Linked, Tracked, Counted, AllDone, Debt, Apply, Updated, Truthful;
      WaitingTells();
      if !IsWaiting() {
        state := Exited;
        return;
      }
      EventPays();
      var ev := Receive();
    }

    lemma WaitingTells()
      requires Valid()
      ensures AllDone(seen) <==> !IsWaiting()
    {
      assert Orderly(seen);
      CountersTell(seen, Now());
    }

    lemma EventPays()
      requires Valid() && events != []
      ensures events[0].attempt < |seen| && Debt(Apply(seen, events[0])) < Debt(seen)
    {
      ReceiveLinks(seen, events, stages);
      DebtFalls(seen, events[0]);
    }

    /** While the loop waits and the channel is empty, some attempt has not ended; its next step fills the channel. */
    method Nudge()
      requires Valid() && IsWaiting() && events == []
      modifies `stages, `events, `sentTo
      ensures Valid() && |events| == 1
    {
      hide Linked, Counted, Tracked, LoopOk, AllDone, Truthful;
      WaitingTells();
      SomeoneIsLeft();
      var a := FirstActive(stages);
      Tells(a, stages[a], sentTo);
      StepAttempt(a, Telling(stages[a]));
    }

    lemma SomeoneIsLeft()
      requires Valid() && events == [] && !AllDone(seen)
      ensures exists a :: 0 <= a < |stages| && Active(stages[a])
    {
      SomeoneIsActive(seen, stages);
    }

    /** A stopped loop never waits in vain: it can always be led to its exit. */
    method Drain()
      requires Valid() && state == Stopped
      modifies this
      ensures Valid() && state == Exited
    {
      hide Linked, Counted, Tracked, LoopOk, Truthful;
      while state == Stopped
        invariant Valid() && (state == Stopped || state == Exited)
        decreases if state == Stopped then 1 + Debt(seen) else 0
      {
        if IsWaiting() && events == [] {
          Nudge();
        }
        StepStopped();
      }
    }

    /** Stops the retrieval from outside, at any time. */
    method Cancel()
      requires Valid()
      modifies `stopped, `err
      ensures Valid() && stopped && err == if old(stopped) then old(err) else Cancelled
    {
      hide Linked, Tracked, Counted, Truthful;
      Stop(Cancelled);
    }

    // ----- the attempts -----

    /** The distributor has found a peer that is not being asked already, and the request is about to be sent there. */
    method Assign(a: nat, p: Peer)
      requires Valid() && a < |stages| && stages[a] == Unassigned && p !in sentTo
      modifies `stages, `sentTo
      ensures Valid() && stages == old(stages)[a := Assigned(p)] && sentTo == old(sentTo)[p := None]
    {
      TrackAssigns(stages, sentTo.Keys, a, p);
      TruthAssigns(good, events, stages, sentTo, a, p);
      hide Calm, Play, Counted, Tracked, Truthful;
      stages := stages[a := Assigned(p)];
      sentTo := sentTo[p := None];
      assert sentTo.Keys == old(sentTo.Keys) + {p};
    }

    /** Moves an attempt on and sends the event. */
    method Emit(a: nat, stage: Stage, kind: Kind, peer: Option<Peer>)
      requires Valid() && a < |stages| && Reported(stage) == Advance(Reported(stages[a]), kind, peer) != Wrong
      requires forall p :: Holds(stage, p) <==> Holds(stages[a], p)
      requires TrueEvent(good, Event(a, kind, peer), stages[a := stage], sentTo)
      modifies `stages, `events
      ensures Valid() && stages == old(stages)[a := stage] && events == old(events) + [Event(a, kind, peer)]
    {
      TrackStays(stages, sentTo.Keys, a, stage);
      EmitLinks(seen, events, stages, a, stage, Event(a, kind, peer), sentTo.Keys);
      TruthEmits(good, events, stages, sentTo, a, stage, Event(a, kind, peer));
      hide Linked, Counted, Tracked, Truthful;
      stages := stages[a := stage];
      events := events + [Event(a, kind, peer)];
    }

    /** Runs the goroutine of an attempt up to its next event, if it can take this step. */
    method StepAttempt(a: nat, step: AttemptStep)
      requires Valid()
      modifies `stages, `events, `sentTo
      ensures Valid()
      ensures a >= |old(stages)| ==> stages == old(stages) && events == old(events) && sentTo == old(sentTo)
      ensures a < |old(stages)| ==>
                var move := After(a, old(stages[a]), step, old(sentTo));
                stages == old(stages)[a := move.stage] && events == old(events) + move.sent && sentTo == move.sentTo
    {
      hide Linked, Counted, Tracked, Truthful;
      if a < |stages| {
        match (step, stages[a]) {
          case (Distribute(p), Unassigned) =>
            if p !in sentTo {
              Assign(a, p);
            }
          case (GiveUp, Unassigned) => Emit(a, Gone, RpSent, None);
          case (Proceed, Assigned(p)) => Emit(a, Awaiting(p), RpSent, Some(p));
          case (Proceed, Ended(p)) => Cleanup(a);
          case (Reply, Awaiting(p)) =>
            EntryIsTrue(a, p);
            if sentTo[p].Some? {
              Emit(a, Ended(p), if sentTo[p].value then RpDeliveredValid else RpDeliveredInvalid, Some(p));
            }
          case (Reply, Late(p)) =>
            EntryIsTrue(a, p);
            if sentTo[p].Some? {
              Emit(a, Ended(p), if sentTo[p].value then RpDeliveredValid else RpDeliveredInvalid, Some(p));
            }
          case (TimeOut, Awaiting(p)) => Emit(a, Late(p), RpSoftTimeout, Some(p));
          case (TimeOut, Late(p)) => Emit(a, Ended(p), RpHardTimeout, Some(p));
          case _ =>
        }
      }
    }

    lemma EntryIsTrue(a: nat, p: Peer)
      requires Valid() && a < |stages| && Holds(stages[a], p)
      ensures p in sentTo && (sentTo[p] == Some(true) <==> a in good)
    {
      TrackedHasEntry(stages, sentTo.Keys, a, p);
    }

    /** The attempt has ended and deletes its entry. */
    method Cleanup(a: nat)
      requires Valid() && a < |stages| && stages[a].Ended?
      modifies `stages, `sentTo
      ensures Valid() && stages == old(stages)[a := Gone] && sentTo == old(sentTo - {stages[a].peer})
    {
      TrackForgets(stages, sentTo.Keys, a, stages[a].peer);
      TruthForgets(good, events, stages, sentTo, a, stages[a].peer);
      hide Calm, Play, Counted, Tracked, Truthful, LoopOk, Now;
      sentTo := sentTo - {stages[a].peer};
      stages := stages[a := Gone];
      assert sentTo.Keys == old(sentTo.Keys - {stages[a].peer});
    }

    /** An answer from a peer is accepted if an attempt is asking the peer and has not had an answer yet. */
    method Deliver(p: Peer, valid: bool) returns (expected: bool)
      requires Valid()
      modifies `sentTo, `good
      ensures Valid()
      ensures good == old(good) + if expected && valid then Askers(stages, p) else {}
      ensures expected <==>
                (exists a :: 0 <= a < |stages| && Holds(stages[a], p)) && old(p in sentTo && sentTo[p] == None)
      ensures sentTo == if expected then old(sentTo)[p := Some(valid)] else old(sentTo)
    {
      hide Linked, Counted, Tracked, Truthful, Askers, LoopOk;
      AskerIs(p);
      expected := p in sentTo && sentTo[p] == None;
      if expected {
        TruthAnswers(good, events, stages, sentTo, p, valid);
        sentTo := sentTo[p := Some(valid)];
        good := good + if valid then Askers(stages, p) else {};
        assert sentTo.Keys == old(sentTo.Keys);
      }
    }

    /** A peer with an entry is asked by an attempt. */
    lemma AskerIs(p: Peer)
      requires Valid()
      ensures p in sentTo <==> exists a :: 0 <= a < |stages| && Holds(stages[a], p)
    {
    }

    /** A valid answer to a request that is waited for ends the retrieval with success, an invalid one does not. */
    method Conclude(a: nat, p: Peer, valid: bool)
      requires Valid() && state == Requesting && !stopped && events == []
      requires a < |stages| && (stages[a] == Awaiting(p) || stages[a] == Late(p)) && p in sentTo && sentTo[p] == None
      modifies this
      ensures Valid()
      ensures if valid then state == Stopped && stopped && err == Success else state == Requesting && !stopped
    {
      hide Linked, Counted, Tracked, Truthful;
      EntryIsTrue(a, p);
      var expected := Deliver(p, valid);
      StepAttempt(a, Reply);
      StepRequesting(true);
    }

    // ----- every run -----

    /** A step changes what it is about and nothing else; once stopped, the retrieval keeps its outcome. */
    method Take(step: Step)
      requires Valid()
      modifies this
      ensures Valid() && (old(stopped) ==> stopped && err == old(err))
      ensures good != old(good) ==> step.Answer? && step.valid
      ensures step.Receive? && old(events) != [] ==> events == old(events[1..])
      ensures step.Receive? && old(events) != [] && old(state) == Requesting ==>
                RequestingTo(old(events[0]), old(Now()), state, old(stages), stages)
      ensures step.Receive? && old(events) != [] && old(state) == NoMorePeers ==>
                WaitingTo(old(events[0]), IsWaiting(), state)
      ensures step.RetryTimer? && old(state) == NoMorePeers ==>
                state == Requesting && stages == old(stages) + [Unassigned]
      ensures step.NoticeStop? && old(stopped) ==> state == Stopped || state == Exited
      ensures step.NoticeStop? && old(state) == Stopped && !old(IsWaiting()) ==> state == Exited
      ensures step.CancelRequest? ==> stopped && (!old(stopped) ==> err == Cancelled)
      ensures step.Attempt? && step.a < |old(stages)| ==>
                var move := After(step.a, old(stages)[step.a], step.step, old(sentTo));
                && stages == old(stages)[step.a := move.stage]
                && events == old(events) + move.sent && sentTo == move.sentTo
      ensures step.Answer? && step.peer in old(sentTo) && old(sentTo)[step.peer] == None ==>
                sentTo == old(sentTo)[step.peer := Some(step.valid)]
    {
      hide Linked, Tracked, Counted, LoopOk, Truthful, RequestingTo, WaitingTo, After, Updated, IsWaiting;
      WhatIsStopped();
      match step {
        case Receive => StepEvent();
        case RetryTimer =>
          if state == NoMorePeers {
            StepNoMorePeers(true, false);
          }
        case NoticeStop =>
          if state == Requesting && stopped {
            StepRequesting(false);
          } else if state == NoMorePeers && stopped {
            StepNoMorePeers(false, false);
          } else if state == Stopped && !IsWaiting() {
            StepStopped();
          }
        case CancelRequest => Cancel();
        case Attempt(a, s) => StepAttempt(a, s);
        case Answer(p, valid) =>
          AskerIs(p);
          var _ := Deliver(p, valid);
      }
    }

    /** Nothing is left to receive once no attempt is waited for. */
    lemma WhatIsStopped()
      requires Valid()
      ensures events != [] ==> IsWaiting() && state != Exited
    {
      WaitingTells();
      if AllDone(seen) {
        NothingIsOwed(seen, events, stages);
      }
    }

    method StepEvent()
      requires Valid()
      modifies this
      ensures Valid() && good == old(good) && (old(stopped) ==> stopped && err == old(err))
      ensures old(events) != [] ==> events == old(events[1..])
      ensures old(events) != [] && old(state) == Requesting ==>
                RequestingTo(old(events[0]), old(Now()), state, old(stages), stages)
      ensures old(events) != [] && old(state) == NoMorePeers ==> WaitingTo(old(events[0]), IsWaiting(), state)
    {
      hide Linked, Tracked, Counted, LoopOk, Truthful, RequestingTo, WaitingTo, IsWaiting;
      WhatIsStopped();
      if events != [] {
        if state == Requesting {
          StepRequesting(true);
        } else if state == NoMorePeers {
          StepNoMorePeers(false, true);
        } else if state == Stopped {
          StepStopped();
        }
      }
    }

    /**
     Any interleaving of the loop, the attempts, answers and cancellation; it succeeds only if some valid answer came,
     and it has stopped if it was cancelled.
     */
    method Run(steps: seq<Step>)
      requires Valid()
      modifies this
      ensures Valid() && (old(stopped) ==> stopped && err == old(err))
      ensures stopped && err == Success && old(good) == {} ==>
                exists i :: 0 <= i < |steps| && steps[i].Answer? && steps[i].valid
      ensures CancelRequest in steps ==> stopped
    {
      hide Linked, Tracked, Counted, LoopOk, Truthful, RequestingTo, WaitingTo, After, Updated, IsWaiting;
      for i := 0 to |steps|
        invariant Valid() && (old(stopped) ==> stopped && err == old(err))
        invariant good != old(good) ==> exists j :: 0 <= j < i && steps[j].Answer? && steps[j].valid
        invariant CancelRequest in steps[..i] ==> stopped
      {
        Take(steps[i]);
      }
    }

    /** What holds in every state of every run. */
    lemma Accounting()
      requires Valid()
      ensures lastReqQueued <==> exists a :: 0 <= a < |seen| && seen[a] == Queued
      ensures forall p: Peer :: lastReqSentTo == Some(p) <==> exists a :: 0 <= a < |seen| && seen[a] == Sent(p)
      ensures reqSrtoCount == |set a | 0 <= a < |seen| && seen[a].Soft?|
      ensures forall a, b :: 0 <= a < b < |seen| ==> !(Busy(seen[a]) && Busy(seen[b]))
      ensures IsWaiting() <==> exists a :: 0 <= a < |seen| && seen[a] != Done
      ensures state == Exited ==> events == [] && forall a :: 0 <= a < |stages| ==> stages[a].Ended? || stages[a].Gone?
      ensures stopped && err == Success ==> answered
    {
      assert Orderly(seen);
      CountersTell(seen, Now());
      CountsTheSoft(seen, 0);
      assert seen[0..] == seen;
      if state == Exited {
        NothingIsOwed(seen, events, stages);
        forall a | 0 <= a < |stages|
          ensures stages[a].Ended? || stages[a].Gone?
        {
          assert Reported(stages[a]) == Done;
        }
      }
    }
  }
}
