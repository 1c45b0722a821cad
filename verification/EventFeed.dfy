/**
 The event feed: a value is broadcast to all subscribed channels by trying and selecting over one slice of cases.
 A case that has been served is swapped behind the active prefix of the slice, and a subscriber that leaves in
 the middle is deleted by shifting the slice, both in place.
 */
module EventFeeds {

  /** A channel; the channel on which the feed itself receives removal requests is not one a subscriber can have. */
  type Channel = nat
  const REMOVE_SUB: Channel := 0

  // ----- case lists, in place -----

  function Deactivated(s: seq<Channel>, m: nat, index: nat): seq<Channel>
    requires index < m <= |s|
  {
    s[index := s[m - 1]][m - 1 := s[index]]
  }

  function Deleted(s: seq<Channel>, index: nat): seq<Channel>
    requires index < |s|
  {
    s[..index] + s[index + 1..]
  }

  /** The index of the first case with the given channel. */
  method Find(s: seq<Channel>, ch: Channel) returns (index: int)
    ensures -1 <= index < |s| && (index == -1 <==> ch !in s)
    ensures index >= 0 ==> s[index] == ch && ch !in s[..index]
  {
    index := 0;
    while index < |s|
      invariant 0 <= index <= |s| && ch !in s[..index]
    {
      if s[index] == ch {
        return;
      }
      index := index + 1;
    }
    index := -1;
  }

  /** Swaps a case of the slice of length `m` with its last case; the array is in use up to `n`. */
  method Deactivate(a: array<Channel>, n: nat, m: nat, index: nat)
    requires index < m <= n <= a.Length
    modifies a
    ensures a[..n] == Deactivated(old(a[..n]), m, index)
  {
    a[index], a[m - 1] := a[m - 1], a[index];
  }

  /** Shifts the cases after `index` of a slice of length `n` down by one. */
  method Delete(a: array<Channel>, n: nat, index: nat)
    requires index < n <= a.Length
    modifies a
    ensures a[..n - 1] == Deleted(old(a[..n]), index)
  {
    var i := index;
    while i < n - 1
      invariant index <= i <= n - 1
      invariant forall k :: 0 <= k < index ==> a[k] == old(a[k])
      invariant forall k :: index <= k < i ==> a[k] == old(a[k + 1])
      invariant forall k :: i < k < n ==> a[k] == old(a[k])
    {
      a[i] := a[i + 1];
      i := i + 1;
    }
  }

  // ----- active and served cases -----

  /** The cases before position `m` that are still to be sent to; position 0 is the removal channel. */
  ghost function Active(s: seq<Channel>, m: nat): multiset<Channel>
    requires 1 <= m <= |s|
  {
    multiset(s[1..m])
  }

  /** The cases that have been sent to. */
  ghost function Served(s: seq<Channel>, m: nat): multiset<Channel>
    requires m <= |s|
  {
    multiset(s[m..])
  }

  lemma ActiveAndServed(s: seq<Channel>, m: nat)
    requires 1 <= m <= |s|
    ensures Active(s, |s|) == Active(s, m) + Served(s, m)
  {
    assert s[1..|s|] == s[1..m] + s[m..];
  }

  /** A deactivation moves one case from the active to the served ones. */
  lemma DeactivateMoves(s: seq<Channel>, m: nat, index: nat)
    requires 1 <= index < m <= |s|
    ensures Active(s, m) == Active(Deactivated(s, m, index), m - 1) + multiset{s[index]}
    ensures Served(Deactivated(s, m, index), m - 1) == Served(s, m) + multiset{s[index]}
    ensures Deactivated(s, m, index)[..index] == s[..index]
  {
    var t := Deactivated(s, m, index);
    assert t[m - 1..] == [s[index]] + s[m..];
    if index == m - 1 {
      assert s[1..m] == t[1..m - 1] + [s[index]];
    } else {
      SwapInside(s, m, index);
    }
  }

  lemma SwapInside(s: seq<Channel>, m: nat, index: nat)
    requires 1 <= index < m - 1 < |s|
    ensures multiset(s[1..m]) == multiset(Deactivated(s, m, index)[1..m - 1]) + multiset{s[index]}
  {
    var t, front, mid := Deactivated(s, m, index), s[1..index], s[index + 1..m - 1];
    assert s[1..m] == front + [s[index]] + mid + [s[m - 1]];
    assert t[1..m - 1] == front + [s[m - 1]] + mid;
  }

  /** Deleting an active case takes it out of the active ones and leaves the served ones. */
  lemma DeleteActive(s: seq<Channel>, m: nat, index: nat)
    requires 1 <= index < m <= |s|
    ensures Active(s, m) == Active(Deleted(s, index), m - 1) + multiset{s[index]}
    ensures Served(Deleted(s, index), m - 1) == Served(s, m)
  {
    var t := Deleted(s, index);
    assert t[m - 1..] == s[m..];
    assert s[1..m] == s[1..index] + [s[index]] + s[index + 1..m];
    assert t[1..m - 1] == s[1..index] + s[index + 1..m];
  }

  /** Deleting a served case takes it out of the served ones and leaves the active ones. */
  lemma DeleteServed(s: seq<Channel>, m: nat, index: nat)
    requires 1 <= m <= index < |s|
    ensures Active(Deleted(s, index), m) == Active(s, m)
    ensures Served(s, m) == Served(Deleted(s, index), m) + multiset{s[index]}
  {
    var t := Deleted(s, index);
    assert t[1..m] == s[1..m];
    assert s[m..] == s[m..index] + [s[index]] + s[index + 1..];
    assert t[m..] == s[m..index] + s[index + 1..];
  }

  // ----- the feed -----

  /** The removal channel comes first and nowhere else. */
  ghost predicate CasesOk(s: seq<Channel>) {
    |s| > 0 && s[0] == REMOVE_SUB && forall i :: 1 <= i < |s| ==> s[i] != REMOVE_SUB
  }

  /**
   State of one pass over the active cases, from `s0` with `m0` of them: the first `i` have been tried in vain,
   `sent` have been tried and sent to, the others are still to come.
   */
  ghost predicate Pass(s0: seq<Channel>, m0: nat, s: seq<Channel>, m: nat, i: nat, failed: multiset<Channel>,
                       sent: multiset<Channel>) {
    && CasesOk(s) && |s| == |s0|
    && 1 <= i <= m <= m0 <= |s0|
    && failed == multiset(s[1..i])
    && |sent| == m0 - m
    && Active(s, m) + sent == Active(s0, m0)
    && Served(s, m) == Served(s0, m0) + sent
  }

  lemma PassSends(s0: seq<Channel>, m0: nat, s: seq<Channel>, m: nat, i: nat, failed: multiset<Channel>,
                  sent: multiset<Channel>)
    requires Pass(s0, m0, s, m, i, failed, sent) && i < m
    ensures Pass(s0, m0, Deactivated(s, m, i), m - 1, i, failed, sent + multiset{s[i]})
  {
    hide Active, Served;
    DeactivateMoves(s, m, i);
    assert Deactivated(s, m, i)[1..i] == s[1..i];
  }

  lemma PassHasCases(s0: seq<Channel>, m0: nat, s: seq<Channel>, m: nat, i: nat, failed: multiset<Channel>,
                     sent: multiset<Channel>)
    requires Pass(s0, m0, s, m, i, failed, sent)
    ensures 1 <= i <= m <= |s|
  {
  }

  lemma PassFails(s0: seq<Channel>, m0: nat, s: seq<Channel>, m: nat, i: nat, failed: multiset<Channel>,
                  sent: multiset<Channel>)
    requires Pass(s0, m0, s, m, i, failed, sent) && i < m
    ensures Pass(s0, m0, s, m, i + 1, failed + multiset{s[i]}, sent)
  {
    hide Active, Served;
    assert s[1..i + 1] == s[1..i] + [s[i]];
  }

  /** What became of the subscriptions so far: delivered to, left before the delivery, and left after it. */
  datatype Tally = Tally(delivered: multiset<Channel>, dropped: multiset<Channel>, late: multiset<Channel>)

  /** State of one Send that started with the subscriptions `start`. */
  ghost predicate Sending(start: multiset<Channel>, s: seq<Channel>, m: nat, nsent: nat, t: Tally) {
    && CasesOk(s)
    && 1 <= m <= |s|
    && nsent == |t.delivered|
    && Active(s, m) + t.delivered + t.dropped == start
    && Served(s, m) + t.late == t.delivered
  }

  lemma SendingBegins(s: seq<Channel>)
    requires CasesOk(s)
    ensures Sending(Active(s, |s|), s, |s|, 0, Tally(multiset{}, multiset{}, multiset{}))
  {
    assert s[|s|..] == [];
  }

  lemma SendingTries(start: multiset<Channel>, s0: seq<Channel>, m0: nat, nsent: nat, t: Tally,
                     s: seq<Channel>, m: nat, failed: multiset<Channel>, sent: multiset<Channel>)
    requires Sending(start, s0, m0, nsent, t) && Pass(s0, m0, s, m, m, failed, sent)
    ensures Sending(start, s, m, nsent + (m0 - m), t.(delivered := t.delivered + sent))
    ensures Active(s, |s|) == Active(s0, |s0|) && |s| == |s0| && m <= m0
  {
    ActiveAndServed(s, m);
    ActiveAndServed(s0, m0);
    hide Active, Served;
    assert Active(s, m) + (t.delivered + sent) + t.dropped == Active(s0, m0) + t.delivered + t.dropped;
  }

  lemma SendingServes(start: multiset<Channel>, s: seq<Channel>, m: nat, nsent: nat, t: Tally, chosen: nat)
    requires Sending(start, s, m, nsent, t) && 1 <= chosen < m
    ensures Sending(start, Deactivated(s, m, chosen), m - 1, nsent + 1,
              t.(delivered := t.delivered + multiset{s[chosen]}))
  {
    hide Active, Served;
    DeactivateMoves(s, m, chosen);
    assert CasesOk(Deactivated(s, m, chosen));
  }

  /** Deactivation only reorders the cases. */
  lemma DeactivateKeepsAll(s: seq<Channel>, m: nat, index: nat)
    requires 1 <= index < m <= |s|
    ensures Active(Deactivated(s, m, index), |s|) == Active(s, |s|)
  {
    DeactivateMoves(s, m, index);
    ActiveAndServed(s, m);
    ActiveAndServed(Deactivated(s, m, index), m - 1);
    hide Active, Served;
  }

  lemma SendingDrops(start: multiset<Channel>, s: seq<Channel>, m: nat, nsent: nat, t: Tally, index: nat)
    requires Sending(start, s, m, nsent, t) && 1 <= index < m
    ensures Sending(start, Deleted(s, index), m - 1, nsent, t.(dropped := t.dropped + multiset{s[index]}))
  {
    hide Active, Served;
    DeleteActive(s, m, index);
  }

  lemma SendingLoses(start: multiset<Channel>, s: seq<Channel>, m: nat, nsent: nat, t: Tally, index: nat)
    requires Sending(start, s, m, nsent, t) && m <= index < |s|
    ensures Sending(start, Deleted(s, index), m, nsent, t.(late := t.late + multiset{s[index]}))
  {
    hide Active, Served;
    DeleteServed(s, m, index);
  }

  lemma SendingEnds(start: multiset<Channel>, s: seq<Channel>, nsent: nat, t: Tally)
    requires Sending(start, s, 1, nsent, t)
    ensures nsent == |t.delivered| && t.delivered + t.dropped == start
    ensures t.late <= t.delivered && Active(s, |s|) == t.delivered - t.late
  {
    assert s[1..1] == [];
    assert s[1..|s|] == s[1..];
  }

  lemma SendingHasCases(start: multiset<Channel>, s: seq<Channel>, m: nat, nsent: nat, t: Tally)
    requires Sending(start, s, m, nsent, t)
    ensures CasesOk(s) && 1 <= m <= |s|
  {
  }

  lemma SubscribedIsFound(s: seq<Channel>, ch: Channel)
    requires CasesOk(s) && ch in Active(s, |s|)
    ensures ch in s && |s| > 0 && ch != s[0]
  {
    var i :| 0 <= i < |s[1..]| && s[1..][i] == ch;
  }

  /** The first case with channel `ch` is at `index`. */
  ghost predicate FirstAt(s: seq<Channel>, ch: Channel, index: nat) {
    index < |s| && s[index] == ch && ch !in s[..index]
  }

  lemma FirstIsSubscribed(s: seq<Channel>, ch: Channel, index: nat)
    requires CasesOk(s) && FirstAt(s, ch, index) && ch in Active(s, |s|)
    ensures 1 <= index < |s| && s[index] == ch
  {
    SubscribedIsFound(s, ch);
  }

  lemma DeleteSubscribed(s: seq<Channel>, leaving: multiset<Channel>, index: nat)
    requires CasesOk(s) && 1 <= index < |s|
    requires leaving + multiset{s[index]} <= Active(s, |s|)
    ensures CasesOk(Deleted(s, index)) && |Deleted(s, index)| == |s| - 1
    ensures Active(Deleted(s, index), |s| - 1) + multiset{s[index]} == Active(s, |s|)
    ensures leaving <= Active(Deleted(s, index), |s| - 1)
  {
    DeleteActive(s, |s|, index);
    hide Active;
    Cancel(leaving, Active(Deleted(s, index), |s| - 1), s[index]);
  }

  lemma AppendSubscribes(s: seq<Channel>, inbox: seq<Channel>)
    requires CasesOk(s) && REMOVE_SUB !in inbox
    ensures CasesOk(s + inbox) && Active(s + inbox, |s + inbox|) == Active(s, |s|) + multiset(inbox)
  {
    assert (s + inbox)[1..|s + inbox|] == s[1..|s|] + inbox;
  }

  lemma Cancel(a: multiset<Channel>, b: multiset<Channel>, ch: Channel)
    requires a + multiset{ch} <= b + multiset{ch}
    ensures a <= b
  {
    assert forall c :: c in a ==> (a + multiset{ch})[c] <= (b + multiset{ch})[c];
  }

  /** What others do during one round of Send: the inbox afterwards, and the removals that are asked for. */
  datatype Round = Round(inbox: seq<Channel>, requests: multiset<Channel>)

  /** All removals that are asked for. */
  ghost function Requests(rounds: seq<Round>): multiset<Channel> {
    if rounds == [] then multiset{} else Requests(rounds[..|rounds| - 1]) + rounds[|rounds| - 1].requests
  }

  lemma {:induction false} RequestsSoFar(rounds: seq<Round>, k: nat)
    requires k <= |rounds|
    ensures Requests(rounds[..k]) <= Requests(rounds)
    ensures k < |rounds| ==> Requests(rounds[..k + 1]) == Requests(rounds[..k]) + rounds[k].requests
    decreases |rounds|
  {
    if k == |rounds| {
      assert rounds[..k] == rounds;
    } else {
      RequestsSoFar(rounds[..|rounds| - 1], k);
      assert rounds[..|rounds| - 1][..k] == rounds[..k];
      assert rounds[..k + 1][..k] == rounds[..k];
    }
  }

  /** The removals of the first `k` rounds, or some of them, on top of those that waited before. */
  ghost predicate Collected(asked: multiset<Channel>, base: multiset<Channel>, rounds: seq<Round>, k: nat) {
    k <= |rounds| && base <= asked <= base + Requests(rounds[..k])
  }

  lemma NothingAsked(rounds: seq<Round>, leaving: multiset<Channel>)
    ensures Collected(leaving, leaving, rounds, 0)
    ensures Settled(Tally(multiset{}, multiset{}, multiset{}), leaving, leaving)
  {
  }

  lemma CollectMore(asked: multiset<Channel>, base: multiset<Channel>, rounds: seq<Round>, k: nat,
                    more: multiset<Channel>)
    requires Collected(asked, base, rounds, k) && k < |rounds| && more <= rounds[k].requests
    ensures Collected(asked + more, base, rounds, k + 1)
  {
    hide Requests;
    RequestsSoFar(rounds, k);
  }

  lemma SettledAsks(t: Tally, leaving: multiset<Channel>, asked: multiset<Channel>, more: multiset<Channel>)
    requires Settled(t, leaving, asked)
    ensures Settled(t, leaving + more, asked + more)
  {
    assert t.dropped + t.late + (leaving + more) == t.dropped + t.late + leaving + more;
  }

  lemma SettledStays(t: Tally, t': Tally, leaving: multiset<Channel>, asked: multiset<Channel>)
    requires t'.dropped == t.dropped && t'.late == t.late
    ensures Settled(t, leaving, asked) <==> Settled(t', leaving, asked)
    ensures Settled(t, leaving, t.dropped + t.late + leaving)
  {
  }

  lemma SettledReceives(t: Tally, leaving: multiset<Channel>, t': Tally, leaving': multiset<Channel>, ch: Channel)
    requires ch in leaving && leaving' == leaving - multiset{ch}
    requires t'.dropped + t'.late == t.dropped + t.late + multiset{ch}
    ensures Settled(t', leaving', t.dropped + t.late + leaving) && leaving' < leaving
  {
    assert leaving == leaving' + multiset{ch};
  }

  lemma SettledChains(t: Tally, leaving: multiset<Channel>, t': Tally, leaving': multiset<Channel>,
                      asked: multiset<Channel>)
    requires Settled(t, leaving, asked) && Settled(t', leaving', t.dropped + t.late + leaving)
    ensures Settled(t', leaving', asked)
  {
  }

  lemma NobodyLeft(t: Tally, leaving: multiset<Channel>, base: multiset<Channel>, asked: multiset<Channel>,
                   rounds: seq<Round>, k: nat, start: multiset<Channel>)
    requires Settled(t, leaving, asked) && Collected(asked, base, rounds, k) && t.delivered + t.dropped == start
    ensures base <= asked <= base + Requests(rounds)
    ensures base == multiset{} && Requests(rounds) == multiset{} ==> t.delivered - t.late == t.delivered == start
  {
    hide Requests;
    RequestsSoFar(rounds, k);
    if base == multiset{} && Requests(rounds) == multiset{} {
      assert asked == multiset{};
      assert forall c :: t.dropped[c] + t.late[c] <= (t.dropped + t.late + leaving)[c];
      assert t.dropped == multiset{} && t.late == multiset{};
    }
  }

  /** Every removal that was asked for is received or still waits. */
  ghost predicate Settled(t: Tally, leaving: multiset<Channel>, asked: multiset<Channel>) {
    t.dropped + t.late + leaving == asked
  }

  /** What the channels received is what has been tallied meanwhile. */
  ghost predicate Reached(got0: multiset<Channel>, t0: Tally, got: multiset<Channel>, t: Tally) {
    got + t0.delivered == got0 + t.delivered
  }

  lemma ReachedChains(base: multiset<Channel>, got0: multiset<Channel>, t0: Tally, got: multiset<Channel>, t: Tally)
    requires got0 == base + t0.delivered && Reached(got0, t0, got, t)
    ensures got == base + t.delivered
  {
    forall ch
      ensures got[ch] == (base + t.delivered)[ch]
    {
      assert (got + t0.delivered)[ch] == (got0 + t.delivered)[ch];
    }
  }

  /** Others have to do with channel `ch` during a Send. */
  ghost predicate Mentions(rounds: seq<Round>, ch: Channel) {
    exists k :: 0 <= k < |rounds| && (ch in rounds[k].inbox || ch in rounds[k].requests)
  }

  lemma {:induction false} RequestsAreMentioned(rounds: seq<Round>, ch: Channel)
    requires ch in Requests(rounds)
    ensures Mentions(rounds, ch)
  {
    var n := |rounds| - 1;
    if ch !in rounds[n].requests {
      RequestsAreMentioned(rounds[..n], ch);
      var k :| 0 <= k < n && (ch in rounds[..n][k].inbox || ch in rounds[..n][k].requests);
      assert ch in rounds[k].inbox || ch in rounds[k].requests;
    }
  }

  lemma OthersStay(a: multiset<Channel>, b: multiset<Channel>, ch: Channel)
    requires a + multiset{ch} == b
    ensures forall c :: c != ch ==> a[c] == b[c]
  {
    forall c | c != ch
      ensures a[c] == b[c]
    {
      assert (a + multiset{ch})[c] == a[c];
    }
  }

  lemma OneIsLeft(leaving: multiset<Channel>, subs: multiset<Channel>, ch: Channel)
    requires leaving <= subs
    ensures leaving + multiset{ch} <= subs <==> subs[ch] > leaving[ch]
  {
    assert (leaving + multiset{ch})[ch] == leaving[ch] + 1;
  }

  lemma WaitingWasAsked(t: Tally, leaving: multiset<Channel>, asked: multiset<Channel>, ch: Channel)
    requires Settled(t, leaving, asked) && ch !in asked
    ensures ch !in leaving
  {
    assert (t.dropped + t.late + leaving)[ch] == 0;
  }

  /** A channel that nobody asked to remove has been served as often as it was subscribed. */
  lemma UnaskedIsServed(t: Tally, leaving: multiset<Channel>, asked: multiset<Channel>, start: multiset<Channel>,
                        ch: Channel)
    requires Settled(t, leaving, asked) && t.delivered + t.dropped == start && ch !in asked
    ensures t.delivered[ch] == (t.delivered - t.late)[ch] == start[ch]
  {
    assert (t.dropped + t.late + leaving)[ch] == 0;
    assert (t.delivered + t.dropped)[ch] == start[ch];
  }

  lemma UnaskedAreServed(t: Tally, leaving: multiset<Channel>, asked: multiset<Channel>, start: multiset<Channel>,
                         stay: multiset<Channel>)
    requires Settled(t, leaving, asked) && t.delivered + t.dropped == start && stay == t.delivered - t.late
    ensures forall ch :: ch !in asked ==> t.delivered[ch] == stay[ch] == start[ch]
  {
    hide Settled;
    forall ch | ch !in asked
      ensures t.delivered[ch] == stay[ch] == start[ch]
    {
      UnaskedIsServed(t, leaving, asked, start, ch);
    }
  }

  /** What users do with the feed while no Send is running, and Send with what others do meanwhile. */
  datatype Step = Join(ch: Channel) | Leave(ch: Channel) | Finish(ch: Channel) | Broadcast(rounds: seq<Round>)

  /** The step has to do with the subscriptions of channel `ch`. */
  ghost predicate Concerns(step: Step, ch: Channel) {
    match step
    case Broadcast(rounds) => Mentions(rounds, ch)
    case _ => step.ch == ch
  }

  /** How many values the steps send. */
  ghost function Values(steps: seq<Step>): nat {
    if steps == [] then 0 else Values(steps[..|steps| - 1]) + if steps[|steps| - 1].Broadcast? then 1 else 0
  }

  /** The steps leave the subscriptions of channel `ch` alone. */
  ghost predicate Spares(steps: seq<Step>, ch: Channel) {
    forall i :: 0 <= i < |steps| ==> !Concerns(steps[i], ch)
  }

  lemma SparedBefore(steps: seq<Step>, i: nat, ch: Channel)
    requires i < |steps| && Spares(steps[..i + 1], ch)
    ensures Spares(steps[..i], ch) && !Concerns(steps[i], ch)
  {
    assert steps[..i + 1][i] == steps[i];
    forall j | 0 <= j < i
      ensures !Concerns(steps[..i][j], ch)
    {
      assert steps[..i + 1][j] == steps[..i][j];
    }
  }

  /** What `n` values are for a channel that is left alone: it is still subscribed and has received them. */
  ghost predicate LeftAlone(ch: Channel, leaving: multiset<Channel>, subs0: multiset<Channel>, subs: multiset<Channel>,
                            got0: multiset<Channel>, got: multiset<Channel>, n: nat) {
    ch !in leaving && subs[ch] == subs0[ch] && got[ch] == got0[ch] + n * subs0[ch]
  }

  lemma Unserved(leaving: multiset<Channel>, subs: multiset<Channel>, got: multiset<Channel>)
    ensures forall ch :: ch !in leaving ==> LeftAlone(ch, leaving, subs, subs, got, got, Values([]))
  {
  }

  lemma LeftAloneAgain(ch: Channel, leaving1: multiset<Channel>, leaving: multiset<Channel>,
                       subs0: multiset<Channel>, subs1: multiset<Channel>, subs: multiset<Channel>,
                       got0: multiset<Channel>, got1: multiset<Channel>, got: multiset<Channel>, steps: seq<Step>,
                       i: nat)
    requires i < |steps| && LeftAlone(ch, leaving1, subs0, subs1, got0, got1, Values(steps[..i]))
    requires ch !in leaving && subs[ch] == subs1[ch]
    requires got[ch] == got1[ch] + if steps[i].Broadcast? then subs1[ch] else 0
    ensures LeftAlone(ch, leaving, subs0, subs, got0, got, Values(steps[..i + 1]))
  {
    assert steps[..i + 1][..i] == steps[..i];
    var n := Values(steps[..i]);
    assert (n + 1) * subs0[ch] == n * subs0[ch] + subs0[ch];
  }

  lemma LeftAloneMeans(ch: Channel, leaving: multiset<Channel>, subs0: multiset<Channel>, subs: multiset<Channel>,
                       got0: multiset<Channel>, got: multiset<Channel>, n: nat)
    ensures LeftAlone(ch, leaving, subs0, subs, got0, got, n) ==>
              ch !in leaving && subs[ch] == subs0[ch] && got[ch] == got0[ch] + n * subs0[ch]
  {
  }

  class Feed {
    var buf: array<Channel>         // sendCases is buf[..len]
    var len: nat
    var inbox: seq<Channel>
    var leaving: multiset<Channel>  // removals blocked until Send receives them or releases its lock
    var got: multiset<Channel>      // what the channels have received, one entry for each value

    ghost predicate Valid()
      reads this, buf
    {
      && len <= buf.Length && CasesOk(buf[..len])
      && REMOVE_SUB !in inbox
      && leaving <= Active(buf[..len], len)
    }

    /** The subscriptions in sendCases. */
    ghost function Subscribed(): multiset<Channel>
      requires Valid()
      reads this, buf
    {
      Active(buf[..len], len)
    }

    /** The subscriptions, whether a Send knows them already or not. */
    ghost function Subscriptions(): multiset<Channel>
      requires Valid()
      reads this, buf
    {
      Subscribed() + multiset(inbox)
    }

    constructor ()
      ensures Valid() && fresh(buf)
      ensures buf[..len] == [REMOVE_SUB] && inbox == [] && leaving == got == multiset{}
    {
      buf := new Channel[1](_ => REMOVE_SUB);
      len, inbox, leaving, got := 1, [], multiset{}, multiset{};
    }

    method Subscribe(ch: Channel)
      requires Valid() && ch != REMOVE_SUB
      modifies `inbox
      ensures Valid() && inbox == old(inbox) + [ch] && Subscriptions() == old(Subscriptions()) + multiset{ch}
    {
      inbox := inbox + [ch];
    }

    /** Deletes the first case of `ch` from the cases. */
    method DeleteCase(ch: Channel) returns (index: nat)
      requires Valid() && leaving + multiset{ch} <= Subscribed()
      modifies `len, buf
      ensures Valid() && len == old(len) - 1 && Subscribed() + multiset{ch} == old(Subscribed())
      ensures 1 <= index < old(len) && FirstAt(old(buf[..len]), ch, index) && old(buf[..len])[index] == ch
      ensures buf[..len] == Deleted(old(buf[..len]), index)
    {
      hide CasesOk, Active, Deleted, FirstAt;
      ghost var s := buf[..len];
      index := FindCase(ch);
      FirstIsSubscribed(s, ch, index);
      DeleteSubscribed(s, leaving, index);
      Delete(buf, len, index);
      len := len - 1;
    }

    /** The index of the first case of a subscribed channel. */
    method FindCase(ch: Channel) returns (index: nat)
      requires Valid() && ch in Subscribed()
      ensures FirstAt(buf[..len], ch, index)
    {
      hide CasesOk, Active;
      SubscribedIsFound(buf[..len], ch);
      var i := Find(buf[..len], ch);
      index := i;
    }

    /** Removes a subscription of `ch` while no Send is running: from the inbox if one is there, else from the cases. */
    method Remove(ch: Channel)
      requires Valid() && ch != REMOVE_SUB
      requires ch in inbox || leaving + multiset{ch} <= Subscribed()
      modifies `inbox, `len, buf
      ensures Valid()
      ensures ch in old(inbox) ==>
                Subscribed() == old(Subscribed()) && multiset(inbox) + multiset{ch} == multiset(old(inbox))
      ensures ch !in old(inbox) ==> inbox == old(inbox) && Subscribed() + multiset{ch} == old(Subscribed())
    {
      var index := Find(inbox, ch);
      if index != -1 {
        assert inbox == inbox[..index] + [ch] + inbox[index + 1..];
        inbox := Deleted(inbox, index);
        return;
      }
      index := DeleteCase(ch);
    }

    /** A removal that is still blocked when Send releases its lock goes on alone. */
    method Unblock(ch: Channel)
      requires Valid() && ch in leaving
      modifies `leaving, `len, buf
      ensures Valid() && Subscriptions() + multiset{ch} == old(Subscriptions())
      ensures leaving + multiset{ch} == old(leaving)
    {
      hide CasesOk, Active;
      leaving := leaving - multiset{ch};
      var _ := DeleteCase(ch);
    }

    /**
     What other goroutines do between two steps: subscribe or leave from the inbox, and block on leaving from the
     cases, each subscription once.
     */
    method Interfere(round: Round) returns (ghost accepted: multiset<Channel>)
      requires Valid()
      modifies `inbox, `leaving
      ensures Valid() && leaving == old(leaving) + accepted && accepted <= round.requests
      ensures inbox == if REMOVE_SUB in round.inbox then old(inbox) else round.inbox
      ensures old(leaving) + round.requests <= Subscribed() ==> accepted == round.requests
    {
      if REMOVE_SUB !in round.inbox {
        inbox := round.inbox;
      }
      accepted := multiset{};
      assert buf[1..len] == buf[..len][1..len];
      if leaving + round.requests <= multiset(buf[1..len]) {
        leaving := leaving + round.requests;
        accepted := round.requests;
      }
    }

    /** A non-blocking send, which reaches the channel if its receiver is ready. */
    method TrySend(ch: Channel) returns (ok: bool)
      modifies `got
      ensures got == if ok then old(got) + multiset{ch} else old(got)
    {
      ok := *;
      if ok {
        got := got + multiset{ch};
      }
    }

    /** Tries each of the first `m0` cases once; returns how many of them are still active. */
    method TryAll(m0: nat) returns (m: nat, ghost failed: multiset<Channel>, ghost sent: multiset<Channel>)
      requires len <= buf.Length && CasesOk(buf[..len]) && 1 <= m0 <= len
      modifies `got, buf
      ensures Pass(old(buf[..len]), m0, buf[..len], m, m, failed, sent) && got == old(got) + sent
    {
      hide CasesOk, Active, Served, Deactivated;
      ghost var s0 := buf[..len];
      ghost var s := s0;
      m, failed, sent := m0, multiset{}, multiset{};
      var i: nat := 1;
      assert Pass(s0, m0, s, m, i, failed, sent);
      while i < m
        invariant buf[..len] == s && Pass(s0, m0, s, m, i, failed, sent) && got == old(got) + sent
        decreases m - i
      {
        PassHasCases(s0, m0, s, m, i, failed, sent);
        assert buf[i] == s[i];
        var ok := TrySend(buf[i]);
        if ok {
          PassSends(s0, m0, s, m, i, failed, sent);
          sent := sent + multiset{s[i]};
          Deactivate(buf, len, m, i);
          s := Deactivated(s, m, i);
          m := m - 1;
        } else {
          PassFails(s0, m0, s, m, i, failed, sent);
          failed := failed + multiset{s[i]};
          i := i + 1;
        }
      }
    }

    /** Moves the new subscriptions from the inbox to the cases. */
    method TakeInbox()
      requires Valid()
      modifies `buf, `len, `inbox
      ensures Valid() && fresh(buf) && inbox == []
      ensures buf[..len] == old(buf[..len] + inbox) && Subscribed() == old(Subscriptions())
    {
      var all := buf[..len] + inbox;
      AppendSubscribes(buf[..len], inbox);
      buf := new Channel[|all|](i requires 0 <= i < |all| => all[i]);
      len, inbox := |all|, [];
      assert buf[..len] == all;
    }

    /** Receives a removal: the first case of the channel goes, and `m` shrinks with it if that case was active. */
    method Receive(m0: nat, ch: Channel, ghost start: multiset<Channel>, nsent: nat, ghost t0: Tally)
      returns (m: nat, ghost t: Tally)
      requires Valid() && ch in leaving && Sending(start, buf[..len], m0, nsent, t0)
      modifies `len, `leaving, buf
      ensures Valid() && Sending(start, buf[..len], m, nsent, t) && len < old(len) && m <= m0
      ensures t.delivered == t0.delivered && t.dropped + t.late == t0.dropped + t0.late + multiset{ch}
      ensures leaving == old(leaving) - multiset{ch}
    {
      hide CasesOk, Active, Served, Deleted, Sending;
      ghost var s := buf[..len];
      leaving := leaving - multiset{ch};
      var index := DeleteCase(ch);
      if index < m0 {
        SendingDrops(start, s, m0, nsent, t0, index);
        m, t := m0 - 1, t0.(dropped := t0.dropped + multiset{ch});
      } else {
        SendingLoses(start, s, m0, nsent, t0, index);
        m, t := m0, t0.(late := t0.late + multiset{ch});
      }
    }

    /** Waits until a removal arrives or one of the active cases can be sent to. */
    method Select(m0: nat, ghost start: multiset<Channel>, nsent0: nat, ghost t0: Tally)
      returns (m: nat, nsent: nat, ghost t: Tally)
      requires Valid() && 1 < m0 <= len && Sending(start, buf[..len], m0, nsent0, t0)
      modifies `len, `leaving, `got, buf
      ensures Valid() && Sending(start, buf[..len], m, nsent, t) && len + m < old(len) + m0
      ensures Reached(old(got), t0, got, t)
      ensures Settled(t, leaving, t0.dropped + t0.late + old(leaving))
      ensures nsent == nsent0 ==> t.delivered == t0.delivered && leaving < old(leaving)
      ensures nsent != nsent0 ==>
                nsent == nsent0 + 1 && t.delivered > t0.delivered && t.dropped == t0.dropped && t.late == t0.late
    {
      hide CasesOk, Active, Served, Deactivated, Sending, Settled;
      ghost var s := buf[..len];
      var chosen: nat := *;
      if chosen == 0 && leaving != multiset{} {
        var ch :| ch in leaving;
        nsent := nsent0;
        m, t := Receive(m0, ch, start, nsent0, t0);
        SettledReceives(t0, old(leaving), t, leaving, ch);
      } else {
        chosen := if 1 <= chosen < m0 then chosen else 1;
        SendingServes(start, s, m0, nsent0, t0, chosen);
        DeactivateKeepsAll(s, m0, chosen);
        got := got + multiset{buf[chosen]};
        Deactivate(buf, len, m0, chosen);
        m, nsent, t := m0 - 1, nsent0 + 1, t0.(delivered := t0.delivered + multiset{s[chosen]});
        SendingHasCases(start, buf[..len], m, nsent, t);
        SettledStays(t0, t, leaving, t0.dropped + t0.late + leaving);
      }
    }

    /** Lets the others go first; `asked` collects the removals they ask for. */
    method Listen(rounds: seq<Round>, k0: nat, ghost base: multiset<Channel>, ghost asked0: multiset<Channel>,
                  ghost t: Tally)
      returns (k: nat, ghost asked: multiset<Channel>)
      requires Valid() && Settled(t, leaving, asked0) && Collected(asked0, base, rounds, k0)
      modifies `inbox, `leaving
      ensures Valid() && Settled(t, leaving, asked) && Collected(asked, base, rounds, k)
      ensures forall ch :: ch in inbox ==> ch in old(inbox) || Mentions(rounds, ch)
    {
      hide CasesOk, Active, Requests, Settled, Collected;
      k, asked := k0, asked0;
      if k < |rounds| {
        ghost var waiting := leaving;
        ghost var more := Interfere(rounds[k]);
        SettledAsks(t, waiting, asked, more);
        CollectMore(asked, base, rounds, k, more);
        asked, k := asked + more, k + 1;
      }
    }

    /**
     Delivers to every subscription exactly once, except to those that leave before: the deliveries and the dropped
     ones are the subscriptions at the start, `nsent` counts the deliveries, and those that did not leave stay.
     Nobody leaves without having asked: those dropped, those lost late and those that still wait to leave are `asked`,
     the removals that waited at the start and those of the others meanwhile.
     */
    method Send(rounds: seq<Round>) returns (nsent: nat, ghost t: Tally, ghost asked: multiset<Channel>)
      requires Valid()
      modifies this, buf
      ensures Valid() && fresh(buf)
      ensures t.delivered + t.dropped == old(Subscriptions())
      ensures got == old(got) + t.delivered && nsent == |t.delivered|
      ensures t.late <= t.delivered && Subscribed() == t.delivered - t.late
      ensures Settled(t, leaving, asked) && old(leaving) <= asked <= old(leaving) + Requests(rounds)
      ensures old(leaving) == Requests(rounds) == multiset{} ==> t.delivered == Subscribed() == old(Subscriptions())
      ensures forall ch :: ch !in asked ==> t.delivered[ch] == Subscribed()[ch] == old(Subscriptions())[ch]
      ensures forall ch :: ch in inbox ==> Mentions(rounds, ch)
    {
      hide CasesOk, Active, Sending, Requests, Settled, Collected, Mentions;
      TakeInbox();
      ghost var start, base, k := Subscribed(), leaving, 0;
      nsent, t, asked, k := SendToAll(rounds);
      SendingEnds(start, buf[..len], nsent, t);
      NobodyLeft(t, leaving, base, asked, rounds, k, start);
      UnaskedAreServed(t, leaving, asked, start, Subscribed());
    }

    /** Tries and selects until no case is active. */
    method SendToAll(rounds: seq<Round>)
      returns (nsent: nat, ghost t: Tally, ghost asked: multiset<Channel>, ghost k: nat)
      requires Valid()
      modifies `len, `inbox, `leaving, `got, buf
      ensures Valid() && Sending(old(Subscribed()), buf[..len], 1, nsent, t) && got == old(got) + t.delivered
      ensures Settled(t, leaving, asked) && Collected(asked, old(leaving), rounds, k)
      ensures forall ch :: ch in inbox ==> ch in old(inbox) || Mentions(rounds, ch)
    {
      hide CasesOk, Active, Served, Sending, Pass, Requests, Settled, Collected, Reached, Mentions;
      ghost var start, base, got0 := Subscribed(), leaving, got;
      nsent, t, asked := 0, Tally(multiset{}, multiset{}, multiset{}), leaving;
      SendingBegins(buf[..len]);
      NothingAsked(rounds, leaving);
      var m, next: nat := len, 0;
      while true
        invariant Valid() && got == got0 + t.delivered
        invariant forall ch :: ch in inbox ==> ch in old(inbox) || Mentions(rounds, ch)
        invariant Sending(start, buf[..len], m, nsent, t)
        invariant Settled(t, leaving, asked) && Collected(asked, base, rounds, next)
        decreases len + m
      {
        next, asked := Listen(rounds, next, base, asked, t);
        ghost var t0, waiting, before := t, leaving, got;
        m, nsent, t := TryOnce(m, start, nsent, t);
        ReachedChains(got0, before, t0, got, t);
        SettledStays(t0, t, leaving, asked);
        SendingHasCases(start, buf[..len], m, nsent, t);
        if m == 1 {
          break;
        }
        t0, before := t, got;
        m, nsent, t := Select(m, start, nsent, t);
        ReachedChains(got0, before, t0, got, t);
        SettledChains(t0, waiting, t, leaving, asked);
      }
      k := next;
    }

    method TryOnce(m0: nat, ghost start: multiset<Channel>, nsent0: nat, ghost t0: Tally)
      returns (m: nat, nsent: nat, ghost t: Tally)
      requires Valid() && Sending(start, buf[..len], m0, nsent0, t0)
      modifies `got, buf
      ensures Valid() && Sending(start, buf[..len], m, nsent, t) && m <= m0 && Reached(old(got), t0, got, t)
      ensures nsent == nsent0 + (m0 - m) && t.dropped == t0.dropped && t.late == t0.late && t0.delivered <= t.delivered
    {
      hide CasesOk, Active, Served, Sending, Pass;
      ghost var s := buf[..len];
      SendingHasCases(start, s, m0, nsent0, t0);
      ghost var failed, sent;
      m, failed, sent := TryAll(m0);
      SendingTries(start, s, m0, nsent0, t0, buf[..len], m, failed, sent);
      nsent, t := nsent0 + (m0 - m), t0.(delivered := t0.delivered + sent);
      SendingHasCases(start, buf[..len], m, nsent, t);
    }

    /** One step; a channel that it leaves alone stays subscribed and receives the value if there is one. */
    method Take(step: Step)
      requires Valid()
      modifies this, buf
      ensures Valid() && (buf == old(buf) || fresh(buf))
      ensures forall ch :: ch !in old(leaving) && !Concerns(step, ch) ==>
                && ch !in leaving && Subscriptions()[ch] == old(Subscriptions())[ch]
                && got[ch] == old(got)[ch] + if step.Broadcast? then old(Subscriptions())[ch] else 0
      ensures step.Join? && step.ch != REMOVE_SUB ==> Subscriptions() == old(Subscriptions()) + multiset{step.ch}
      ensures step.Leave? && old(Subscriptions())[step.ch] > old(leaving)[step.ch] ==>
                Subscriptions() + multiset{step.ch} == old(Subscriptions())
      ensures step.Finish? && step.ch in old(leaving) ==>
                && Subscriptions() + multiset{step.ch} == old(Subscriptions())
                && leaving + multiset{step.ch} == old(leaving)
    {
      hide Valid, Subscriptions, Mentions;
      match step {
        case Join(ch) =>
          if ch != REMOVE_SUB {
            Subscribe(ch);
            OthersStay(old(Subscriptions()), Subscriptions(), ch);
          }
        case Leave(ch) =>
          Unsubscribe(ch);
        case Finish(ch) =>
          if ch in leaving {
            Unblock(ch);
            OthersStay(Subscriptions(), old(Subscriptions()), ch);
            OthersStay(leaving, old(leaving), ch);
          }
        case Broadcast(rounds) =>
          Transmit(rounds);
      }
    }

    /** Removes a subscription of `ch` if there is one that nobody is removing. */
    method Unsubscribe(ch: Channel)
      requires Valid()
      modifies `inbox, `len, buf
      ensures Valid() && forall c :: c != ch ==> Subscriptions()[c] == old(Subscriptions())[c]
      ensures old(Subscriptions())[ch] > leaving[ch] ==> Subscriptions() + multiset{ch} == old(Subscriptions())
    {
      hide CasesOk, Active;
      NeverSubscribed();
      if ch != REMOVE_SUB && ch in inbox {
        Remove(ch);
        OthersStay(multiset(inbox), multiset(old(inbox)), ch);
      } else if ch != REMOVE_SUB {
        SubscribedCases();
        OneIsLeft(leaving, Subscribed(), ch);
        if leaving + multiset{ch} <= multiset(buf[..len][1..len]) {
          Remove(ch);
          OthersStay(Subscribed(), old(Subscribed()), ch);
        }
      }
    }

    lemma NeverSubscribed()
      requires Valid()
      ensures Subscriptions()[REMOVE_SUB] == 0
    {
      assert REMOVE_SUB !in buf[..len][1..len];
    }

    lemma SubscribedCases()
      requires Valid()
      ensures 1 <= len <= buf.Length && Subscribed() == multiset(buf[..len][1..len])
    {
    }

    method Transmit(rounds: seq<Round>)
      requires Valid()
      modifies this, buf
      ensures Valid() && fresh(buf)
      ensures forall ch :: ch !in old(leaving) && !Mentions(rounds, ch) ==>
                && ch !in leaving && Subscriptions()[ch] == old(Subscriptions())[ch]
                && got[ch] == old(got)[ch] + old(Subscriptions())[ch]
    {
      hide CasesOk, Active, Settled, Mentions, Requests;
      ghost var t, asked;
      var nsent;
      ghost var before := leaving;
      nsent, t, asked := Send(rounds);
      forall ch | ch !in before && !Mentions(rounds, ch)
        ensures ch !in asked && ch !in inbox && ch !in leaving
      {
        if ch in Requests(rounds) {
          RequestsAreMentioned(rounds, ch);
        }
        assert (before + Requests(rounds))[ch] == 0;
        WaitingWasAsked(t, leaving, asked, ch);
      }
    }

    /**
     In every run, a channel that nobody subscribes or removes meanwhile keeps its subscriptions and receives every
     value that is sent, once for each of them.
     */
    method Run(steps: seq<Step>)
      requires Valid()
      modifies this, buf
      ensures Valid() && (buf == old(buf) || fresh(buf))
      ensures forall ch :: ch !in old(leaving) && Spares(steps, ch) ==>
                && Subscriptions()[ch] == old(Subscriptions())[ch]
                && got[ch] == old(got)[ch] + Values(steps) * old(Subscriptions())[ch]
    {
      hide CasesOk, Active, Concerns, Valid, LeftAlone, Values;
      Unserved(leaving, Subscriptions(), got);
      for i := 0 to |steps|
        invariant Valid() && (buf == old(buf) || fresh(buf))
        invariant forall ch :: ch !in old(leaving) && Spares(steps[..i], ch) ==>
                    LeftAlone(ch, leaving, old(Subscriptions()), Subscriptions(), old(got), got, Values(steps[..i]))
      {
        ghost var leaving1, subs1, got1 := leaving, Subscriptions(), got;
        Take(steps[i]);
        forall ch | ch !in old(leaving) && Spares(steps[..i + 1], ch)
          ensures LeftAlone(ch, leaving, old(Subscriptions()), Subscriptions(), old(got), got, Values(steps[..i + 1]))
        {
          SparedBefore(steps, i, ch);
          LeftAloneMeans(ch, leaving1, old(Subscriptions()), subs1, old(got), got1, Values(steps[..i]));
          LeftAloneAgain(ch, leaving1, leaving, old(Subscriptions()), subs1, Subscriptions(), old(got), got1, got,
                         steps, i);
        }
      }
      assert steps[..|steps|] == steps;
      forall ch | ch !in old(leaving) && Spares(steps, ch)
        ensures Subscriptions()[ch] == old(Subscriptions())[ch]
        ensures got[ch] == old(got)[ch] + Values(steps) * old(Subscriptions())[ch]
      {
        LeftAloneMeans(ch, leaving, old(Subscriptions()), Subscriptions(), old(got), got, Values(steps));
      }
    }
  }
}
