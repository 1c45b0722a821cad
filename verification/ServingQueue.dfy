/**
 The request queue of a light server: tasks wait in a priority queue, the best one apart. When the expected serving
 time of what waits grows too large, the peers with the emptiest buffers are frozen and their tasks cancelled.
 */
module ServingQueues {
  import opened Options

  type Peer = nat

  /** A waiting task; a greater priority value is served first. */
  datatype Task = Task(id: nat, peer: Peer, priority: int, expTime: nat)

  // ----- expected time -----

  ghost function Pick(ts: multiset<Task>): (t: Task)
    requires ts != multiset{}
    ensures t in ts
  {
    var t :| t in ts;
    t
  }

  /** The sum of the expected times of a collection of tasks. */
  ghost function Time(ts: multiset<Task>): nat
    decreases |ts|
  {
    if ts == multiset{} then 0 else Pick(ts).expTime + Time(ts - multiset{Pick(ts)})
  }

  /** The sum does not depend on the order in which the tasks are taken. */
  lemma {:induction false} TimeOfOne(ts: multiset<Task>, t: Task)
    requires t in ts
    ensures Time(ts) == t.expTime + Time(ts - multiset{t})
    decreases |ts|
  {
    var x := Pick(ts);
    if x != t {
      TimeOfOne(ts - multiset{x}, t);
      TimeOfOne(ts - multiset{t}, x);
      assert ts - multiset{x} - multiset{t} == ts - multiset{t} - multiset{x};
    }
  }

  lemma {:induction false} TimeAdds(a: multiset<Task>, b: multiset<Task>)
    ensures Time(a + b) == Time(a) + Time(b)
    decreases |b|
  {
    if b == multiset{} {
      assert a + b == a;
    } else {
      var x := Pick(b);
      TimeOfOne(a + b, x);
      assert a + b - multiset{x} == a + (b - multiset{x});
      TimeAdds(a, b - multiset{x});
    }
  }

  lemma TimeOfSingle(t: Task)
    ensures Time(multiset{t}) == t.expTime
  {
    TimeOfOne(multiset{t}, t);
    assert multiset{t} - multiset{t} == multiset{};
  }

  // ----- tasks by peer -----

  datatype PeerTasks = PeerTasks(peer: Peer, ratio: real, sumTime: nat, list: seq<Task>)

  /** Buffer value and limit of a client, as reported by its flow control. */
  datatype Buffer = Buffer(value: nat, limit: nat)

  function Ratio(b: Buffer): real {
    b.value as real / (if b.limit < 1 then 1 else b.limit) as real
  }

  /** Buffer `a` is not fuller than `b`, each compared with its limit. */
  ghost predicate NoFuller(a: Buffer, b: Buffer) {
    a.value * (if b.limit < 1 then 1 else b.limit) <= b.value * if a.limit < 1 then 1 else a.limit
  }

  lemma RatioTellsFuller(a: Buffer, b: Buffer)
    ensures Ratio(a) <= Ratio(b) <==> NoFuller(a, b)
    ensures a.limit == b.limit ==> (Ratio(a) <= Ratio(b) <==> a.value <= b.value)
  {
    var la, lb := if a.limit < 1 then 1 else a.limit, if b.limit < 1 then 1 else b.limit;
    Quotients(a.value, la, b.value, lb);
    assert la == lb ==> (a.value * lb <= b.value * la <==> a.value <= b.value);
  }

  lemma Quotients(x: nat, y: nat, z: nat, w: nat)
    requires y > 0 && w > 0
    ensures x as real / y as real <= z as real / w as real <==> x * w <= z * y
  {
    var a, b := x as real / y as real, z as real / w as real;
    assert a * y as real == x as real && b * w as real == z as real;
    assert (x * w) as real == a * (y as real * w as real);
    assert (z * y) as real == b * (y as real * w as real);
  }

  ghost predicate GroupOk(g: PeerTasks, buffer: Peer -> Buffer) {
    && g.list != []
    && g.sumTime == Time(multiset(g.list))
    && g.ratio == Ratio(buffer(g.peer))
    && forall t :: t in g.list ==> t.peer == g.peer
  }

  ghost predicate GroupsOk(gs: seq<PeerTasks>, buffer: Peer -> Buffer) {
    && (forall i :: 0 <= i < |gs| ==> GroupOk(gs[i], buffer))
    && (forall i, j :: 0 <= i < j < |gs| ==> gs[i].peer != gs[j].peer)
  }

  ghost function AllTasks(gs: seq<PeerTasks>): multiset<Task> {
    if gs == [] then multiset{} else multiset(gs[0].list) + AllTasks(gs[1..])
  }

  function TotalTime(gs: seq<PeerTasks>): nat {
    if gs == [] then 0 else gs[0].sumTime + TotalTime(gs[1..])
  }

  lemma {:induction false} AllTasksAdd(a: seq<PeerTasks>, b: seq<PeerTasks>)
    ensures AllTasks(a + b) == AllTasks(a) + AllTasks(b)
  {
    if a == [] {
      assert a + b == b;
    } else {
      assert (a + b)[1..] == a[1..] + b;
      AllTasksAdd(a[1..], b);
    }
  }

  lemma AllTasksOfOne(g: PeerTasks)
    ensures AllTasks([g]) == multiset(g.list)
  {
    assert AllTasks([g]) == multiset(g.list) + AllTasks([]);
  }

  lemma {:induction false} TimeOfGroups(gs: seq<PeerTasks>, buffer: Peer -> Buffer)
    requires GroupsOk(gs, buffer)
    ensures TotalTime(gs) == Time(AllTasks(gs))
  {
    if gs != [] {
      assert GroupsOk(gs[1..], buffer);
      TimeOfGroups(gs[1..], buffer);
      TimeAdds(multiset(gs[0].list), AllTasks(gs[1..]));
    }
  }

  /** A task belongs to the group of its peer. */
  lemma {:induction false} InItsGroup(gs: seq<PeerTasks>, buffer: Peer -> Buffer, t: Task)
    requires GroupsOk(gs, buffer) && t in AllTasks(gs)
    ensures exists i :: 0 <= i < |gs| && gs[i].peer == t.peer
  {
    if t in gs[0].list {
      assert gs[0].peer == t.peer;
    } else {
      assert GroupsOk(gs[1..], buffer);
      InItsGroup(gs[1..], buffer, t);
      var i :| 0 <= i < |gs[1..]| && gs[1..][i].peer == t.peer;
      assert gs[i + 1].peer == t.peer;
    }
  }

  lemma Swapped(gs: seq<PeerTasks>, i: nat, g: PeerTasks)
    requires i < |gs|
    ensures AllTasks(gs[i := g]) + multiset(gs[i].list) == AllTasks(gs) + multiset(g.list)
  {
    var front, back := gs[..i], gs[i + 1..];
    assert gs == front + [gs[i]] + back && gs[i := g] == front + [g] + back;
    AllTasksAdd(front + [gs[i]], back);
    AllTasksAdd(front, [gs[i]]);
    AllTasksAdd(front + [g], back);
    AllTasksAdd(front, [g]);
    AllTasksOfOne(g);
    AllTasksOfOne(gs[i]);
  }

  ghost predicate ByRatio(gs: seq<PeerTasks>) {
    forall i, j :: 0 <= i < j < |gs| ==> gs[i].ratio <= gs[j].ratio
  }

  /** Sorts the groups by buffer ratio, the emptiest buffers first. */
  method SortByRatio(gs: seq<PeerTasks>, ghost buffer: Peer -> Buffer) returns (sorted: seq<PeerTasks>)
    requires GroupsOk(gs, buffer)
    ensures ByRatio(sorted) && multiset(sorted) == multiset(gs)
    ensures GroupsOk(sorted, buffer) && AllTasks(sorted) == AllTasks(gs)
  {
    NoGroups(buffer);
    hide GroupsOk, AllTasks, ByRatio;
    sorted := [];
    assert gs[..0] == [];
    for i := 0 to |gs|
      invariant ByRatio(sorted) && multiset(sorted) == multiset(gs[..i])
      invariant AllTasks(sorted) == AllTasks(gs[..i])
    {
      assert gs[..i + 1] == gs[..i] + [gs[i]];
      AllTasksAdd(gs[..i], [gs[i]]);
      AllTasksOfOne(gs[i]);
      sorted := Insert(sorted, gs[i]);
    }
    assert gs[..|gs|] == gs;
    SameGroups(gs, sorted, buffer);
  }

  method Insert(gs: seq<PeerTasks>, g: PeerTasks) returns (r: seq<PeerTasks>)
    requires ByRatio(gs)
    ensures ByRatio(r) && multiset(r) == multiset(gs) + multiset{g}
    ensures AllTasks(r) == AllTasks(gs) + multiset(g.list)
  {
    var k := 0;
    while k < |gs| && gs[k].ratio <= g.ratio
      invariant 0 <= k <= |gs|
      invariant forall j :: 0 <= j < k ==> gs[j].ratio <= g.ratio
    {
      k := k + 1;
    }
    r := gs[..k] + [g] + gs[k..];
    Inserted(gs, k, g);
    assert ByRatio(r) by {
      hide AllTasks;
      if k < |gs| {
        assert forall j :: k <= j < |gs| ==> g.ratio <= gs[k].ratio <= gs[j].ratio;
      }
    }
  }

  lemma Inserted(gs: seq<PeerTasks>, k: nat, g: PeerTasks)
    requires k <= |gs|
    ensures multiset(gs[..k] + [g] + gs[k..]) == multiset(gs) + multiset{g}
    ensures AllTasks(gs[..k] + [g] + gs[k..]) == AllTasks(gs) + multiset(g.list)
  {
    hide AllTasks;
    var front, back := gs[..k], gs[k..];
    assert gs == front + back;
    AllTasksAdd(front + [g], back);
    AllTasksAdd(front, [g]);
    AllTasksOfOne(g);
    AllTasksAdd(front, back);
  }

  /** A reordering of groups with one group per peer has one group per peer. */
  lemma SameGroups(gs: seq<PeerTasks>, hs: seq<PeerTasks>, buffer: Peer -> Buffer)
    requires GroupsOk(gs, buffer) && multiset(hs) == multiset(gs)
    ensures GroupsOk(hs, buffer)
  {
    forall i | 0 <= i < |hs|
      ensures GroupOk(hs[i], buffer)
    {
      assert hs[i] in multiset(hs);
      assert hs[i] in gs;
    }
    forall i, j | 0 <= i < j < |hs|
      ensures hs[i].peer != hs[j].peer
    {
      assert hs[i] in multiset(gs) && hs[j] in multiset(gs);
      var a :| 0 <= a < |gs| && gs[a] == hs[i];
      var b :| 0 <= b < |gs| && gs[b] == hs[j];
      if hs[i] == hs[j] {
        TwiceIn(hs, i, j);
        OnceIn(gs, a);
      }
    }
  }

  lemma TwiceIn(hs: seq<PeerTasks>, i: nat, j: nat)
    requires i < j < |hs| && hs[i] == hs[j]
    ensures multiset(hs)[hs[i]] >= 2
  {
    assert hs == hs[..j] + [hs[j]] + hs[j + 1..];
    assert hs[i] in hs[..j];
  }

  lemma OnceIn(gs: seq<PeerTasks>, a: nat)
    requires a < |gs| && forall i, j :: 0 <= i < j < |gs| ==> gs[i].peer != gs[j].peer
    ensures multiset(gs)[gs[a]] == 1
  {
    assert gs == gs[..a] + [gs[a]] + gs[a + 1..];
    assert gs[a] !in gs[..a] && gs[a] !in gs[a + 1..];
  }

  ghost predicate IndexesGroups(peerMap: map<Peer, nat>, gs: seq<PeerTasks>) {
    && (forall p :: p in peerMap ==> peerMap[p] < |gs| && gs[peerMap[p]].peer == p)
    && (forall i :: 0 <= i < |gs| ==> gs[i].peer in peerMap)
  }

  lemma Cancel(a: multiset<Task>, b: multiset<Task>, c: multiset<Task>)
    requires a + c == b + c
    ensures a == b
  {
    assert a == a + c - c;
    assert b == b + c - c;
  }

  lemma NoGroups(buffer: Peer -> Buffer)
    ensures GroupsOk([], buffer) && AllTasks([]) == multiset{} && ByRatio([])
  {
  }

  function NewGroup(t: Task, buffer: Peer -> Buffer): (g: PeerTasks)
    ensures g.peer == t.peer
  {
    PeerTasks(t.peer, Ratio(buffer(t.peer)), t.expTime, [t])
  }

  function Grown(g: PeerTasks, t: Task): (r: PeerTasks)
    ensures r.peer == g.peer
  {
    g.(list := g.list + [t], sumTime := g.sumTime + t.expTime)
  }

  lemma NewGroupOk(t: Task, buffer: Peer -> Buffer)
    ensures GroupOk(NewGroup(t, buffer), buffer) && multiset(NewGroup(t, buffer).list) == multiset{t}
  {
    TimeOfSingle(t);
    assert multiset([t]) == multiset{t};
  }

  lemma GrownOk(g: PeerTasks, t: Task, buffer: Peer -> Buffer)
    requires GroupOk(g, buffer) && t.peer == g.peer
    ensures GroupOk(Grown(g, t), buffer) && multiset(Grown(g, t).list) == multiset(g.list) + multiset{t}
  {
    assert multiset(g.list + [t]) == multiset(g.list) + multiset{t};
    TimeAdds(multiset(g.list), multiset{t});
    TimeOfSingle(t);
  }

  lemma GroupAppends(gs: seq<PeerTasks>, buffer: Peer -> Buffer, peerMap: map<Peer, nat>, t: Task)
    requires GroupsOk(gs, buffer) && IndexesGroups(peerMap, gs) && t.peer !in peerMap
    ensures GroupsOk(gs + [NewGroup(t, buffer)], buffer)
    ensures IndexesGroups(peerMap[t.peer := |gs|], gs + [NewGroup(t, buffer)])
    ensures AllTasks(gs + [NewGroup(t, buffer)]) == AllTasks(gs) + multiset{t}
  {
    hide GroupOk, AllTasks, NewGroup;
    var g := NewGroup(t, buffer);
    NewGroupOk(t, buffer);
    AllTasksAdd(gs, [g]);
    AllTasksOfOne(g);
  }

  lemma GroupGrows(gs: seq<PeerTasks>, buffer: Peer -> Buffer, peerMap: map<Peer, nat>, i: nat, t: Task)
    requires GroupsOk(gs, buffer) && IndexesGroups(peerMap, gs) && i < |gs| && gs[i].peer == t.peer
    ensures GroupsOk(gs[i := Grown(gs[i], t)], buffer) && IndexesGroups(peerMap, gs[i := Grown(gs[i], t)])
    ensures AllTasks(gs[i := Grown(gs[i], t)]) == AllTasks(gs) + multiset{t}
  {
    hide GroupOk, AllTasks, Grown;
    GrownOk(gs[i], t, buffer);
    Swapped(gs, i, Grown(gs[i], t));
    Cancel(AllTasks(gs[i := Grown(gs[i], t)]), AllTasks(gs) + multiset{t}, multiset(gs[i].list));
  }

  // ----- shedding -----

  function Peers(gs: seq<PeerTasks>): (ps: seq<Peer>)
    ensures |ps| == |gs| && forall i :: 0 <= i < |gs| ==> ps[i] == gs[i].peer
  {
    if gs == [] then [] else [gs[0].peer] + Peers(gs[1..])
  }

  /** The first `k` of `i` groups have been dropped, the others put back into the queue. */
  ghost predicate Shed(gs: seq<PeerTasks>, k: nat, i: nat, frozen: seq<Peer>, cancelled: seq<Task>, queue: seq<Task>,
                       queuedTime: nat) {
    && k <= i <= |gs|
    && frozen == Peers(gs[..k])
    && multiset(cancelled) == AllTasks(gs[..k])
    && multiset(queue) == AllTasks(gs[k..i])
    && queuedTime == TotalTime(gs[k..])
  }

  lemma ShedBegins(gs: seq<PeerTasks>)
    ensures Shed(gs, 0, 0, [], [], [], TotalTime(gs))
  {
    assert gs[0..] == gs && gs[..0] == [] && gs[0..0] == [];
  }

  lemma ShedDrops(gs: seq<PeerTasks>, k: nat, frozen: seq<Peer>, cancelled: seq<Task>, queue: seq<Task>,
                  queuedTime: nat)
    requires Shed(gs, k, k, frozen, cancelled, queue, queuedTime) && k < |gs|
    ensures gs[k].sumTime <= queuedTime
    ensures Shed(gs, k + 1, k + 1, frozen + [gs[k].peer], cancelled + gs[k].list, queue, queuedTime - gs[k].sumTime)
  {
    assert gs[k..][1..] == gs[k + 1..];
    assert gs[..k + 1] == gs[..k] + [gs[k]];
    AllTasksAdd(gs[..k], [gs[k]]);
    AllTasksOfOne(gs[k]);
    assert gs[k..k] == [] && gs[k + 1..k + 1] == [];
    assert Peers(gs[..k + 1]) == Peers(gs[..k]) + [gs[k].peer];
  }

  lemma ShedKeeps(gs: seq<PeerTasks>, k: nat, i: nat, frozen: seq<Peer>, cancelled: seq<Task>, queue: seq<Task>,
                  queuedTime: nat)
    requires Shed(gs, k, i, frozen, cancelled, queue, queuedTime) && i < |gs|
    ensures Shed(gs, k, i + 1, frozen, cancelled, queue + gs[i].list, queuedTime)
  {
    assert gs[k..i + 1] == gs[k..i] + [gs[i]];
    AllTasksAdd(gs[k..i], [gs[i]]);
    AllTasksOfOne(gs[i]);
  }

  /** The tasks of the groups from `i` to `j` belong to the peers of these groups. */
  lemma TasksOfGroups(gs: seq<PeerTasks>, buffer: Peer -> Buffer, i: nat, j: nat, t: Task)
    requires GroupsOk(gs, buffer) && i <= j <= |gs| && t in AllTasks(gs[i..j])
    ensures exists k :: i <= k < j && gs[k].peer == t.peer
  {
    assert GroupsOk(gs[i..j], buffer);
    InItsGroup(gs[i..j], buffer, t);
    var k :| 0 <= k < |gs[i..j]| && gs[i..j][k].peer == t.peer;
    assert gs[i + k].peer == t.peer;
  }

  /** All tasks of the frozen peers are cancelled, at least one each, and no others. */
  ghost predicate WholePeers(kept: multiset<Task>, frozen: seq<Peer>, cancelled: seq<Task>) {
    && (forall t :: t in cancelled ==> t.peer in frozen)
    && (forall t :: t in kept ==> t.peer !in frozen)
    && (forall i :: 0 <= i < |frozen| ==> exists t :: t in cancelled && t.peer == frozen[i])
  }

  /** The peers with the lowest ratios are frozen, in this order and once each. */
  ghost predicate LowestFirst(kept: multiset<Task>, frozen: seq<Peer>, buffer: Peer -> Buffer) {
    && (forall i, j :: 0 <= i < j < |frozen| ==>
          frozen[i] != frozen[j] && Ratio(buffer(frozen[i])) <= Ratio(buffer(frozen[j])))
    && (forall i, t :: 0 <= i < |frozen| && t in kept ==> Ratio(buffer(frozen[i])) <= Ratio(buffer(t.peer)))
  }

  /** What the order of freezing means for the buffers. */
  lemma LowestIsEmptiest(kept: multiset<Task>, frozen: seq<Peer>, buffer: Peer -> Buffer)
    requires LowestFirst(kept, frozen, buffer)
    ensures forall i, j :: 0 <= i < j < |frozen| ==> NoFuller(buffer(frozen[i]), buffer(frozen[j]))
    ensures forall p, t :: p in frozen && t in kept ==> NoFuller(buffer(p), buffer(t.peer))
  {
    forall i, j | 0 <= i < j < |frozen|
      ensures NoFuller(buffer(frozen[i]), buffer(frozen[j]))
    {
      RatioTellsFuller(buffer(frozen[i]), buffer(frozen[j]));
    }
    forall p, t | p in frozen && t in kept
      ensures NoFuller(buffer(p), buffer(t.peer))
    {
      var i :| 0 <= i < |frozen| && frozen[i] == p;
      RatioTellsFuller(buffer(frozen[i]), buffer(t.peer));
    }
  }

  lemma ShedTime(gs: seq<PeerTasks>, buffer: Peer -> Buffer, k: nat, frozen: seq<Peer>, cancelled: seq<Task>,
                 queue: seq<Task>, queuedTime: nat)
    requires GroupsOk(gs, buffer) && Shed(gs, k, |gs|, frozen, cancelled, queue, queuedTime)
    ensures queuedTime == Time(multiset(queue)) && multiset(cancelled) + multiset(queue) == AllTasks(gs)
  {
    hide GroupOk, AllTasks, TotalTime;
    assert gs == gs[..k] + gs[k..|gs|] && gs[k..] == gs[k..|gs|];
    AllTasksAdd(gs[..k], gs[k..|gs|]);
    assert GroupsOk(gs[k..], buffer);
    TimeOfGroups(gs[k..], buffer);
  }

  lemma CancelledIsFrozen(gs: seq<PeerTasks>, buffer: Peer -> Buffer, k: nat, t: Task)
    requires GroupsOk(gs, buffer) && k <= |gs| && t in AllTasks(gs[..k])
    ensures t.peer in Peers(gs[..k])
  {
    hide GroupsOk, AllTasks;
    assert gs[0..k] == gs[..k];
    TasksOfGroups(gs, buffer, 0, k, t);
    var j :| 0 <= j < k && gs[j].peer == t.peer;
    assert Peers(gs[..k])[j] == t.peer;
  }

  lemma KeptIsNotFrozen(gs: seq<PeerTasks>, buffer: Peer -> Buffer, k: nat, t: Task)
    requires GroupsOk(gs, buffer) && ByRatio(gs) && k <= |gs| && t in AllTasks(gs[k..|gs|])
    ensures t.peer !in Peers(gs[..k])
    ensures forall i :: 0 <= i < k ==> Ratio(buffer(gs[i].peer)) <= Ratio(buffer(t.peer))
  {
    TasksOfGroups(gs, buffer, k, |gs|, t);
    hide AllTasks, Ratio;
    var j :| k <= j < |gs| && gs[j].peer == t.peer;
    assert GroupOk(gs[j], buffer);
  }

  lemma FrozenHadTasks(gs: seq<PeerTasks>, buffer: Peer -> Buffer, k: nat, cancelled: seq<Task>, i: nat)
    requires GroupsOk(gs, buffer) && i < k <= |gs| && multiset(cancelled) == AllTasks(gs[..k])
    ensures exists t :: t in cancelled && t.peer == gs[i].peer
  {
    GroupIsIn(gs[..k], i);
    hide AllTasks;
    var t := gs[i].list[0];
    assert t in gs[i].list && GroupOk(gs[i], buffer);
    assert t in multiset(gs[i].list);
    assert t in multiset(cancelled);
  }

  lemma ShedWholePeers(gs: seq<PeerTasks>, buffer: Peer -> Buffer, k: nat, kept: multiset<Task>, frozen: seq<Peer>,
                       cancelled: seq<Task>)
    requires GroupsOk(gs, buffer) && ByRatio(gs) && k <= |gs| && frozen == Peers(gs[..k])
    requires multiset(cancelled) == AllTasks(gs[..k]) && kept == AllTasks(gs[k..|gs|])
    ensures WholePeers(kept, frozen, cancelled)
  {
    hide AllTasks, GroupsOk, ByRatio;
    forall t | t in cancelled
      ensures t.peer in frozen
    {
      assert t in multiset(cancelled);
      CancelledIsFrozen(gs, buffer, k, t);
    }
    forall t | t in kept
      ensures t.peer !in frozen
    {
      KeptIsNotFrozen(gs, buffer, k, t);
    }
    forall i | 0 <= i < |frozen|
      ensures exists t :: t in cancelled && t.peer == frozen[i]
    {
      FrozenHadTasks(gs, buffer, k, cancelled, i);
    }
  }

  lemma ShedLowestFirst(gs: seq<PeerTasks>, buffer: Peer -> Buffer, k: nat, kept: multiset<Task>, frozen: seq<Peer>)
    requires GroupsOk(gs, buffer) && ByRatio(gs) && k <= |gs| && frozen == Peers(gs[..k])
    requires kept == AllTasks(gs[k..|gs|])
    ensures LowestFirst(kept, frozen, buffer)
  {
    hide AllTasks, Ratio;
    forall i, j | 0 <= i < j < |frozen|
      ensures frozen[i] != frozen[j] && Ratio(buffer(frozen[i])) <= Ratio(buffer(frozen[j]))
    {
      assert GroupOk(gs[i], buffer) && GroupOk(gs[j], buffer);
    }
    forall i, t | 0 <= i < |frozen| && t in kept
      ensures Ratio(buffer(frozen[i])) <= Ratio(buffer(t.peer))
    {
      KeptIsNotFrozen(gs, buffer, k, t);
    }
  }

  /** The tasks of one peer. */
  ghost predicate TasksOf(part: multiset<Task>, all: multiset<Task>, p: Peer) {
    forall t :: part[t] == if t.peer == p then all[t] else 0
  }

  lemma LastGroup(gs: seq<PeerTasks>, buffer: Peer -> Buffer, k: nat)
    requires GroupsOk(gs, buffer) && 0 < k <= |gs|
    ensures TasksOf(multiset(gs[k - 1].list), AllTasks(gs[..k]), gs[k - 1].peer)
  {
    hide AllTasks;
    var front, g := gs[..k - 1], gs[k - 1];
    assert gs[..k] == front + [g];
    AllTasksAdd(front, [g]);
    AllTasksOfOne(g);
    forall t: Task
      ensures multiset(g.list)[t] == if t.peer == g.peer then AllTasks(gs[..k])[t] else 0
    {
      assert t in multiset(g.list) ==> t.peer == g.peer by {
        assert GroupOk(g, buffer);
      }
      if t in AllTasks(front) {
        assert gs[0..k - 1] == front;
        TasksOfGroups(gs, buffer, 0, k - 1, t);
      }
    }
  }

  lemma Settle(gs: seq<PeerTasks>, buffer: Peer -> Buffer, k: nat, frozen: seq<Peer>, cancelled: seq<Task>,
               queue: seq<Task>, queuedTime: nat)
    requires GroupsOk(gs, buffer) && ByRatio(gs) && Shed(gs, k, |gs|, frozen, cancelled, queue, queuedTime)
    ensures WholePeers(multiset(queue), frozen, cancelled) && LowestFirst(multiset(queue), frozen, buffer)
    ensures |frozen| == k <= |gs| && (k > 0 ==> frozen[k - 1] == gs[k - 1].peer)
    ensures k > 0 ==>
              && TasksOf(multiset(gs[k - 1].list), multiset(cancelled), gs[k - 1].peer)
              && Time(multiset(gs[k - 1].list)) == gs[k - 1].sumTime
    ensures queuedTime == Time(multiset(queue)) && multiset(cancelled) + multiset(queue) == AllTasks(gs)
    ensures (k == |gs| ==> multiset(queue) == multiset{}) && (gs == [] ==> AllTasks(gs) == multiset{})
  {
    ShedTime(gs, buffer, k, frozen, cancelled, queue, queuedTime);
    ShedWholePeers(gs, buffer, k, multiset(queue), frozen, cancelled);
    ShedLowestFirst(gs, buffer, k, multiset(queue), frozen);
    hide WholePeers, LowestFirst, ByRatio;
    if k > 0 {
      LastGroup(gs, buffer, k);
      assert GroupOk(gs[k - 1], buffer);
    }
    assert k == |gs| ==> gs[k..|gs|] == [];
  }

  lemma {:induction false} GroupIsIn(gs: seq<PeerTasks>, i: nat)
    requires i < |gs|
    ensures multiset(gs[i].list) <= AllTasks(gs)
  {
    if i > 0 {
      GroupIsIn(gs[1..], i - 1);
    }
  }

  // ----- the queue -----

  ghost function Bag(best: Option<Task>, queue: seq<Task>): multiset<Task> {
    multiset(queue) + if best.Some? then multiset{best.value} else multiset{}
  }

  function Monus(a: nat, b: nat): nat {
    if a > b then a - b else 0
  }

  /** The serving time that is forgotten in a time `dt`; a clock that does not advance forgets nothing. */
  function Decay(dt: int, rate: real): nat
    requires rate >= 0.0
  {
    if dt > 0 then (dt as real * rate).Floor else 0
  }

  /** The recent time falls by what the clock allows, rounded down, and not below zero. */
  lemma DecayIsFloor(time: nat, saved: nat, dt: int, rate: real)
    requires rate >= 0.0
    ensures dt <= 0 ==> Decay(dt, rate) == 0
    ensures dt > 0 ==> Decay(dt, rate) as real <= dt as real * rate < Decay(dt, rate) as real + 1.0
    ensures Monus(time, saved) + saved >= time && (Monus(time, saved) > 0 ==> Monus(time, saved) + saved == time)
  {
  }

  class ServingQueue {
    var recentTime: nat
    var queuedTime: nat
    var servingTimeDiff: nat
    var lastUpdate: int
    const burstLimit: nat
    const burstDropLimit: nat
    const burstDecRate: real
    var queue: seq<Task>
    var best: Option<Task>

    ghost function Waiting(): multiset<Task>
      reads `queue, `best
    {
      Bag(best, queue)
    }

    /** The best task is set aside, and no waiting task has a higher priority. */
    ghost predicate BestIsBest()
      reads `queue, `best
    {
      && (best == None ==> queue == [])
      && (best.Some? ==> forall t :: t in queue ==> t.priority <= best.value.priority)
    }

    ghost predicate Valid()
      reads this
    {
      && BestIsBest()
      && queuedTime == Time(Waiting())
      && burstDropLimit <= burstLimit
      && burstDecRate >= 0.0
    }

    constructor (limit: nat, dropLimit: nat, decRate: real, now: int)
      requires dropLimit <= limit && decRate >= 0.0
      ensures Valid() && Waiting() == multiset{} && recentTime == 0
    {
      recentTime, queuedTime, servingTimeDiff, lastUpdate := 0, 0, 0, now;
      burstLimit, burstDropLimit, burstDecRate := limit, dropLimit, decRate;
      queue, best := [], None;
    }

    /** Takes a task of highest priority out of the queue. */
    method PopItem() returns (t: Task)
      requires queue != []
      modifies `queue
      ensures multiset(queue) + multiset{t} == multiset(old(queue))
      ensures forall x :: x in queue ==> x.priority <= t.priority
    {
      var k := 0;
      for i := 1 to |queue|
        invariant 0 <= k < |queue| && forall j :: 0 <= j < i ==> queue[j].priority <= queue[k].priority
      {
        if queue[i].priority > queue[k].priority {
          k := i;
        }
      }
      t := queue[k];
      assert queue == queue[..k] + [t] + queue[k + 1..];
      queue := queue[..k] + queue[k + 1..];
    }

    /** Makes the highest-priority task of the queue the best one. */
    method NextBest()
      requires best == None
      modifies `queue, `best
      ensures BestIsBest() && Waiting() == multiset(old(queue))
    {
      if |queue| > 0 {
        var t := PopItem();
        best := Some(t);
      }
    }

    /** Subtracts the time saved by finished tasks and the decay since the last update from the recent time. */
    method UpdateRecentTime(now: int)
      requires burstDecRate >= 0.0
      modifies `recentTime, `servingTimeDiff, `lastUpdate
      ensures lastUpdate == now && servingTimeDiff == 0
      ensures recentTime == Monus(old(recentTime), old(servingTimeDiff) + Decay(now - old(lastUpdate), burstDecRate))
    {
      var subTime := servingTimeDiff;
      servingTimeDiff := 0;
      var dt := now - lastUpdate;
      lastUpdate := now;
      if dt > 0 {
        subTime := subTime + Decay(dt, burstDecRate);
      }
      if recentTime > subTime {
        recentTime := recentTime - subTime;
      } else {
        recentTime := 0;
      }
    }

    /** Empties the queue into one group per peer. */
    method GroupTasks(buffer: Peer -> Buffer) returns (groups: seq<PeerTasks>)
      modifies `queue
      ensures queue == [] && GroupsOk(groups, buffer) && AllTasks(groups) == multiset(old(queue))
    {
      groups := [];
      var peerMap: map<Peer, nat> := map[];
      NoGroups(buffer);
      hide AllTasks, GroupsOk;
      while |queue| > 0
        invariant GroupsOk(groups, buffer) && IndexesGroups(peerMap, groups)
        invariant AllTasks(groups) + multiset(queue) == multiset(old(queue))
        decreases |multiset(queue)|
      {
        var task := PopItem();
        if task.peer !in peerMap {
          GroupAppends(groups, buffer, peerMap, task);
          peerMap := peerMap[task.peer := |groups|];
          groups := groups + [NewGroup(task, buffer)];
        } else {
          var i := peerMap[task.peer];
          GroupGrows(groups, buffer, peerMap, i, task);
          groups := groups[i := Grown(groups[i], task)];
        }
      }
    }

    /** Freezes peers in the order of the groups until enough time is saved; the other tasks go back to the queue. */
    method DropGroups(groups: seq<PeerTasks>) returns (frozen: seq<Peer>, cancelled: seq<Task>, ghost k: nat)
      requires queue == [] && queuedTime == TotalTime(groups)
      modifies `queue, `queuedTime
      ensures Shed(groups, k, |groups|, frozen, cancelled, queue, queuedTime)
      ensures k < |groups| ==> k > 0 && recentTime + queuedTime <= burstDropLimit
      ensures k > 1 ==> recentTime + queuedTime + groups[k - 1].sumTime > burstDropLimit
    {
      hide AllTasks, TotalTime, Peers;
      frozen, cancelled, k := [], [], 0;
      ShedBegins(groups);
      var drop := true;
      for i := 0 to |groups|
        invariant Shed(groups, k, i, frozen, cancelled, queue, queuedTime)
        invariant drop ==> k == i && (k > 0 ==> recentTime + queuedTime > burstDropLimit)
        invariant !drop ==> k > 0 && recentTime + queuedTime <= burstDropLimit
        invariant k > 1 ==> recentTime + queuedTime + groups[k - 1].sumTime > burstDropLimit
      {
        var tasks := groups[i];
        if drop {
          ShedDrops(groups, k, frozen, cancelled, queue, queuedTime);
          frozen := frozen + [tasks.peer];
          queuedTime := queuedTime - tasks.sumTime;
          drop := recentTime + queuedTime > burstDropLimit;
          cancelled := cancelled + tasks.list;
          k := k + 1;
        } else {
          ShedKeeps(groups, k, i, frozen, cancelled, queue, queuedTime);
          queue := queue + tasks.list;
        }
      }
    }

    /**
     Freezes as few peers as needed to bring the time under the drop limit, but at least one, those with the lowest
     buffer ratio first. Each waiting task is either cancelled or kept.
     */
    method FreezePeers(buffer: Peer -> Buffer) returns (frozen: seq<Peer>, cancelled: seq<Task>)
      requires Valid()
      modifies `queue, `queuedTime, `best
      ensures Valid() && multiset(cancelled) + Waiting() == old(Waiting())
      ensures WholePeers(Waiting(), frozen, cancelled) && LowestFirst(Waiting(), frozen, buffer)
      ensures recentTime + queuedTime <= burstDropLimit || Waiting() == multiset{}
      ensures |frozen| > 1 ==>
                exists last :: TasksOf(last, multiset(cancelled), frozen[|frozen| - 1])
                  && recentTime + queuedTime + Time(last) > burstDropLimit
      ensures old(Waiting()) != multiset{} ==> frozen != []
      ensures forall i, j :: 0 <= i < j < |frozen| ==> NoFuller(buffer(frozen[i]), buffer(frozen[j]))
      ensures forall p, t :: p in frozen && t in Waiting() ==> NoFuller(buffer(p), buffer(t.peer))
    {
      hide GroupsOk, AllTasks, Shed, ByRatio, WholePeers, LowestFirst, TasksOf, Time, NoFuller;
      PutBack();
      var groups := GroupTasks(buffer);
      groups := SortByRatio(groups, buffer);
      TimeOfGroups(groups, buffer);
      ghost var k;
      frozen, cancelled, k := DropGroups(groups);
      Settle(groups, buffer, k, frozen, cancelled, queue, queuedTime);
      NextBest();
      LowestIsEmptiest(Waiting(), frozen, buffer);
    }

    method PutBack()
      modifies `queue, `best
      ensures best == None && multiset(queue) == old(Waiting())
    {
      if best.Some? {
        queue := queue + [best.value];
      }
      best := None;
    }

    /** Adds a task; if more time waits than allowed, peers are frozen until it is under the drop limit. */
    method AddTask(task: Task, now: int, buffer: Peer -> Buffer) returns (frozen: seq<Peer>, cancelled: seq<Task>)
      requires Valid()
      modifies this
      ensures Valid() && multiset(cancelled) + Waiting() == old(Waiting()) + multiset{task}
      ensures recentTime == Monus(old(recentTime), old(servingTimeDiff) + Decay(now - old(lastUpdate), burstDecRate))
      ensures recentTime + queuedTime <= burstLimit || Waiting() == multiset{}
      ensures frozen != [] <==> recentTime + old(queuedTime) + task.expTime > burstLimit
      ensures WholePeers(Waiting(), frozen, cancelled) && LowestFirst(Waiting(), frozen, buffer)
    {
      hide WholePeers, LowestFirst, TasksOf, Time, Bag, BestIsBest, Monus, Decay;
      PutTask(task);
      UpdateRecentTime(now);
      queuedTime := queuedTime + task.expTime;
      TimeAfterAdding(old(Waiting()), task);
      if recentTime + queuedTime > burstLimit {
        frozen, cancelled := FreezePeers(buffer);
      } else {
        frozen, cancelled := [], [];
        NobodyIsFrozen(Waiting(), buffer);
      }
    }

    method PutTask(task: Task)
      requires BestIsBest()
      modifies `queue, `best
      ensures BestIsBest() && Waiting() == old(Waiting()) + multiset{task} && best.Some?
      ensures best == if old(best).Some? && task.priority <= old(best).value.priority then old(best) else Some(task)
    {
      if best == None {
        best := Some(task);
      } else if task.priority > best.value.priority {
        queue := queue + [best.value];
        best := Some(task);
      } else {
        queue := queue + [task];
      }
    }

    /** Hands the best task to a thread: no waiting task has a higher priority. */
    method SendBest(now: int) returns (task: Task)
      requires Valid() && best.Some?
      modifies this
      ensures Valid() && Some(task) == old(best) && Waiting() + multiset{task} == old(Waiting())
      ensures forall t :: t in Waiting() ==> t.priority <= task.priority
      ensures recentTime ==
                Monus(old(recentTime), old(servingTimeDiff) + Decay(now - old(lastUpdate), burstDecRate)) + task.expTime
      ensures recentTime + queuedTime <= old(recentTime + queuedTime)
    {
      hide Time;
      task := best.value;
      TimeAfterAdding(multiset(queue), task);
      UpdateRecentTime(now);
      queuedTime := queuedTime - task.expTime;
      recentTime := recentTime + task.expTime;
      best := None;
      NextBest();
    }
  }

  lemma TimeAfterAdding(ts: multiset<Task>, t: Task)
    ensures Time(ts + multiset{t}) == Time(ts) + t.expTime
  {
    TimeAdds(ts, multiset{t});
    TimeOfSingle(t);
  }

  lemma NobodyIsFrozen(ts: multiset<Task>, buffer: Peer -> Buffer)
    ensures WholePeers(ts, [], []) && LowestFirst(ts, [], buffer)
  {
  }

  // ----- every run -----

  datatype Step = Add(task: Task, now: int) | Send(now: int) | Finish(saved: nat)

  /** The task that arrives in a step, if any. */
  function Arrival(step: Step): seq<Task> {
    if step.Add? then [step.task] else []
  }

  /** The tasks that arrive, in order. */
  function Arrivals(steps: seq<Step>): seq<Task> {
    if steps == [] then [] else Arrivals(steps[..|steps| - 1]) + Arrival(steps[|steps| - 1])
  }

  function CountSends(steps: seq<Step>): nat {
    if steps == [] then 0 else CountSends(steps[..|steps| - 1]) + if steps[|steps| - 1].Send? then 1 else 0
  }

  /** One step; nothing is cancelled unless the time that is waited for exceeds the burst limit. */
  method Take(sq: ServingQueue, step: Step, buffer: Peer -> Buffer) returns (cancelled: seq<Task>, served: seq<Task>)
    requires sq.Valid()
    modifies sq
    ensures sq.Valid()
    ensures old(sq.Waiting()) + multiset(Arrival(step)) == multiset(cancelled) + multiset(served) + sq.Waiting()
    ensures served == if step.Send? && old(sq.best).Some? then [old(sq.best).value] else []
    ensures step.Send? && served == [] ==> old(sq.Waiting()) == multiset{}
    ensures Higher(served, sq.Waiting())
    ensures sq.recentTime + sq.queuedTime <= old(sq.recentTime + sq.queuedTime) + Time(multiset(Arrival(step)))
    ensures old(sq.recentTime + sq.queuedTime) + Time(multiset(Arrival(step))) <= sq.burstLimit ==> cancelled == []
    ensures step.Finish? ==>
              && sq.servingTimeDiff == old(sq.servingTimeDiff) + step.saved
              && sq.recentTime == old(sq.recentTime) && sq.lastUpdate == old(sq.lastUpdate)
              && sq.best == old(sq.best) && sq.queue == old(sq.queue)
  {
    hide LowestFirst, Time, Bag, Decay, Monus, WholePeers;
    cancelled, served := [], [];
    NoTime();
    NothingWaits(sq);
    match step {
      case Add(task, now) =>
        var frozen;
        ghost var before := sq.Waiting();
        assert multiset([task]) == multiset{task};
        TimeOfSingle(task);
        TimeAdds(before, multiset{task});
        frozen, cancelled := sq.AddTask(task, now, buffer);
        TimeAdds(multiset(cancelled), sq.Waiting());
        Falls(old(sq.recentTime), old(sq.servingTimeDiff), now - old(sq.lastUpdate), sq.burstDecRate);
        NoneFrozen(sq.Waiting(), frozen, cancelled);
      case Send(now) =>
        if sq.best.Some? {
          var task := sq.SendBest(now);
          assert multiset([task]) == multiset{task};
          served := [task];
        }
      case Finish(saved) =>
        sq.servingTimeDiff := sq.servingTimeDiff + saved;
    }
  }

  lemma NothingWaits(sq: ServingQueue)
    requires sq.Valid()
    ensures sq.best == None ==> sq.Waiting() == multiset{}
  {
  }

  lemma NoTime()
    ensures Time(multiset([])) == 0
  {
  }

  lemma Falls(time: nat, saved: nat, dt: int, rate: real)
    requires rate >= 0.0
    ensures Monus(time, saved + Decay(dt, rate)) <= time
  {
  }

  lemma NoneFrozen(kept: multiset<Task>, frozen: seq<Peer>, cancelled: seq<Task>)
    requires WholePeers(kept, frozen, cancelled)
    ensures frozen == [] ==> cancelled == []
  {
    if cancelled != [] {
      assert cancelled[0] in cancelled;
    }
  }

  /**
   Any sequence of arriving, starting and finishing tasks: what waited or came in was served, cancelled or waits, each
   once; no more are served than were asked for, and none is cancelled if all of them together are within the limit.
   */
  method Run(sq: ServingQueue, steps: seq<Step>, buffer: nat -> Peer -> Buffer)
    returns (cancelled: seq<Task>, served: seq<Task>)
    requires sq.Valid()
    modifies sq
    ensures sq.Valid()
    ensures old(sq.Waiting()) + multiset(Arrivals(steps)) == multiset(cancelled) + multiset(served) + sq.Waiting()
    ensures |served| <= CountSends(steps)
    ensures |old(sq.Waiting())| >= CountSends(steps) + |cancelled| ==> |served| == CountSends(steps)
    ensures Arrivals(steps) == [] ==> Higher(served, sq.Waiting())
    ensures old(sq.recentTime + sq.queuedTime) + Time(multiset(Arrivals(steps))) <= sq.burstLimit ==> cancelled == []
  {
    hide Time, Bag, ServingQueue.Valid, Ran, Higher, Arrivals, Arrival, CountSends;
    cancelled, served := [], [];
    NoLoad();
    ghost var base, load := sq.Waiting(), sq.recentTime + sq.queuedTime;
    NothingRan(base);
    for i := 0 to |steps|
      invariant sq.Valid() && Ran(base, steps[..i], cancelled, served, sq.Waiting())
      invariant sq.recentTime + sq.queuedTime <= load + Load(steps[..i])
      invariant load + Load(steps[..i]) <= sq.burstLimit ==> cancelled == []
    {
      ghost var waiting := sq.Waiting();
      var out, done := Take(sq, steps[i], buffer(i));
      LoadGrows(steps, i);
      RanStep(base, steps, i, cancelled, served, waiting, out, done, sq.Waiting());
      cancelled, served := cancelled + out, served + done;
    }
    assert steps[..|steps|] == steps;
    assert Load(steps) == Time(multiset(Arrivals(steps)));
    RanMeans(base, steps, cancelled, served, sq.Waiting());
  }

  ghost function Load(steps: seq<Step>): nat {
    Time(multiset(Arrivals(steps)))
  }

  lemma NoLoad()
    ensures Load([]) == 0
  {
    NoTime();
  }

  lemma LoadGrows(steps: seq<Step>, i: nat)
    requires i < |steps|
    ensures Load(steps[..i + 1]) == Load(steps[..i]) + Time(multiset(Arrival(steps[i])))
  {
    hide Time;
    assert steps[..i + 1][..i] == steps[..i];
    var before, more := Arrivals(steps[..i]), Arrival(steps[i]);
    TimeAdds(multiset(before), multiset(more));
    assert multiset(before + more) == multiset(before) + multiset(more);
  }

  /** What became of the tasks after some steps. */
  ghost predicate Ran(base: multiset<Task>, steps: seq<Step>, cancelled: seq<Task>, served: seq<Task>,
                      waiting: multiset<Task>) {
    && base + multiset(Arrivals(steps)) == multiset(cancelled) + multiset(served) + waiting
    && |served| <= CountSends(steps)
    && (|base| >= CountSends(steps) + |cancelled| ==> |served| == CountSends(steps))
    && (Arrivals(steps) == [] ==> Higher(served, waiting))
  }

  /** No waiting task has a higher priority than one that was served. */
  ghost predicate Higher(served: seq<Task>, waiting: multiset<Task>) {
    forall s, t :: s in served && t in waiting ==> t.priority <= s.priority
  }

  lemma NothingRan(base: multiset<Task>)
    ensures Ran(base, [], [], [], base)
  {
    assert base + multiset([]) == base;
  }

  lemma RanMeans(base: multiset<Task>, steps: seq<Step>, cancelled: seq<Task>, served: seq<Task>,
                 waiting: multiset<Task>)
    requires Ran(base, steps, cancelled, served, waiting)
    ensures base + multiset(Arrivals(steps)) == multiset(cancelled) + multiset(served) + waiting
    ensures |served| <= CountSends(steps)
    ensures |base| >= CountSends(steps) + |cancelled| ==> |served| == CountSends(steps)
    ensures Arrivals(steps) == [] ==> Higher(served, waiting)
  {
  }

  lemma RanStep(base: multiset<Task>, steps: seq<Step>, i: nat, cancelled: seq<Task>, served: seq<Task>,
                waiting: multiset<Task>,
                out: seq<Task>, done: seq<Task>, waiting': multiset<Task>)
    requires i < |steps| && Ran(base, steps[..i], cancelled, served, waiting)
    requires waiting + multiset(Arrival(steps[i])) == multiset(out) + multiset(done) + waiting'
    requires |done| <= (if steps[i].Send? then 1 else 0) && (steps[i].Send? && done == [] ==> waiting == multiset{})
    requires Higher(done, waiting')
    ensures Ran(base, steps[..i + 1], cancelled + out, served + done, waiting')
  {
    assert steps[..i + 1][..i] == steps[..i];
    var before, more := Arrivals(steps[..i]), Arrival(steps[i]);
    Balance(base, before, more, cancelled, served, waiting, out, done, waiting');
    SomeWait(base, before, cancelled, served, waiting);
    StillServed(waiting, more, out, done, waiting');
    hide Arrival;
    assert Arrivals(steps[..i + 1]) == before + more;
  }

  lemma SomeWait(base: multiset<Task>, before: seq<Task>, cancelled: seq<Task>, served: seq<Task>,
                 waiting: multiset<Task>)
    requires base + multiset(before) == multiset(cancelled) + multiset(served) + waiting
    ensures |base| > |cancelled| + |served| ==> waiting != multiset{}
  {
    assert |base + multiset(before)| == |base| + |before|;
    assert |multiset(cancelled) + multiset(served) + waiting| == |cancelled| + |served| + |waiting|;
  }

  /** If nothing arrives, those that still wait have waited before. */
  lemma StillServed(waiting: multiset<Task>, more: seq<Task>, out: seq<Task>, done: seq<Task>, waiting': multiset<Task>)
    requires waiting + multiset(more) == multiset(out) + multiset(done) + waiting'
    ensures more == [] ==> forall t :: t in waiting' ==> t in waiting
  {
    if more == [] {
      forall t | t in waiting'
        ensures t in waiting
      {
        assert t in waiting + multiset(more);
      }
    }
  }

  lemma Balance(base: multiset<Task>, before: seq<Task>, more: seq<Task>, cancelled: seq<Task>, served: seq<Task>,
                waiting: multiset<Task>,
                out: seq<Task>, done: seq<Task>, waiting': multiset<Task>)
    requires base + multiset(before) == multiset(cancelled) + multiset(served) + waiting
    requires waiting + multiset(more) == multiset(out) + multiset(done) + waiting'
    ensures base + multiset(before + more) == multiset(cancelled + out) + multiset(served + done) + waiting'
    ensures multiset(before + more) == multiset(before) + multiset(more)
  {
    calc {
      base + multiset(before + more);
      base + multiset(before) + multiset(more);
      multiset(cancelled) + multiset(served) + (waiting + multiset(more));
    }
  }
}
