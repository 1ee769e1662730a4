/** Membership, health checks and leader election of one node's view of the cluster. */
module Cluster {
  import opened Common

  datatype Status = Initializing | Active | Draining | Offline | Suspect

  datatype NodeInfo = NodeInfo(id: string, startedAt: int, lastHeartbeat: int, status: Status, load: real,
                               connections: nat)

  /** `order` is the insertion order in which the registry's map is walked. */
  datatype View = View(order: seq<string>, nodes: map<string, NodeInfo>, leader: Option<string>, term: nat,
                       local: string)

  // ---------- election ----------

  /** Longest running first, ties broken by id. */
  predicate Senior(a: NodeInfo, b: NodeInfo) {
    a.startedAt < b.startedAt || (a.startedAt == b.startedAt && LexLe(a.id, b.id))
  }

  function ActiveNodes(order: seq<string>, nodes: map<string, NodeInfo>): seq<NodeInfo> {
    if order == [] then []
    else if order[0] in nodes && nodes[order[0]].status == Active
    then [nodes[order[0]]] + ActiveNodes(order[1..], nodes)
    else ActiveNodes(order[1..], nodes)
  }

  lemma {:induction false} ActiveMembers(order: seq<string>, nodes: map<string, NodeInfo>)
    ensures forall n :: n in ActiveNodes(order, nodes)
                        <==> n.status == Active && exists id :: id in order && id in nodes && nodes[id] == n
  {
    if order != [] {
      ActiveMembers(order[1..], nodes);
      assert forall id :: id in order <==> id == order[0] || id in order[1..];
    }
  }

  function IsActive(nodes: map<string, NodeInfo>): string -> bool {
    (id: string) => id in nodes && nodes[id].status == Active
  }

  /** The active nodes are those of the active ids, in the registry's order. */
  lemma {:induction false} ActiveInOrder(order: seq<string>, nodes: map<string, NodeInfo>)
    ensures var ids, active := Filter(IsActive(nodes), order), ActiveNodes(order, nodes);
            && |active| == |ids|
            && forall i :: 0 <= i < |ids| ==> ids[i] in nodes && active[i] == nodes[ids[i]]
  {
    if order != [] {
      var ids, active := Filter(IsActive(nodes), order[1..]), ActiveNodes(order[1..], nodes);
      ActiveInOrder(order[1..], nodes);
      if order[0] in nodes && nodes[order[0]].status == Active {
        assert Filter(IsActive(nodes), order) == [order[0]] + ids;
        assert ActiveNodes(order, nodes) == [nodes[order[0]]] + active;
      } else {
        assert Filter(IsActive(nodes), order) == ids && ActiveNodes(order, nodes) == active;
      }
    }
  }

  lemma {:induction false} ActiveStep(order: seq<string>, nodes: map<string, NodeInfo>, i: nat)
    requires i < |order|
    ensures ActiveNodes(order[i..], nodes) ==
            (if order[i] in nodes && nodes[order[i]].status == Active then [nodes[order[i]]] else [])
            + ActiveNodes(order[i + 1..], nodes)
  {
    assert order[i..][0] == order[i] && order[i..][1..] == order[i + 1..];
  }

  function Winner(v: View): string {
    var active := ActiveNodes(v.order, v.nodes);
    SortPermutes(Senior, active);
    if active == [] then v.local else Sort(Senior, active)[0].id
  }

  function Elected(v: View): View {
    v.(leader := Some(Winner(v)), term := v.term + 1)
  }

  lemma {:induction false} SeniorIsOrder()
    ensures TotalPreorder(Senior)
    ensures forall a, b :: Senior(a, b) && Senior(b, a) ==> a.id == b.id && a.startedAt == b.startedAt
  {
    forall a: NodeInfo, b: NodeInfo, c: NodeInfo
      ensures (Senior(a, b) || Senior(b, a)) && (Senior(a, b) && Senior(b, c) ==> Senior(a, c))
      ensures Senior(a, b) && Senior(b, a) ==> a.id == b.id && a.startedAt == b.startedAt
    {
      LexOrder(a.id, b.id, c.id);
    }
  }

  /** The winner is active, and no active node is more senior. */
  lemma {:induction false} WinnerIsSenior(v: View) returns (w: NodeInfo)
    requires ActiveNodes(v.order, v.nodes) != []
    ensures w in ActiveNodes(v.order, v.nodes) && w.id == Winner(v) && w.status == Active
    ensures forall n :: n in ActiveNodes(v.order, v.nodes) ==> Senior(w, n)
  {
    var active := ActiveNodes(v.order, v.nodes);
    ActiveMembers(v.order, v.nodes);
    SeniorIsOrder();
    SortPermutes(Senior, active);
    SortSorts(Senior, active);
    var sorted := Sort(Senior, active);
    w := sorted[0];
    assert w in sorted;
    forall n | n in active ensures Senior(w, n) {
      assert n in sorted;
      var i :| 0 <= i < |sorted| && sorted[i] == n;
      assert i == 0 ==> Senior(w, n) || Senior(n, w);
    }
  }

  /** What an election depends on: the ids and start times of the active nodes. */
  function Members(nodes: seq<NodeInfo>): set<(string, int)> {
    set n | n in nodes :: (n.id, n.startedAt)
  }

  lemma {:induction false} WinnersAgree(a: seq<NodeInfo>, b: seq<NodeInfo>, w: NodeInfo, w': NodeInfo)
    requires Members(a) == Members(b) && w in a && w' in b
    requires (forall n :: n in a ==> Senior(w, n)) && (forall n :: n in b ==> Senior(w', n))
    ensures w.id == w'.id
  {
    assert (w.id, w.startedAt) in Members(b) && (w'.id, w'.startedAt) in Members(a);
    var x :| x in b && (x.id, x.startedAt) == (w.id, w.startedAt);
    var y :| y in a && (y.id, y.startedAt) == (w'.id, w'.startedAt);
    assert Senior(w, y) && Senior(w', x);
    LexOrder(w.id, w'.id, "");
  }

  /** Two nodes that see the same active members elect the same leader, whatever the order in which they
      learned of them and whatever loads and heartbeats they have recorded. */
  lemma {:induction false} ElectionsAgree(v: View, v': View)
    requires ActiveNodes(v.order, v.nodes) != []
    requires Members(ActiveNodes(v.order, v.nodes)) == Members(ActiveNodes(v'.order, v'.nodes))
    ensures Winner(v) == Winner(v')
  {
    var w := WinnerIsSenior(v);
    assert (w.id, w.startedAt) in Members(ActiveNodes(v'.order, v'.nodes));
    var w' := WinnerIsSenior(v');
    WinnersAgree(ActiveNodes(v.order, v.nodes), ActiveNodes(v'.order, v'.nodes), w, w');
  }

  // ---------- events ----------

  datatype Event =
    | Announce(info: NodeInfo)
    | Goodbye(id: string)
    | Heartbeat(id: string, load: Option<real>, connections: Option<nat>, now: int)
    | HealthCheck(now: int)

  function Without(order: seq<string>, id: string): seq<string> {
    Filter((x: string) => x != id, order)
  }

  function Registered(v: View, info: NodeInfo): View {
    v.(order := if info.id in v.nodes then v.order else v.order + [info.id], nodes := v.nodes[info.id := info])
  }

  function Deregistered(v: View, id: string): View {
    if id in v.nodes then v.(order := Without(v.order, id), nodes := v.nodes - {id}) else v
  }

  function Beaten(v: View, id: string, load: Option<real>, connections: Option<nat>, now: int): View {
    if id !in v.nodes then v
    else
      var n := v.nodes[id];
      v.(nodes := v.nodes[id := n.(lastHeartbeat := now,
                                   load := if load.Some? then load.value else n.load,
                                   connections := if connections.Some? then connections.value else n.connections,
                                   status := if n.status == Suspect then Active else n.status)])
  }

  /** One node of the health loop; an offline leader triggers an election before the loop goes on. */
  function Examined(v: View, id: string, now: int, timeout: int): View {
    if id == v.local || id !in v.nodes then v
    else
      var n := v.nodes[id];
      if now - n.lastHeartbeat <= timeout then v
      else if n.status == Active then v.(nodes := v.nodes[id := n.(status := Suspect)])
      else if n.status == Suspect && now - n.lastHeartbeat > timeout * 2 then
        var off := v.(nodes := v.nodes[id := n.(status := Offline)]);
        if off.leader == Some(n.id) then Elected(off) else off
      else v
  }

  function ExaminedAll(v: View, ids: seq<string>, now: int, timeout: int): View
    decreases |ids|
  {
    if ids == [] then v else ExaminedAll(Examined(v, ids[0], now, timeout), ids[1..], now, timeout)
  }

  function Happen(v: View, e: Event, timeout: int): View {
    match e
    case Announce(info) => Registered(v, info)
    case Goodbye(id) =>
      var gone := Deregistered(v, id);
      if gone.leader == Some(id) then Elected(gone) else gone
    case Heartbeat(id, load, connections, now) => Beaten(v, id, load, connections, now)
    case HealthCheck(now) => ExaminedAll(v, v.order, now, timeout)
  }

  function Started(local: NodeInfo): View {
    Elected(Registered(View([], map[], None, 0, local.id), local))
  }

  function Execute(v: View, events: seq<Event>, timeout: int): View {
    if events == [] then v else Happen(Execute(v, events[..|events| - 1], timeout), events[|events| - 1], timeout)
  }

  // ---------- who is registered ----------

  predicate Announces(e: Event, id: string) { e.Announce? && e.info.id == id }

  predicate Leaves(e: Event, id: string) { e.Goodbye? && e.id == id }

  /** No goodbye of the node from position `i` on. */
  predicate Stays(events: seq<Event>, id: string, i: nat) {
    forall j :: i <= j < |events| ==> !Leaves(events[j], id)
  }

  /** The node was announced and did not leave afterwards. */
  predicate Joined(events: seq<Event>, id: string) {
    exists i :: 0 <= i < |events| && Announces(events[i], id) && Stays(events, id, i + 1)
  }

  lemma {:induction false} StaysLast(events: seq<Event>, id: string, i: nat)
    requires events != [] && i < |events|
    ensures Stays(events, id, i) <==> Stays(Init(events), id, i) && !Leaves(Last(events), id)
  {
    assert forall j :: 0 <= j < |events| - 1 ==> Init(events)[j] == events[j];
  }

  lemma {:induction false} JoinedLast(events: seq<Event>, id: string)
    requires events != []
    ensures Joined(events, id) <==>
            Announces(Last(events), id) || (Joined(Init(events), id) && !Leaves(Last(events), id))
  {
    var init, last := Init(events), Last(events);
    if Announces(last, id) {
      assert Announces(events[|events| - 1], id) && Stays(events, id, |events|);
    } else if Joined(events, id) {
      var i :| 0 <= i < |events| && Announces(events[i], id) && Stays(events, id, i + 1);
      StaysLast(events, id, i + 1);
      assert Announces(init[i], id);
    } else if Joined(init, id) {
      var i :| 0 <= i < |init| && Announces(init[i], id) && Stays(init, id, i + 1);
      StaysLast(events, id, i + 1);
      assert Announces(events[i], id);
    }
  }

  lemma {:induction false} ExaminedAllIds(v: View, ids: seq<string>, now: int, timeout: int)
    ensures ExaminedAll(v, ids, now, timeout).nodes.Keys == v.nodes.Keys
    ensures forall id :: id in v.nodes ==>
              ExaminedAll(v, ids, now, timeout).nodes[id].startedAt == v.nodes[id].startedAt
    decreases |ids|
  {
    if ids != [] {
      ExaminedAllIds(Examined(v, ids[0], now, timeout), ids[1..], now, timeout);
    }
  }

  /** A node is registered if and only if it was announced, or is the local node, and did not say goodbye since. */
  lemma {:induction false} RegisteredIff(local: NodeInfo, events: seq<Event>, id: string, timeout: int)
    ensures id in Execute(Started(local), events, timeout).nodes
            <==> Joined(events, id) || (id == local.id && Stays(events, id, 0))
  {
    if events != [] {
      var before := Execute(Started(local), Init(events), timeout);
      RegisteredIff(local, Init(events), id, timeout);
      StaysLast(events, id, 0);
      JoinedLast(events, id);
      if Last(events).HealthCheck? {
        ExaminedAllIds(before, before.order, Last(events).now, timeout);
      }
    }
  }

  /** A registered node keeps the start time of its last announcement, which is what elections go by. */
  lemma {:induction false} StartTimeKept(v: View, events: seq<Event>, id: string, timeout: int)
    requires id in v.nodes
    requires forall i :: 0 <= i < |events| ==> !Announces(events[i], id) && !Leaves(events[i], id)
    ensures id in Execute(v, events, timeout).nodes
    ensures Execute(v, events, timeout).nodes[id].startedAt == v.nodes[id].startedAt
  {
    if events != [] {
      var before, last := Execute(v, Init(events), timeout), Last(events);
      StartTimeKept(v, Init(events), id, timeout);
      assert !Announces(last, id) && !Leaves(last, id);
      if last.HealthCheck? {
        ExaminedAllIds(before, before.order, last.now, timeout);
      }
    }
  }

  // ---------- safety ----------

  predicate WellFormed(v: View) {
    && (forall id :: id in v.nodes ==> v.nodes[id].id == id && id in v.order)
    && (forall id :: id in v.order ==> id in v.nodes)
    && (forall i, j :: 0 <= i < j < |v.order| ==> v.order[i] != v.order[j])
  }

  predicate LeaderUsable(v: View) {
    v.leader.Some? && (v.leader.value == v.local
                       || (v.leader.value in v.nodes && v.nodes[v.leader.value].status != Offline))
  }

  predicate Safe(v: View) { WellFormed(v) && LeaderUsable(v) }

  lemma {:induction false} ElectionIsSafe(v: View)
    requires WellFormed(v)
    ensures Safe(Elected(v)) && (Winner(v) == v.local || (Winner(v) in v.nodes && v.nodes[Winner(v)].status == Active))
  {
    if ActiveNodes(v.order, v.nodes) != [] {
      var w := WinnerIsSenior(v);
      ActiveMembers(v.order, v.nodes);
    }
  }

  predicate NoneActive(nodes: map<string, NodeInfo>) {
    forall id :: id in nodes ==> nodes[id].status != Active
  }

  /** An active node, and every other one started later, or at the same time under a larger id. */
  predicate StartedFirst(nodes: map<string, NodeInfo>, w: string) {
    w in nodes && nodes[w].status == Active
    && forall id :: id in nodes && nodes[id].status == Active && id != w ==>
         nodes[w].startedAt < nodes[id].startedAt || (nodes[w].startedAt == nodes[id].startedAt && LexLe(w, id))
  }

  /** Who has to lead these nodes: the active one that started first, or the local one when none is active. */
  predicate FirstLeads(nodes: map<string, NodeInfo>, leader: string, local: string) {
    if NoneActive(nodes) then leader == local else StartedFirst(nodes, leader)
  }

  lemma {:induction false} StartedFirstOnce(nodes: map<string, NodeInfo>, w: string, w': string)
    requires StartedFirst(nodes, w) && StartedFirst(nodes, w')
    ensures w == w'
  {
    LexOrder(w, w', "");
  }

  lemma {:induction false} ActiveOf(v: View)
    requires WellFormed(v)
    ensures forall id :: id in v.nodes && v.nodes[id].status == Active ==> v.nodes[id] in ActiveNodes(v.order, v.nodes)
    ensures ActiveNodes(v.order, v.nodes) == [] <==> NoneActive(v.nodes)
  {
    var active := ActiveNodes(v.order, v.nodes);
    ActiveMembers(v.order, v.nodes);
    forall id | id in v.nodes && v.nodes[id].status == Active ensures v.nodes[id] in active {
      assert id in v.order;
    }
    if active != [] {
      assert active[0] in active;
    }
  }

  /** The winner is the active node that started first, the smallest id deciding among equal start times; the local
      node wins if and only if it is that node or no node is active. */
  lemma {:induction false} WinnerStartedFirst(v: View)
    requires WellFormed(v)
    ensures FirstLeads(v.nodes, Winner(v), v.local)
    ensures Winner(v) == v.local <==> NoneActive(v.nodes) || StartedFirst(v.nodes, v.local)
  {
    ActiveOf(v);
    if !NoneActive(v.nodes) {
      var w := WinnerIsSenior(v);
      ActiveMembers(v.order, v.nodes);
      assert w.id in v.nodes && v.nodes[w.id] == w;
      if StartedFirst(v.nodes, v.local) {
        StartedFirstOnce(v.nodes, w.id, v.local);
      }
    }
  }

  lemma {:induction false} FirstElected(v: View)
    ensures WellFormed(v) ==> FirstLeads(v.nodes, Winner(v), v.local)
  {
    if WellFormed(v) {
      WinnerStartedFirst(v);
    }
  }

  /** An announcement keeps the leader usable unless it overwrites a remote leader's entry with OFFLINE. */
  lemma {:induction false} AnnounceSafeIff(v: View, info: NodeInfo)
    requires Safe(v)
    ensures Safe(Registered(v, info)) <==> !(v.leader == Some(info.id) && info.id != v.local && info.status == Offline)
  {
  }

  lemma {:induction false} WithoutMembers(order: seq<string>, id: string)
    requires forall i, j :: 0 <= i < j < |order| ==> order[i] != order[j]
    ensures forall i, j :: 0 <= i < j < |Without(order, id)| ==> Without(order, id)[i] != Without(order, id)[j]
  {
    if order != [] {
      WithoutMembers(order[1..], id);
      var rest := Without(order[1..], id);
      FilterMembers((x: string) => x != id, order[1..]);
      forall j | 0 <= j < |rest| ensures rest[j] != order[0] {
        assert rest[j] in order[1..];
      }
    }
  }

  function Marked(v: View, id: string, status: Status): View
    requires id in v.nodes
  {
    v.(nodes := v.nodes[id := v.nodes[id].(status := status)])
  }

  lemma {:induction false} MarkedIsSafe(v: View, id: string, status: Status)
    requires Safe(v) && id in v.nodes
    ensures WellFormed(Marked(v, id, status))
    ensures status != Offline || v.leader != Some(id) || id == v.local ==> Safe(Marked(v, id, status))
  {
  }

  lemma {:induction false} ExaminedCases(v: View, id: string, now: int, timeout: int)
    requires WellFormed(v)
    ensures var next := Examined(v, id, now, timeout);
            || next == v
            || (id in v.nodes && id != v.local && v.nodes[id].status == Active && next == Marked(v, id, Suspect))
            || (id in v.nodes && id != v.local && v.nodes[id].status == Suspect
                && next == if v.leader == Some(id) then Elected(Marked(v, id, Offline)) else Marked(v, id, Offline))
  {
  }

  lemma {:induction false} ExaminedIsSafe(v: View, id: string, now: int, timeout: int)
    requires Safe(v)
    ensures Safe(Examined(v, id, now, timeout)) && Examined(v, id, now, timeout).order == v.order
    ensures v.term <= Examined(v, id, now, timeout).term
  {
    ExaminedCases(v, id, now, timeout);
    if id in v.nodes {
      MarkedIsSafe(v, id, Suspect);
      MarkedIsSafe(v, id, Offline);
      ElectionIsSafe(Marked(v, id, Offline));
    }
  }

  lemma {:induction false} ExaminedAllIsSafe(v: View, ids: seq<string>, now: int, timeout: int)
    requires Safe(v)
    ensures Safe(ExaminedAll(v, ids, now, timeout)) && v.term <= ExaminedAll(v, ids, now, timeout).term
    decreases |ids|
  {
    if ids != [] {
      ExaminedIsSafe(v, ids[0], now, timeout);
      ExaminedAllIsSafe(Examined(v, ids[0], now, timeout), ids[1..], now, timeout);
    }
  }

  predicate Plausible(e: Event) { e.Announce? ==> e.info.status == Active }

  lemma {:induction false} EventIsSafe(v: View, e: Event, timeout: int)
    requires Safe(v) && Plausible(e)
    ensures Safe(Happen(v, e, timeout)) && v.term <= Happen(v, e, timeout).term
            && Happen(v, e, timeout).local == v.local
  {
    match e {
      case Announce(info) => AnnounceSafeIff(v, info);
      case Goodbye(id) =>
        WithoutMembers(v.order, id);
        FilterMembers((x: string) => x != id, v.order);
        assert WellFormed(Deregistered(v, id));
        ElectionIsSafe(Deregistered(v, id));
      case Heartbeat(id, load, connections, now) =>
      case HealthCheck(now) =>
        ExaminedAllIsSafe(v, v.order, now, timeout);
        ExaminedAllLocal(v, v.order, now, timeout);
    }
  }

  /** Announcements and heartbeats never elect. A goodbye elects if and only if the leader leaves, and then the
      first of the remaining active nodes leads. */
  lemma {:induction false} GoodbyeElectsIff(v: View, e: Event, timeout: int)
    requires Safe(v) && !e.HealthCheck?
    ensures var v' := Happen(v, e, timeout);
            if e.Goodbye? && v.leader == Some(e.id)
            then v'.term == v.term + 1 && v'.leader.Some? && FirstLeads(v'.nodes, v'.leader.value, v.local)
            else v'.term == v.term && v'.leader == v.leader
  {
    if e.Goodbye? {
      WithoutMembers(v.order, e.id);
      FilterMembers((x: string) => x != e.id, v.order);
      assert WellFormed(Deregistered(v, e.id));
      WinnerStartedFirst(Deregistered(v, e.id));
    }
  }

  /** A node starts alone, leading itself in term 1. */
  lemma {:induction false} StartsAlone(local: NodeInfo)
    ensures var v := Started(local);
            v.leader == Some(local.id) && v.term == 1 && v.nodes == map[local.id := local] && v.local == local.id
  {
    WinnerStartedFirst(Registered(View([], map[], None, 0, local.id), local));
  }

  lemma {:induction false} ExaminedAllLocal(v: View, ids: seq<string>, now: int, timeout: int)
    ensures ExaminedAll(v, ids, now, timeout).local == v.local
    decreases |ids|
  {
    if ids != [] {
      ExaminedAllLocal(Examined(v, ids[0], now, timeout), ids[1..], now, timeout);
    }
  }

  /** After start and any interleaving of events the leader is the local node or a registered node
      that is not offline, and terms never go back. */
  lemma {:induction false} LeaderAlwaysUsable(local: NodeInfo, events: seq<Event>, timeout: int)
    requires forall i :: 0 <= i < |events| ==> Plausible(events[i])
    ensures Safe(Execute(Started(local), events, timeout)) && Execute(Started(local), events, timeout).local == local.id
    ensures forall i :: 0 <= i <= |events| ==>
              Execute(Started(local), events[..i], timeout).term <= Execute(Started(local), events, timeout).term
  {
    if events == [] {
      ElectionIsSafe(Registered(View([], map[], None, 0, local.id), local));
    } else {
      var init, last := events[..|events| - 1], events[|events| - 1];
      LeaderAlwaysUsable(local, init, timeout);
      EventIsSafe(Execute(Started(local), init, timeout), last, timeout);
      forall i | 0 <= i <= |events|
        ensures Execute(Started(local), events[..i], timeout).term <= Execute(Started(local), events, timeout).term
      {
        if i == |events| {
          assert events[..i] == events;
        } else {
          assert init[..i] == events[..i];
        }
      }
    }
  }

  // ---------- one health pass ----------

  /** The rest of the pass cannot take this leader offline: it is local, already examined, or still active. */
  predicate Settled(v: View, rest: seq<string>) {
    v.leader.Some? && (v.leader.value == v.local || v.leader.value !in rest
                       || (v.leader.value in v.nodes && v.nodes[v.leader.value].status == Active))
  }

  lemma {:induction false} SettledStays(v: View, ids: seq<string>, now: int, timeout: int)
    requires WellFormed(v) && Settled(v, ids) && forall i, j :: 0 <= i < j < |ids| ==> ids[i] != ids[j]
    ensures ExaminedAll(v, ids, now, timeout).leader == v.leader && ExaminedAll(v, ids, now, timeout).term == v.term
    decreases |ids|
  {
    if ids != [] {
      var next := Examined(v, ids[0], now, timeout);
      assert next.leader == v.leader;
      assert WellFormed(next);
      assert Settled(next, ids[1..]);
      SettledStays(next, ids[1..], now, timeout);
    }
  }

  lemma {:induction false} ExaminedElects(v: View, id: string, now: int, timeout: int)
    requires Safe(v)
    ensures var next := Examined(v, id, now, timeout);
            && WellFormed(next)
            && if next.term == v.term then next.leader == v.leader
               else next.term == v.term + 1 && next.leader.Some?
                    && (next.leader.value == v.local
                        || (next.leader.value in next.nodes && next.nodes[next.leader.value].status == Active))
  {
    ExaminedCases(v, id, now, timeout);
    if id in v.nodes {
      MarkedIsSafe(v, id, Suspect);
      MarkedIsSafe(v, id, Offline);
      ElectionIsSafe(Marked(v, id, Offline));
    }
  }

  /** Although the election runs in the middle of the loop, a health pass elects at most once: whoever wins
      is active at that moment and can at worst become a suspect before the pass ends. */
  lemma {:induction false} PassElectsOnce(v: View, ids: seq<string>, now: int, timeout: int)
    requires Safe(v) && forall i, j :: 0 <= i < j < |ids| ==> ids[i] != ids[j]
    ensures var v' := ExaminedAll(v, ids, now, timeout);
            && v'.term <= v.term + 1
            && (v'.term == v.term ==> v'.leader == v.leader)
    decreases |ids|
  {
    if ids != [] {
      var next := Examined(v, ids[0], now, timeout);
      ExaminedElects(v, ids[0], now, timeout);
      if next.term == v.term {
        ExaminedIsSafe(v, ids[0], now, timeout);
        PassElectsOnce(next, ids[1..], now, timeout);
      } else {
        assert next.local == v.local;
        assert Settled(next, ids[1..]);
        SettledStays(next, ids[1..], now, timeout);
      }
    }
  }

  function Health(n: NodeInfo, now: int, timeout: int): Status {
    var silent := now - n.lastHeartbeat;
    if n.status == Active && silent > timeout then Suspect
    else if n.status == Suspect && silent > timeout && silent > timeout * 2 then Offline
    else n.status
  }

  lemma {:induction false} ExaminedNodes(v: View, id: string, now: int, timeout: int)
    requires WellFormed(v)
    ensures var next := Examined(v, id, now, timeout);
            && next.local == v.local && next.nodes.Keys == v.nodes.Keys
            && forall n :: n in v.nodes ==>
                 next.nodes[n] == if n == id && n != v.local
                                  then v.nodes[n].(status := Health(v.nodes[n], now, timeout))
                                  else v.nodes[n]
  {
    ExaminedCases(v, id, now, timeout);
  }

  /** The pass marks every remote node as if all were examined at once: the elections inside the loop
      and the order of the nodes do not show in the registry. */
  lemma {:induction false} PassMarks(v: View, ids: seq<string>, now: int, timeout: int)
    requires Safe(v) && forall i, j :: 0 <= i < j < |ids| ==> ids[i] != ids[j]
    ensures var v' := ExaminedAll(v, ids, now, timeout);
            && v'.nodes.Keys == v.nodes.Keys
            && forall n :: n in v.nodes ==>
                 v'.nodes[n] == if n in ids && n != v.local
                                then v.nodes[n].(status := Health(v.nodes[n], now, timeout))
                                else v.nodes[n]
    decreases |ids|
  {
    if ids != [] {
      var next := Examined(v, ids[0], now, timeout);
      ExaminedNodes(v, ids[0], now, timeout);
      ExaminedIsSafe(v, ids[0], now, timeout);
      PassMarks(next, ids[1..], now, timeout);
      assert forall n :: n in ids <==> n == ids[0] || n in ids[1..];
    }
  }

  /** A pass makes an active remote node a suspect if and only if it was silent for longer than the timeout, and
      a suspect offline if and only if it was silent for longer than that and than twice as long. Nothing else
      about the nodes changes, the local node included. */
  lemma {:induction false} SilenceDecides(v: View, now: int, timeout: int, id: string)
    requires Safe(v) && id in v.nodes
    ensures id in ExaminedAll(v, v.order, now, timeout).nodes
    ensures var n, n' := v.nodes[id], ExaminedAll(v, v.order, now, timeout).nodes[id];
            var silent := now - n.lastHeartbeat;
            && n' == n.(status := n'.status)
            && (id == v.local || (n.status != Active && n.status != Suspect) ==> n' == n)
            && (id != v.local && n.status == Active ==> n'.status == if silent > timeout then Suspect else Active)
            && (id != v.local && n.status == Suspect ==>
                  n'.status == if silent > timeout && silent > timeout * 2 then Offline else Suspect)
  {
    PassMarks(v, v.order, now, timeout);
  }

  /** The leader is a remote node that the pass is going to declare offline. */
  predicate LeaderLapses(v: View, ids: seq<string>, now: int, timeout: int) {
    v.leader.Some? && v.leader.value in ids && v.leader.value != v.local && v.leader.value in v.nodes
    && v.nodes[v.leader.value].status == Suspect
    && now - v.nodes[v.leader.value].lastHeartbeat > timeout
    && now - v.nodes[v.leader.value].lastHeartbeat > timeout * 2
  }

  /** A pass holds an election if and only if the leader lapses. */
  lemma {:induction false} PassElectsIff(v: View, ids: seq<string>, now: int, timeout: int)
    requires Safe(v) && forall i, j :: 0 <= i < j < |ids| ==> ids[i] != ids[j]
    ensures ExaminedAll(v, ids, now, timeout).term == v.term + 1 <==> LeaderLapses(v, ids, now, timeout)
    decreases |ids|
  {
    if ids != [] {
      var next := Examined(v, ids[0], now, timeout);
      ExaminedElects(v, ids[0], now, timeout);
      ExaminedIsSafe(v, ids[0], now, timeout);
      ExaminedNodes(v, ids[0], now, timeout);
      PassElectsOnce(v, ids, now, timeout);
      if next.term == v.term {
        PassElectsIff(next, ids[1..], now, timeout);
        assert ids == [ids[0]] + ids[1..];
        assert v.leader == Some(ids[0]) ==> !LeaderLapses(v, ids, now, timeout);
      } else {
        ExaminedAllIsSafe(next, ids[1..], now, timeout);
        assert v.leader == Some(ids[0]);
      }
    }
  }

  // ---------- the registry and the coordinator ----------

  class NodeRegistry {
    var order: seq<string>
    var nodes: map<string, NodeInfo>
    const localNodeId: string
    const heartbeatTimeout: int

    constructor (localNodeId: string, heartbeatTimeout: int)
      ensures order == [] && nodes == map[]
      ensures this.localNodeId == localNodeId && this.heartbeatTimeout == heartbeatTimeout
    {
      order, nodes := [], map[];
      this.localNodeId, this.heartbeatTimeout := localNodeId, heartbeatTimeout;
    }

    method RegisterNode(info: NodeInfo)
      modifies this
      ensures order == (if info.id in old(nodes) then old(order) else old(order) + [info.id])
      ensures nodes == old(nodes)[info.id := info]
    {
      if info.id !in nodes {
        order := order + [info.id];
      }
      nodes := nodes[info.id := info];
    }

    method DeregisterNode(id: string)
      modifies this
      ensures id in old(nodes) ==> order == Without(old(order), id) && nodes == old(nodes) - {id}
      ensures id !in old(nodes) ==> order == old(order) && nodes == old(nodes)
    {
      if id in nodes {
        order := Without(order, id);
        nodes := nodes - {id};
      }
    }

    method UpdateHeartbeat(id: string, load: Option<real>, connections: Option<nat>, now: int)
      modifies this`nodes
      ensures nodes == Beaten(View(order, old(nodes), None, 0, localNodeId), id, load, connections, now).nodes
      ensures id !in old(nodes) ==> nodes == old(nodes)
      ensures id in old(nodes) ==> id in nodes && nodes == old(nodes)[id := nodes[id]]
      ensures id in old(nodes) ==>
                var n, n' := old(nodes)[id], nodes[id];
                && n'.id == n.id && n'.startedAt == n.startedAt && n'.lastHeartbeat == now
                && n'.load == (if load.Some? then load.value else n.load)
                && n'.connections == (if connections.Some? then connections.value else n.connections)
                && n'.status == if n.status == Suspect then Active else n.status
    {
      if id in nodes {
        var node := nodes[id].(lastHeartbeat := now);
        if load.Some? {
          node := node.(load := load.value);
        }
        if connections.Some? {
          node := node.(connections := connections.value);
        }
        if node.status == Suspect {
          node := node.(status := Active);
        }
        nodes := nodes[id := node];
      }
    }

    /** Exactly the registered nodes that are active, those registered earlier first. */
    method GetActiveNodes() returns (active: seq<NodeInfo>)
      ensures active == ActiveNodes(order, nodes)
      ensures forall n :: n in active <==>
                            n.status == Active && exists id :: id in order && id in nodes && nodes[id] == n
    {
      active := [];
      ActiveMembers(order, nodes);
      assert order[0..] == order;
      for i := 0 to |order|
        invariant active + ActiveNodes(order[i..], nodes) == ActiveNodes(order, nodes)
      {
        var id := order[i];
        ActiveStep(order, nodes, i);
        if id in nodes && nodes[id].status == Active {
          active := active + [nodes[id]];
        }
      }
    }

    /** `listener` hears that a node went offline while the loop is still running. */
    method CheckNodeHealth(now: int, listener: ClusterCoordinator)
      requires listener.Valid() && listener.registry == this
      modifies this`nodes, listener
      ensures listener.Valid() && listener.registry == this && order == old(order)
      ensures listener.Model() == ExaminedAll(old(listener.Model()), order, now, heartbeatTimeout)
    {
      ghost var start := listener.Model();
      assert order[0..] == order;
      for i := 0 to |order|
        invariant listener.Valid() && listener.registry == this && order == old(order)
        invariant ExaminedAll(start, order, now, heartbeatTimeout) ==
                  ExaminedAll(listener.Model(), order[i..], now, heartbeatTimeout)
      {
        var nodeId := order[i];
        assert order[i..][0] == nodeId && order[i..][1..] == order[i + 1..];
        if nodeId != localNodeId && nodeId in nodes {
          var node := nodes[nodeId];
          var sinceHeartbeat := now - node.lastHeartbeat;
          if sinceHeartbeat > heartbeatTimeout {
            if node.status == Active {
              nodes := nodes[nodeId := node.(status := Suspect)];
            } else if node.status == Suspect && sinceHeartbeat > heartbeatTimeout * 2 {
              nodes := nodes[nodeId := node.(status := Offline)];
              listener.OnNodeOffline(node.id);
            }
          }
        }
      }
    }
  }

  class ClusterCoordinator {
    const registry: NodeRegistry
    const localId: string
    var leaderId: Option<string>
    var term: nat

    ghost predicate Valid()
      reads this, registry
    {
      registry.localNodeId == localId
    }

    ghost function Model(): View
      reads this, registry
    {
      View(registry.order, registry.nodes, leaderId, term, localId)
    }

    /** Registers the local node and holds the first election. */
    constructor (registry: NodeRegistry, local: NodeInfo)
      requires registry.order == [] && registry.nodes == map[] && registry.localNodeId == local.id
      modifies registry
      ensures Valid() && this.registry == registry && Model() == Started(local)
    {
      this.registry, localId := registry, local.id;
      leaderId, term := None, 0;
      new;
      registry.RegisterNode(local);
      StartElection();
    }

    /** The active node that started first, or the local one when none is active. */
    method ElectLeader() returns (leader: string)
      ensures leader == Winner(Model())
      ensures WellFormed(Model()) ==> FirstLeads(registry.nodes, leader, localId)
    {
      FirstElected(Model());
      var activeNodes := registry.GetActiveNodes();
      if activeNodes == [] {
        return localId;
      }
      SortPermutes(Senior, activeNodes);
      var sorted := Sort(Senior, activeNodes);
      return sorted[0].id;
    }

    method StartElection()
      modifies this`leaderId, this`term
      ensures Model() == Elected(old(Model()))
      ensures term == old(term) + 1 && leaderId.Some?
      ensures WellFormed(old(Model())) ==> FirstLeads(registry.nodes, leaderId.value, localId)
    {
      var leader := ElectLeader();
      term := term + 1;
      leaderId := Some(leader);
    }

    method OnNodeOffline(id: string)
      modifies this`leaderId, this`term
      ensures Model() == if old(leaderId) == Some(id) then Elected(old(Model())) else old(Model())
    {
      if leaderId == Some(id) {
        StartElection();
      }
    }

    method HandleNodeAnnounce(info: NodeInfo)
      modifies registry
      ensures Model() == Happen(old(Model()), Announce(info), registry.heartbeatTimeout)
    {
      registry.RegisterNode(info);
    }

    method HandleNodeGoodbye(id: string)
      modifies this`leaderId, this`term, registry
      ensures Model() == Happen(old(Model()), Goodbye(id), registry.heartbeatTimeout)
    {
      registry.DeregisterNode(id);
      if leaderId == Some(id) {
        StartElection();
      }
    }

    method HandleHeartbeat(id: string, load: Option<real>, connections: Option<nat>, now: int)
      modifies registry
      ensures Model() == Happen(old(Model()), Heartbeat(id, load, connections, now), registry.heartbeatTimeout)
    {
      registry.UpdateHeartbeat(id, load, connections, now);
    }
  }
}
