/** The life of game servers under calls and delayed callbacks. */
module GameServers {
  import opened Common

  datatype Status = Starting | Running | Full | Draining | Stopped

  datatype Server = Server(mode: string, status: Status, currentPlayers: int, maxPlayers: int)

  datatype Timer = StartTimer(id: string) | StopTimer(id: string)

  /** `used` collects every id ever handed out; timers may outlive their server. */
  datatype Fleet = Fleet(servers: map<string, Server>, timers: multiset<Timer>, used: set<string>)

  datatype Step =
    | Create(id: string, mode: string, maxPlayers: int)
    | Stop(id: string)
    | Remove(id: string)
    | AddPlayer(id: string)
    | RemovePlayer(id: string)
    | Fire(timer: Timer)
    | StopAll

  // ---------- one step ----------

  function WithStatus(f: Fleet, id: string, status: Status): Fleet
    requires id in f.servers
  {
    f.(servers := f.servers[id := f.servers[id].(status := status)])
  }

  function StopOne(f: Fleet, id: string): Fleet {
    if id !in f.servers then f
    else WithStatus(f, id, Draining).(timers := f.timers + multiset{StopTimer(id)})
  }

  function Fired(f: Fleet, timer: Timer): Fleet {
    var rest := f.(timers := f.timers - multiset{timer});
    match timer
    case StartTimer(id) =>
      if id in f.servers && f.servers[id].status == Starting then WithStatus(rest, id, Running) else rest
    case StopTimer(id) => if id in f.servers then WithStatus(rest, id, Stopped) else rest
  }

  function Joined(s: Server): Server {
    if s.status != Running || s.currentPlayers >= s.maxPlayers then s
    else s.(currentPlayers := s.currentPlayers + 1,
            status := if s.currentPlayers + 1 >= s.maxPlayers then Full else Running)
  }

  function Parted(s: Server): Server {
    var players := if s.currentPlayers > 0 then s.currentPlayers - 1 else 0;
    s.(currentPlayers := players, status := if s.status == Full && players < s.maxPlayers then Running else s.status)
  }

  function Do(f: Fleet, step: Step): Fleet {
    match step
    case Create(id, mode, maxPlayers) =>
      Fleet(f.servers[id := Server(mode, Starting, 0, maxPlayers)], f.timers + multiset{StartTimer(id)}, f.used + {id})
    case Stop(id) => StopOne(f, id)
    case Remove(id) =>
      if id !in f.servers then f
      else
        var stopped := if f.servers[id].status != Stopped then StopOne(f, id) else f;
        stopped.(servers := stopped.servers - {id})
    case AddPlayer(id) => if id in f.servers then f.(servers := f.servers[id := Joined(f.servers[id])]) else f
    case RemovePlayer(id) => if id in f.servers then f.(servers := f.servers[id := Parted(f.servers[id])]) else f
    case Fire(timer) => if timer in f.timers then Fired(f, timer) else f
    case StopAll => f.(servers := map id | id in f.servers :: f.servers[id].(status := Stopped))
  }

  function Run(f: Fleet, steps: seq<Step>): Fleet {
    if steps == [] then f else Do(Run(f, steps[..|steps| - 1]), steps[|steps| - 1])
  }

  /** Ids are fresh and servers have at least one seat. */
  predicate Usable(f: Fleet, step: Step) {
    step.Create? ==> step.id !in f.used && step.maxPlayers >= 1
  }

  predicate AllUsable(f: Fleet, steps: seq<Step>) {
    steps == [] || (AllUsable(f, steps[..|steps| - 1]) && Usable(Run(f, steps[..|steps| - 1]), steps[|steps| - 1]))
  }

  // ---------- invariants ----------

  predicate Coherent(s: Server) {
    && 0 <= s.currentPlayers <= s.maxPlayers && s.maxPlayers >= 1
    && (s.status == Starting ==> s.currentPlayers == 0)
    && (s.status == Running ==> s.currentPlayers < s.maxPlayers)
    && (s.status == Full ==> s.currentPlayers == s.maxPlayers)
  }

  predicate AllCoherent(f: Fleet) {
    && f.servers.Keys <= f.used
    && forall id :: id in f.servers ==> Coherent(f.servers[id])
  }

  predicate Live(s: Server) { s.status == Starting || s.status == Running || s.status == Full }

  /** What one step may do: nothing incoherent, and nothing dead coming back to life. */
  predicate Evolves(f: Fleet, f': Fleet) {
    && AllCoherent(f') && f.used <= f'.used
    && forall id :: id in f.used && id in f'.servers ==>
         id in f.servers && (!Live(f.servers[id]) ==> !Live(f'.servers[id]))
  }

  lemma {:induction false} ReplaceEvolves(f: Fleet, id: string, s: Server, f': Fleet)
    requires AllCoherent(f) && id in f.servers && f'.servers == f.servers[id := s] && f'.used == f.used
    requires Coherent(s) && (!Live(f.servers[id]) ==> !Live(s))
    ensures Evolves(f, f')
  {
  }

  lemma {:induction false} ForgetEvolves(f: Fleet, id: string, f': Fleet)
    requires AllCoherent(f) && f'.servers == f.servers - {id} && f'.used == f.used
    ensures Evolves(f, f')
  {
  }

  lemma {:induction false} FireEvolves(f: Fleet, timer: Timer)
    requires AllCoherent(f)
    ensures Evolves(f, Do(f, Fire(timer)))
  {
    if timer in f.timers && timer.id in f.servers {
      var s := f.servers[timer.id];
      match timer {
        case StartTimer(id) =>
          if s.status == Starting {
            ReplaceEvolves(f, id, s.(status := Running), Fired(f, timer));
          }
        case StopTimer(id) => ReplaceEvolves(f, id, s.(status := Stopped), Fired(f, timer));
      }
    }
  }

  lemma {:induction false} CreateEvolves(f: Fleet, id: string, mode: string, maxPlayers: int)
    requires AllCoherent(f) && id !in f.used && maxPlayers >= 1
    ensures Evolves(f, Do(f, Create(id, mode, maxPlayers)))
  {
  }

  lemma {:induction false} StepCoherent(f: Fleet, step: Step)
    requires AllCoherent(f) && Usable(f, step)
    ensures Evolves(f, Do(f, step))
  {
    match step {
      case Create(id, mode, maxPlayers) => CreateEvolves(f, id, mode, maxPlayers);
      case Stop(id) =>
        if id in f.servers {
          ReplaceEvolves(f, id, f.servers[id].(status := Draining), StopOne(f, id));
        }
      case Remove(id) =>
        if id in f.servers {
          assert StopOne(f, id).servers - {id} == f.servers - {id};
          ForgetEvolves(f, id, Do(f, step));
        }
      case AddPlayer(id) =>
        if id in f.servers {
          ReplaceEvolves(f, id, Joined(f.servers[id]), Do(f, step));
        }
      case RemovePlayer(id) =>
        if id in f.servers {
          ReplaceEvolves(f, id, Parted(f.servers[id]), Do(f, step));
        }
      case Fire(timer) => FireEvolves(f, timer);
      case StopAll =>
    }
  }

  /** Over any interleaving of calls and callbacks every server's players and status agree. */
  lemma {:induction false} ServersStayCoherent(f: Fleet, steps: seq<Step>)
    requires AllCoherent(f) && AllUsable(f, steps)
    ensures AllCoherent(Run(f, steps)) && f.used <= Run(f, steps).used
  {
    if steps != [] {
      ServersStayCoherent(f, steps[..|steps| - 1]);
      StepCoherent(Run(f, steps[..|steps| - 1]), steps[|steps| - 1]);
    }
  }

  /** A server that has left STARTING, RUNNING and FULL, or is gone, never gets back to them,
      whatever start or stop callbacks are still pending. */
  lemma {:induction false} NeverRevives(f: Fleet, steps: seq<Step>, id: string)
    requires AllCoherent(f) && AllUsable(f, steps)
    requires id in f.used && (id in f.servers ==> !Live(f.servers[id]))
    ensures id in Run(f, steps).servers ==> !Live(Run(f, steps).servers[id])
  {
    if steps != [] {
      var init := steps[..|steps| - 1];
      NeverRevives(f, init, id);
      ServersStayCoherent(f, init);
      StepCoherent(Run(f, init), steps[|steps| - 1]);
    }
  }

  // ---------- which servers there are ----------

  predicate Creates(step: Step, id: string) { step.Create? && step.id == id }

  /** The server is not removed from position `i` on. */
  predicate Unremoved(steps: seq<Step>, id: string, i: nat) {
    forall j :: i <= j < |steps| ==> steps[j] != Remove(id)
  }

  /** Some step creates the server and no later one removes it. */
  predicate Created(steps: seq<Step>, id: string) {
    exists i :: 0 <= i < |steps| && Creates(steps[i], id) && Unremoved(steps, id, i + 1)
  }

  lemma {:induction false} UnremovedLast(steps: seq<Step>, id: string, i: nat)
    requires steps != [] && i < |steps|
    ensures Unremoved(steps, id, i) <==> Unremoved(Init(steps), id, i) && Last(steps) != Remove(id)
  {
    assert forall j :: 0 <= j < |steps| - 1 ==> Init(steps)[j] == steps[j];
  }

  lemma {:induction false} CreatedLast(steps: seq<Step>, id: string)
    requires steps != []
    ensures Created(steps, id) <==> Creates(Last(steps), id) || (Created(Init(steps), id) && Last(steps) != Remove(id))
  {
    var init, last := Init(steps), Last(steps);
    if Creates(last, id) {
      assert Creates(steps[|steps| - 1], id) && Unremoved(steps, id, |steps|);
    } else if Created(steps, id) {
      var i :| 0 <= i < |steps| && Creates(steps[i], id) && Unremoved(steps, id, i + 1);
      UnremovedLast(steps, id, i + 1);
      assert Creates(init[i], id);
    } else if Created(init, id) {
      var i :| 0 <= i < |init| && Creates(init[i], id) && Unremoved(init, id, i + 1);
      UnremovedLast(steps, id, i + 1);
      assert Creates(steps[i], id);
    }
  }

  /** A server exists if and only if it was created, or there before, and not removed afterwards; no callback brings
      one back or takes one away. */
  lemma {:induction false} ServerExistsIff(f: Fleet, steps: seq<Step>, id: string)
    ensures id in Run(f, steps).servers <==> Created(steps, id) || (id in f.servers && Unremoved(steps, id, 0))
  {
    if steps != [] {
      ServerExistsIff(f, Init(steps), id);
      UnremovedLast(steps, id, 0);
      CreatedLast(steps, id);
      StepServers(Run(f, Init(steps)), Last(steps), id);
    }
  }

  lemma {:induction false} StepServers(f: Fleet, step: Step, id: string)
    ensures id in Do(f, step).servers <==> Creates(step, id) || (id in f.servers && step != Remove(id))
  {
  }

  // ---------- seating the players of a match ----------

  function Joins(id: string, n: nat): (r: seq<Step>)
    ensures |r| == n && forall i :: 0 <= i < n ==> r[i] == AddPlayer(id)
  {
    seq(n, i => AddPlayer(id))
  }

  /** How many of `n` players get a seat. */
  function Seated(s: Server, n: nat): nat {
    if s.status != Running || s.currentPlayers >= s.maxPlayers then 0
    else if s.currentPlayers + n <= s.maxPlayers then n
    else s.maxPlayers - s.currentPlayers
  }

  function WithPlayers(s: Server, k: nat): Server {
    s.(currentPlayers := s.currentPlayers + k,
       status := if k > 0 && s.currentPlayers + k >= s.maxPlayers then Full else s.status)
  }

  lemma {:induction false} OneJoins(s: Server, n: nat)
    requires n > 0
    ensures Joined(WithPlayers(s, Seated(s, n - 1))) == WithPlayers(s, Seated(s, n))
  {
  }

  /** Players who join in vain are turned away one by one; the others fill the seats that are free. */
  lemma {:induction false} JoinsFill(f: Fleet, id: string, n: nat)
    requires id in f.servers
    ensures var s := f.servers[id];
            Run(f, Joins(id, n)) == f.(servers := f.servers[id := WithPlayers(s, Seated(s, n))])
  {
    var s := f.servers[id];
    if n == 0 {
      assert f.servers[id := s] == f.servers;
    } else {
      JoinsFill(f, id, n - 1);
      var joins := Joins(id, n);
      assert joins[..n - 1] == Joins(id, n - 1);
      var before := WithPlayers(s, Seated(s, n - 1));
      OneJoins(s, n);
      assert f.servers[id := before][id := Joined(before)] == f.servers[id := Joined(before)];
    }
  }

  /** Everyone who joins is counted if and only if nobody joins, or the server is running and has that many seats. */
  lemma {:induction false} JoinsCountedIff(f: Fleet, id: string, n: nat)
    requires id in f.servers
    ensures id in Run(f, Joins(id, n)).servers
    ensures var s := f.servers[id];
            Run(f, Joins(id, n)).servers[id].currentPlayers == s.currentPlayers + n
            <==> n == 0 || (s.status == Running && s.currentPlayers + n <= s.maxPlayers)
  {
    JoinsFill(f, id, n);
  }

  function Leaves(id: string, n: nat): (r: seq<Step>)
    ensures |r| == n && forall i :: 0 <= i < n ==> r[i] == RemovePlayer(id)
  {
    seq(n, i => RemovePlayer(id))
  }

  /** Leaving players free their seats, down to an empty server; a full server runs again as soon as one has left,
      and no other status is touched. */
  lemma {:induction false} LeavesFree(f: Fleet, id: string, n: nat)
    requires id in f.servers && Coherent(f.servers[id])
    ensures id in Run(f, Leaves(id, n)).servers
    ensures var s, f' := f.servers[id], Run(f, Leaves(id, n));
            var s' := f'.servers[id];
            && f' == f.(servers := f.servers[id := s'])
            && s'.currentPlayers == (if n < s.currentPlayers then s.currentPlayers - n else 0)
            && s'.mode == s.mode && s'.maxPlayers == s.maxPlayers
            && s'.status == if s.status == Full && n > 0 then Running else s.status
  {
    if n == 0 {
      assert f.servers[id := f.servers[id]] == f.servers;
    } else {
      var leaves, g := Leaves(id, n), Run(f, Leaves(id, n - 1));
      LeavesFree(f, id, n - 1);
      assert leaves[..n - 1] == Leaves(id, n - 1);
      var s' := g.servers[id];
      assert f.servers[id := s'][id := Parted(s')] == f.servers[id := Parted(s')];
    }
  }

  /** When as many players leave a running server as joined it, and had seats, it is as it was. */
  lemma {:induction false} LeavesUndoJoins(f: Fleet, id: string, n: nat)
    requires id in f.servers && Coherent(f.servers[id])
    requires f.servers[id].status == Running && f.servers[id].currentPlayers + n <= f.servers[id].maxPlayers
    ensures Run(Run(f, Joins(id, n)), Leaves(id, n)) == f
  {
    var joined := Run(f, Joins(id, n));
    JoinsFill(f, id, n);
    LeavesFree(joined, id, n);
    var left := Run(joined, Leaves(id, n));
    assert left.servers[id] == f.servers[id];
    assert f.servers[id := joined.servers[id]][id := f.servers[id]] == f.servers;
  }

  // ---------- the callbacks ----------

  /** A start callback makes its server run if and only if the server is still starting then; a stop callback stops
      its server if it still exists. Either is spent, and no other server is touched. */
  lemma {:induction false} CallbackDecides(f: Fleet, id: string)
    requires StartTimer(id) in f.timers && StopTimer(id) in f.timers
    ensures var started, stopped := Do(f, Fire(StartTimer(id))), Do(f, Fire(StopTimer(id)));
            && started.timers == f.timers - multiset{StartTimer(id)}
            && stopped.timers == f.timers - multiset{StopTimer(id)}
            && started.servers.Keys == stopped.servers.Keys == f.servers.Keys
            && (forall other :: other in f.servers && other != id ==>
                  started.servers[other] == stopped.servers[other] == f.servers[other])
            && (id in f.servers ==>
                  && stopped.servers[id].status == Stopped
                  && started.servers[id].status == if f.servers[id].status == Starting then Running
                                                   else f.servers[id].status)
  {
  }

  /** Neither stopped nor removed nor created again. */
  predicate LetBe(step: Step, id: string) {
    step != Stop(id) && step != StopAll && step != Remove(id) && !Creates(step, id)
  }

  /** The server drains with a pending stop callback, or is stopped. */
  predicate Ending(f: Fleet, id: string) {
    id in f.servers
    && (f.servers[id].status == Stopped || (f.servers[id].status == Draining && StopTimer(id) in f.timers))
  }

  lemma {:induction false} DrainFire(f: Fleet, id: string, timer: Timer)
    requires Ending(f, id)
    ensures Ending(Do(f, Fire(timer)), id)
    ensures Do(f, Fire(timer)).servers[id].status ==
            if timer == StopTimer(id) then Stopped else f.servers[id].status
  {
    if timer in f.timers {
      assert timer != StopTimer(id) ==> (f.timers - multiset{timer})[StopTimer(id)] == f.timers[StopTimer(id)];
    }
  }

  lemma {:induction false} DrainStep(f: Fleet, id: string, step: Step)
    requires Ending(f, id) && LetBe(step, id)
    ensures Ending(Do(f, step), id)
    ensures Do(f, step).servers[id].status == if step == Fire(StopTimer(id)) then Stopped else f.servers[id].status
  {
    match step {
      case Fire(timer) => DrainFire(f, id, timer);
      case _ =>
    }
  }

  lemma {:induction false} DrainRun(f: Fleet, id: string, later: seq<Step>)
    requires Ending(f, id) && f.servers[id].status == Draining
    requires forall i :: 0 <= i < |later| ==> LetBe(later[i], id)
    ensures Ending(Run(f, later), id)
    ensures Run(f, later).servers[id].status == if Fire(StopTimer(id)) in later then Stopped else Draining
  {
    if later != [] {
      var init, last := later[..|later| - 1], later[|later| - 1];
      DrainRun(f, id, init);
      DrainStep(Run(f, init), id, last);
      assert later == init + [last];
    }
  }

  /** A stopped server drains until its stop callback runs, and is stopped from then on, unless it is stopped again
      or removed or the manager is shut down. */
  lemma {:induction false} StopsWhenFired(f: Fleet, id: string, later: seq<Step>)
    requires id in f.servers && forall i :: 0 <= i < |later| ==> LetBe(later[i], id)
    ensures var f' := Run(Do(f, Stop(id)), later);
            && id in f'.servers
            && f'.servers[id].status == (if Fire(StopTimer(id)) in later then Stopped else Draining)
            && (Fire(StopTimer(id)) !in later ==> StopTimer(id) in f'.timers)
  {
    DrainRun(Do(f, Stop(id)), id, later);
  }

  predicate Available(f: Fleet, id: string, mode: string) {
    id in f.servers && f.servers[id].mode == mode
    && f.servers[id].status == Running && f.servers[id].currentPlayers < f.servers[id].maxPlayers
  }

  /** A match takes an available server with the fewest players. */
  predicate LeastFilled(f: Fleet, id: string, mode: string) {
    Available(f, id, mode)
    && forall other :: other in f.servers && Available(f, other, mode)
                       ==> f.servers[id].currentPlayers <= f.servers[other].currentPlayers
  }

  /** The fleet after `n` players of a match were placed on `id`, which may be a server created for them. */
  function Placed(f: Fleet, id: string, mode: string, maxPlayers: int, n: nat): Fleet {
    Run(if Available(f, id, mode) then f else Do(f, Create(id, mode, maxPlayers)), Joins(id, n))
  }

  /** All players of a match are counted if and only if their server was running already and had seats for
      all of them; a server created for the match counts nobody. */
  lemma {:induction false} MatchCountedIff(f: Fleet, id: string, mode: string, maxPlayers: int, n: nat)
    requires n > 0 && (Available(f, id, mode) || id !in f.servers)
    ensures id in Placed(f, id, mode, maxPlayers, n).servers
    ensures var before := if id in f.servers then f.servers[id].currentPlayers else 0;
            Placed(f, id, mode, maxPlayers, n).servers[id].currentPlayers == before + n
            <==> Available(f, id, mode) && before + n <= f.servers[id].maxPlayers
  {
    if Available(f, id, mode) {
      JoinsCountedIff(f, id, n);
    } else {
      JoinsCountedIff(Do(f, Create(id, mode, maxPlayers)), id, n);
    }
  }

  /** A running server with one free seat takes one player of a match of two and drops the other. */
  lemma {:induction false} RunningServerDropsPlayer(f: Fleet, id: string, mode: string)
    requires id in f.servers && f.servers[id] == Server(mode, Running, 1, 2)
    ensures Available(f, id, mode) && id in Run(f, Joins(id, 2)).servers
    ensures Run(f, Joins(id, 2)).servers[id] == Server(mode, Full, 2, 2)
  {
    JoinsFill(f, id, 2);
  }

  /** Until its start callback fires a new server counts nobody, however many players are added to it. */
  lemma {:induction false} FreshServerCountsNobody(f: Fleet, id: string, mode: string, maxPlayers: int, n: nat)
    ensures Run(Do(f, Create(id, mode, maxPlayers)), Joins(id, n)) == Do(f, Create(id, mode, maxPlayers))
  {
    var created := Do(f, Create(id, mode, maxPlayers));
    JoinsFill(created, id, n);
    assert created.servers[id := created.servers[id]] == created.servers;
  }

  // ---------- the manager ----------

  class GameServerManager {
    var servers: map<string, Server>
    var timers: multiset<Timer>
    ghost var used: set<string>
    const maxServers: nat

    ghost function Model(): Fleet
      reads this
    {
      Fleet(servers, timers, used)
    }

    constructor (maxServers: nat)
      ensures Model() == Fleet(map[], multiset{}, {}) && AllCoherent(Model()) && this.maxServers == maxServers
    {
      servers, timers, used := map[], multiset{}, {};
      this.maxServers := maxServers;
    }

    /** Refused at the server limit; `id` is the generated one. */
    method CreateServer(id: string, mode: string, maxPlayers: int) returns (created: bool)
      modifies this
      ensures created <==> |old(servers)| < maxServers
      ensures Model() == if created then Do(old(Model()), Create(id, mode, maxPlayers)) else old(Model())
      ensures created ==> servers == old(servers)[id := Server(mode, Starting, 0, maxPlayers)]
                          && timers == old(timers) + multiset{StartTimer(id)}
    {
      if |servers| >= maxServers {
        return false;
      }
      servers := servers[id := Server(mode, Starting, 0, maxPlayers)];
      timers := timers + multiset{StartTimer(id)};
      used := used + {id};
      return true;
    }

    method StopServer(id: string) returns (found: bool)
      modifies this
      ensures Model() == Do(old(Model()), Stop(id)) && (found <==> id in old(servers))
      ensures found ==> servers == old(servers)[id := old(servers)[id].(status := Draining)]
                        && timers == old(timers) + multiset{StopTimer(id)}
      ensures !found ==> servers == old(servers) && timers == old(timers)
    {
      if id !in servers {
        return false;
      }
      servers := servers[id := servers[id].(status := Draining)];
      timers := timers + multiset{StopTimer(id)};
      return true;
    }

    method RemoveServer(id: string) returns (found: bool)
      modifies this
      ensures Model() == Do(old(Model()), Remove(id)) && (found <==> id in old(servers))
      ensures servers == old(servers) - {id}
    {
      if id !in servers {
        return false;
      }
      if servers[id].status != Stopped {
        var _ := StopServer(id);
      }
      servers := servers - {id};
      return true;
    }

    method AddPlayerTo(id: string) returns (added: bool)
      modifies this`servers
      ensures Model() == Do(old(Model()), AddPlayer(id))
      ensures !added ==> servers == old(servers)
      ensures added ==> id in servers && servers[id].currentPlayers == old(servers)[id].currentPlayers + 1
                        && (servers[id].status == Full <==> servers[id].currentPlayers >= servers[id].maxPlayers)
      ensures added <==> id in old(servers) && old(servers)[id].status == Running
                         && old(servers)[id].currentPlayers < old(servers)[id].maxPlayers
    {
      if id !in servers || servers[id].status != Running {
        assert id in servers ==> servers[id := servers[id]] == servers;
        return false;
      }
      var server := servers[id];
      if server.currentPlayers >= server.maxPlayers {
        assert servers[id := servers[id]] == servers;
        return false;
      }
      server := server.(currentPlayers := server.currentPlayers + 1);
      if server.currentPlayers >= server.maxPlayers {
        server := server.(status := Full);
      }
      servers := servers[id := server];
      return true;
    }

    method RemovePlayerFrom(id: string) returns (found: bool)
      modifies this`servers
      ensures Model() == Do(old(Model()), RemovePlayer(id)) && (found <==> id in old(servers))
      ensures !found ==> servers == old(servers)
      ensures found ==>
                var s := old(servers)[id];
                id in servers && servers == old(servers)[id := servers[id]]
                && servers[id].currentPlayers == (if s.currentPlayers > 0 then s.currentPlayers - 1 else 0)
                && servers[id].status == if s.status == Full && servers[id].currentPlayers < s.maxPlayers then Running
                                         else s.status
    {
      if id !in servers {
        return false;
      }
      var server := servers[id];
      server := server.(currentPlayers := if server.currentPlayers > 0 then server.currentPlayers - 1 else 0);
      if server.status == Full && server.currentPlayers < server.maxPlayers {
        server := server.(status := Running);
      }
      servers := servers[id := server];
      return true;
    }

    /** The server of a match: an available one with the fewest players, or a new one, unless the limit is
        reached; then every player of the match is added to it. `newId` is the generated one. */
    method PlaceMatch(mode: string, maxPlayers: int, players: nat, newId: string) returns (placed: Option<string>)
      modifies this
      ensures placed.None? ==> Model() == old(Model()) && |old(servers)| >= maxServers
                               && forall id :: id in old(servers) ==> !Available(old(Model()), id, mode)
      ensures placed.Some? ==> Model() == Placed(old(Model()), placed.value, mode, maxPlayers, players)
      ensures placed.Some? ==> if exists id :: id in old(servers) && Available(old(Model()), id, mode)
                               then LeastFilled(old(Model()), placed.value, mode) else placed.value == newId
    {
      var chosen := ChooseServer(mode);
      var id := newId;
      if chosen.Some? {
        id := chosen.value;
      } else {
        var created := CreateServer(newId, mode, maxPlayers);
        if !created {
          return None;
        }
      }
      AddPlayers(id, players);
      return Some(id);
    }

    /** An available server with the fewest players; which one of several does not matter here. */
    method ChooseServer(mode: string) returns (chosen: Option<string>)
      ensures chosen.Some? ==> LeastFilled(Model(), chosen.value, mode)
      ensures chosen.None? ==> forall id :: id in servers ==> !Available(Model(), id, mode)
      ensures chosen.Some? ==>
                && chosen.value in servers && servers[chosen.value].mode == mode
                && servers[chosen.value].status == Running
                && servers[chosen.value].currentPlayers < servers[chosen.value].maxPlayers
      ensures forall s :: s in servers.Values && s.mode == mode && s.status == Running
                          && s.currentPlayers < s.maxPlayers ==>
                chosen.Some? && servers[chosen.value].currentPlayers <= s.currentPlayers
    {
      chosen := None;
      var ids := servers.Keys;
      while ids != {}
        invariant ids <= servers.Keys
        invariant chosen.Some? ==> Available(Model(), chosen.value, mode)
        invariant forall id :: id in servers && id !in ids && Available(Model(), id, mode) ==>
                    chosen.Some? && servers[chosen.value].currentPlayers <= servers[id].currentPlayers
        decreases |ids|
      {
        var id :| id in ids;
        var s := servers[id];
        if s.mode == mode && s.status == Running && s.currentPlayers < s.maxPlayers
           && (chosen.None? || s.currentPlayers < servers[chosen.value].currentPlayers) {
          chosen := Some(id);
        }
        ids := ids - {id};
      }
    }

    method AddPlayers(id: string, players: nat)
      modifies this`servers
      ensures Model() == Run(old(Model()), Joins(id, players))
    {
      for i := 0 to players
        invariant Model() == Run(old(Model()), Joins(id, i))
      {
        var _ := AddPlayerTo(id);
        assert Joins(id, i + 1)[..i] == Joins(id, i);
      }
    }

    /** Shutting the manager down marks every server stopped at once. */
    method StopManager()
      modifies this`servers
      ensures Model() == Do(old(Model()), StopAll)
      ensures servers.Keys == old(servers).Keys && forall id :: id in servers ==> servers[id].status == Stopped
    {
      var ids := servers.Keys;
      while ids != {}
        invariant ids <= servers.Keys == old(servers).Keys
        invariant forall id :: id in servers ==>
                    servers[id] == if id in ids then old(servers)[id] else old(servers)[id].(status := Stopped)
        decreases |ids|
      {
        var id :| id in ids;
        servers := servers[id := servers[id].(status := Stopped)];
        ids := ids - {id};
      }
      assert servers == Do(old(Model()), StopAll).servers;
    }

    /** A pending callback runs. */
    method OnTimer(timer: Timer)
      requires timer in timers
      modifies this
      ensures Model() == Do(old(Model()), Fire(timer))
      ensures timers == old(timers) - multiset{timer} && servers.Keys == old(servers).Keys
      ensures timer.StartTimer? && timer.id in servers ==>
                servers[timer.id].status == if old(servers)[timer.id].status == Starting then Running
                                            else old(servers)[timer.id].status
      ensures timer.StopTimer? && timer.id in servers ==> servers[timer.id].status == Stopped
    {
      timers := timers - multiset{timer};
      match timer {
        case StartTimer(id) =>
          if id in servers && servers[id].status == Starting {
            servers := servers[id := servers[id].(status := Running)];
          }
        case StopTimer(id) =>
          if id in servers {
            servers := servers[id := servers[id].(status := Stopped)];
          }
      }
    }
  }
}
