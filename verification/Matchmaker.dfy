/** One matchmaking pass: what happens to every request, and in which order. */
module Matchmaker {
  import opened Common
  import GameServers

  datatype Request = Request(playerId: string, rating: Option<int>, mapName: Option<string>, requestedAt: int)

  datatype Config = Config(minPlayers: int, maxPlayers: int, maxWaitTimeMs: int)

  datatype Match = Match(serverId: string, mode: string, mapName: string, players: seq<string>, maxPlayers: int,
                         startedAt: int)

  // ---------- specification of a pass ----------

  function Rating(r: Request): int {
    if r.rating.Some? then r.rating.value else 0
  }

  predicate ByRating(a: Request, b: Request) { Rating(a) <= Rating(b) }

  function Unexpired(now: int, cfg: Config): Request -> bool {
    (r: Request) => now - r.requestedAt <= cfg.maxWaitTimeMs
  }

  /** The requests that have not waited too long, in queue order. */
  function Active(queue: seq<Request>, now: int, cfg: Config): seq<Request> {
    Filter(Unexpired(now, cfg), queue)
  }

  /** The size of the block spliced off the front. */
  function BlockSize(n: nat, maxPlayers: int): nat {
    if maxPlayers < 0 then 0 else if maxPlayers <= n then maxPlayers else n
  }

  /** The blocks matched and the requests left over. */
  function Split(sorted: seq<Request>, cfg: Config): (seq<seq<Request>>, seq<Request>)
    requires cfg.minPlayers >= 1
  {
    if |sorted| < cfg.minPlayers then ([], sorted)
    else
      var k := BlockSize(|sorted|, cfg.maxPlayers);
      if k < cfg.minPlayers then ([], sorted[k..] + sorted[..k])
      else var (groups, rest) := Split(sorted[k..], cfg); ([sorted[..k]] + groups, rest)
  }

  function Flat(groups: seq<seq<Request>>): seq<Request> {
    if groups == [] then [] else groups[0] + Flat(groups[1..])
  }

  function Ids(requests: seq<Request>): (r: seq<string>)
    ensures |r| == |requests|
    ensures forall i :: 0 <= i < |r| ==> r[i] == requests[i].playerId
  {
    seq(|requests|, i requires 0 <= i < |requests| => requests[i].playerId)
  }

  function LeftOver(rest: seq<Request>): Request -> bool {
    (r: Request) => r.playerId in Ids(rest)
  }

  /** The new queue: everyone still active whose player id is left over. */
  function Remaining(active: seq<Request>, rest: seq<Request>): seq<Request> {
    Filter(LeftOver(rest), active)
  }

  datatype Pass = Pass(matched: seq<seq<Request>>, leftOver: seq<Request>, queue: seq<Request>)

  function PassOf(queue: seq<Request>, now: int, cfg: Config): Pass
    requires cfg.minPlayers >= 1
  {
    var active := Active(queue, now, cfg);
    var (matched, rest) := Split(Sort(ByRating, active), cfg);
    Pass(matched, rest, Remaining(active, rest))
  }

  // ---------- blocks ----------

  predicate Blocked(sorted: seq<Request>, cfg: Config) {
    1 <= cfg.minPlayers <= cfg.maxPlayers && |sorted| >= cfg.minPlayers
  }

  lemma {:induction false} SplitStep(sorted: seq<Request>, cfg: Config)
    requires Blocked(sorted, cfg)
    ensures var k := BlockSize(|sorted|, cfg.maxPlayers);
            && cfg.minPlayers <= k <= |sorted| && k <= cfg.maxPlayers
            && Split(sorted, cfg).0 == [sorted[..k]] + Split(sorted[k..], cfg).0
            && Split(sorted, cfg).1 == Split(sorted[k..], cfg).1
  {
  }

  lemma {:induction false} SplitFlat(sorted: seq<Request>, cfg: Config)
    requires 1 <= cfg.minPlayers <= cfg.maxPlayers
    ensures Flat(Split(sorted, cfg).0) + Split(sorted, cfg).1 == sorted
    decreases |sorted|
  {
    if |sorted| >= cfg.minPlayers {
      var k := BlockSize(|sorted|, cfg.maxPlayers);
      SplitStep(sorted, cfg);
      SplitFlat(sorted[k..], cfg);
      FlatCons(sorted[..k], Split(sorted[k..], cfg).0);
      assert sorted == sorted[..k] + sorted[k..];
    } else {
      assert Flat([]) + sorted == sorted;
    }
  }

  lemma {:induction false} SplitSizes(sorted: seq<Request>, cfg: Config)
    requires 1 <= cfg.minPlayers <= cfg.maxPlayers
    ensures var groups := Split(sorted, cfg).0;
            forall i :: 0 <= i < |groups| ==> cfg.minPlayers <= |groups[i]| <= cfg.maxPlayers
    decreases |sorted|
  {
    if |sorted| >= cfg.minPlayers {
      SplitStep(sorted, cfg);
      SplitSizes(sorted[BlockSize(|sorted|, cfg.maxPlayers)..], cfg);
    }
  }

  lemma {:induction false} SplitRest(sorted: seq<Request>, cfg: Config)
    requires 1 <= cfg.minPlayers <= cfg.maxPlayers
    ensures |Split(sorted, cfg).1| == Remainder(|sorted|, cfg)
    decreases |sorted|
  {
    if |sorted| >= cfg.minPlayers {
      SplitStep(sorted, cfg);
      SplitRest(sorted[BlockSize(|sorted|, cfg.maxPlayers)..], cfg);
      RemainderStep(|sorted|, cfg);
    } else {
      ModSmall(|sorted|, cfg.maxPlayers);
    }
  }

  /** With a usable configuration the blocks and the remainder are consecutive pieces of the sorted list,
      every block has an admissible size, and the remainder has a closed form. */
  lemma {:induction false} SplitBlocks(sorted: seq<Request>, cfg: Config)
    requires 1 <= cfg.minPlayers <= cfg.maxPlayers
    ensures var (groups, rest) := Split(sorted, cfg);
            && Flat(groups) + rest == sorted
            && (forall i :: 0 <= i < |groups| ==> cfg.minPlayers <= |groups[i]| <= cfg.maxPlayers)
            && |rest| == Remainder(|sorted|, cfg)
  {
    SplitFlat(sorted, cfg);
    SplitSizes(sorted, cfg);
    SplitRest(sorted, cfg);
  }

  lemma {:induction false} FlatCons(group: seq<Request>, groups: seq<seq<Request>>)
    ensures Flat([group] + groups) == group + Flat(groups)
  {
    assert ([group] + groups)[1..] == groups;
  }

  function Remainder(n: nat, cfg: Config): nat
    requires 1 <= cfg.minPlayers <= cfg.maxPlayers
  {
    if n % cfg.maxPlayers < cfg.minPlayers then n % cfg.maxPlayers else 0
  }

  lemma {:induction false} RemainderStep(n: nat, cfg: Config)
    requires 1 <= cfg.minPlayers <= cfg.maxPlayers && n >= cfg.minPlayers
    ensures Remainder(n - BlockSize(n, cfg.maxPlayers), cfg) == Remainder(n, cfg)
  {
    if cfg.maxPlayers <= n {
      ModStep(n, cfg.maxPlayers);
    } else {
      ModSmall(n, cfg.maxPlayers);
      ModSmall(0, cfg.maxPlayers);
    }
  }

  lemma {:induction false} ModSmall(n: int, d: int)
    requires 0 <= n < d
    ensures n % d == n
  {
  }

  lemma {:induction false} ModStep(n: int, d: int)
    requires 0 < d <= n
    ensures (n - d) % d == n % d
  {
    var q, r := n / d, n % d;
    assert n - d == d * (q - 1) + r;
    ModUnique(n - d, d, q - 1, r);
  }

  lemma {:induction false} MulAtLeast(d: int, k: int)
    requires d > 0 && k >= 1
    ensures d * k >= d
  {
  }

  lemma {:induction false} ModUnique(n: int, d: int, q: int, r: int)
    requires d > 0 && 0 <= r < d && n == d * q + r
    ensures n % d == r
  {
    var q', r' := n / d, n % d;
    assert n == d * q' + r';
    assert d * (q' - q) == d * q' - d * q && d * (q - q') == d * q - d * q';
    if q' > q {
      MulAtLeast(d, q' - q);
    } else if q' < q {
      MulAtLeast(d, q - q');
    }
  }

  /** With a maximum below the minimum nobody is matched and nobody is lost. */
  lemma {:induction false} SplitUnusable(sorted: seq<Request>, cfg: Config)
    requires 1 <= cfg.minPlayers && cfg.maxPlayers < cfg.minPlayers
    ensures var (groups, rest) := Split(sorted, cfg); groups == [] && multiset(rest) == multiset(sorted)
  {
    var k := BlockSize(|sorted|, cfg.maxPlayers);
    assert sorted == sorted[..k] + sorted[k..];
  }

  lemma {:induction false} SplitConserves(sorted: seq<Request>, cfg: Config)
    requires 1 <= cfg.minPlayers
    ensures var (groups, rest) := Split(sorted, cfg); multiset(Flat(groups)) + multiset(rest) == multiset(sorted)
  {
    if cfg.minPlayers <= cfg.maxPlayers {
      SplitBlocks(sorted, cfg);
      var (groups, rest) := Split(sorted, cfg);
      assert multiset(Flat(groups) + rest) == multiset(sorted);
    } else {
      SplitUnusable(sorted, cfg);
    }
  }

  // ---------- conservation ----------

  lemma {:induction false} FilterCounts(keep: Request -> bool, s: seq<Request>, x: Request)
    ensures multiset(Filter(keep, s))[x] == if keep(x) then multiset(s)[x] else 0
  {
    if s != [] {
      FilterCounts(keep, s[1..], x);
      assert s == [s[0]] + s[1..];
    }
  }

  /** No player has one request matched and another left over. */
  predicate NoPlayerSplit(matched: seq<Request>, rest: seq<Request>) {
    forall i, j :: 0 <= i < |matched| && 0 <= j < |rest| ==> matched[i].playerId != rest[j].playerId
  }

  /** The filter keeps every leftover request, and a matched one exactly when its player is split. */
  lemma {:induction false} RefilteredExact(active: seq<Request>, matched: seq<Request>, rest: seq<Request>)
    requires multiset(matched) + multiset(rest) == multiset(active)
    ensures NoPlayerSplit(matched, rest) <==> multiset(Remaining(active, rest)) == multiset(rest)
  {
    if NoPlayerSplit(matched, rest) {
      forall x ensures multiset(Remaining(active, rest))[x] == multiset(rest)[x] {
        FilterCounts(LeftOver(rest), active, x);
        KeptIffLeft(matched, rest, x);
      }
    } else {
      var i, j :| 0 <= i < |matched| && 0 <= j < |rest| && matched[i].playerId == rest[j].playerId;
      FilterCounts(LeftOver(rest), active, matched[i]);
      assert Ids(rest)[j] == matched[i].playerId;
      assert multiset(matched)[matched[i]] > 0;
    }
  }

  /** A split player's matched request is queued a second time. */
  lemma {:induction false} ConservedUnlessSplit(queue: seq<Request>, now: int, cfg: Config)
    requires 1 <= cfg.minPlayers
    ensures var p := PassOf(queue, now, cfg);
            NoPlayerSplit(Flat(p.matched), p.leftOver)
            <==> multiset(Flat(p.matched)) + multiset(p.queue) == multiset(Active(queue, now, cfg))
  {
    var p, active := PassOf(queue, now, cfg), Active(queue, now, cfg);
    SortPermutes(ByRating, active);
    SplitConserves(Sort(ByRating, active), cfg);
    RefilteredExact(active, Flat(p.matched), p.leftOver);
    CancelLeft(multiset(Flat(p.matched)), multiset(p.queue), multiset(p.leftOver));
  }

  lemma {:induction false} CancelLeft(a: multiset<Request>, b: multiset<Request>, c: multiset<Request>)
    ensures a + b == a + c <==> b == c
  {
    if a + b == a + c {
      forall x ensures b[x] == c[x] {
        assert (a + b)[x] == (a + c)[x];
      }
    }
  }

  /** How many requests of a sorted list of length `n` get matched. */
  function MatchedCount(n: nat, cfg: Config): (m: nat)
    requires 1 <= cfg.minPlayers
    ensures m <= n
  {
    if cfg.maxPlayers < cfg.minPlayers then 0
    else
      ModAtMost(n, cfg.maxPlayers);
      n - Remainder(n, cfg)
  }

  lemma {:induction false} ModAtMost(n: nat, d: nat)
    requires d > 0
    ensures n % d <= n
  {
    if n < d {
      ModSmall(n, d);
    }
  }

  lemma {:induction false} SplitAtCount(sorted: seq<Request>, cfg: Config)
    requires 1 <= cfg.minPlayers
    ensures var (groups, rest), m := Split(sorted, cfg), MatchedCount(|sorted|, cfg);
            if cfg.maxPlayers < cfg.minPlayers then groups == []
            else Flat(groups) == sorted[..m] && rest == sorted[m..]
  {
    if cfg.maxPlayers < cfg.minPlayers {
      SplitUnusable(sorted, cfg);
    } else {
      SplitBlocks(sorted, cfg);
      var (groups, rest) := Split(sorted, cfg);
      assert |Flat(groups)| == |sorted| - |rest|;
      assert (Flat(groups) + rest)[..|Flat(groups)|] == Flat(groups);
      assert (Flat(groups) + rest)[|Flat(groups)|..] == rest;
    }
  }

  /** Every unexpired request ends up in exactly one match or in the new queue if and only if no player
      has requests on both sides of the cut, which only depends on how many requests there are. */
  lemma {:induction false} ConservationIff(queue: seq<Request>, now: int, cfg: Config)
    requires 1 <= cfg.minPlayers
    ensures var p, sorted := PassOf(queue, now, cfg), Sort(ByRating, Active(queue, now, cfg));
            var m := MatchedCount(|sorted|, cfg);
            NoPlayerSplit(sorted[..m], sorted[m..])
            <==> multiset(Flat(p.matched)) + multiset(p.queue) == multiset(Active(queue, now, cfg))
  {
    SplitAtCount(Sort(ByRating, Active(queue, now, cfg)), cfg);
    ConservedUnlessSplit(queue, now, cfg);
  }

  /** Two requests of one player around a match of two: the matched one is queued again beside the other. */
  lemma {:induction false} MatchedPlayerQueuedAgain(a: string, b: string)
    requires a != b
    ensures var x, y, z := Request(a, Some(0), None, 0), Request(b, Some(1), None, 0), Request(a, Some(2), None, 0);
            var p := PassOf([x, y, z], 0, Config(2, 2, 0));
            p.matched == [[x, y]] && p.queue == [x, z]
  {
    var x, y, z := Request(a, Some(0), None, 0), Request(b, Some(1), None, 0), Request(a, Some(2), None, 0);
    var cfg, all := Config(2, 2, 0), [x, y, z];
    assert Active(all, 0, cfg) == all by {
      FilterThree(Unexpired(0, cfg), x, y, z);
      assert [x] + [y] + [z] == all;
    }
    assert Sort(ByRating, all) == all by {
      SortKeepsSorted(ByRating, all);
    }
    assert Split(all, cfg) == ([[x, y]], [z]) by {
      assert BlockSize(3, 2) == 2 && all[..2] == [x, y] && all[2..] == [z];
      assert Split([z], cfg) == ([], [z]);
      assert [[x, y]] + [] == [[x, y]];
    }
    assert Remaining(all, [z]) == [x, z] by {
      FilterThree(LeftOver([z]), x, y, z);
      assert Ids([z]) == [a];
      assert [x] + [] + [z] == [x, z];
    }
  }

  lemma {:induction false} FilterThree(keep: Request -> bool, x: Request, y: Request, z: Request)
    ensures Filter(keep, [x, y, z]) ==
            (if keep(x) then [x] else []) + (if keep(y) then [y] else []) + (if keep(z) then [z] else [])
  {
    assert [x, y, z][1..] == [y, z] && [y, z][1..] == [z] && [z][1..] == [];
    assert Filter(keep, [z]) == if keep(z) then [z] + [] else [];
  }

  lemma {:induction false} KeptIffLeft(matched: seq<Request>, rest: seq<Request>, x: Request)
    requires NoPlayerSplit(matched, rest)
    ensures if x.playerId in Ids(rest) then multiset(matched)[x] == 0 else multiset(rest)[x] == 0
  {
    if x.playerId in Ids(rest) {
      var j :| 0 <= j < |rest| && Ids(rest)[j] == x.playerId;
      forall i | 0 <= i < |matched| ensures matched[i] != x {
        assert matched[i].playerId != rest[j].playerId;
      }
    } else {
      forall j | 0 <= j < |rest| ensures rest[j] != x {
        assert Ids(rest)[j] == rest[j].playerId;
      }
    }
  }

  predicate DistinctPlayers(queue: seq<Request>) {
    forall i, j :: 0 <= i < j < |queue| ==> queue[i].playerId != queue[j].playerId
  }

  lemma {:induction false} FilterDistinct(keep: Request -> bool, s: seq<Request>)
    requires DistinctPlayers(s)
    ensures DistinctPlayers(Filter(keep, s))
  {
    if s != [] {
      FilterDistinct(keep, s[1..]);
      var rest := Filter(keep, s[1..]);
      FilterMembers(keep, s[1..]);
      forall j | 0 <= j < |rest| ensures rest[j].playerId != s[0].playerId {
        assert rest[j] in s[1..];
      }
    }
  }

  lemma {:induction false} DistinctSplit(active: seq<Request>, matched: seq<Request>, rest: seq<Request>)
    requires DistinctPlayers(active) && multiset(matched) + multiset(rest) == multiset(active)
    ensures NoPlayerSplit(matched, rest)
  {
    forall i, j | 0 <= i < |matched| && 0 <= j < |rest| ensures matched[i].playerId != rest[j].playerId {
      var x, y := matched[i], rest[j];
      assert x in multiset(matched) && y in multiset(rest);
      assert x in multiset(active) && y in multiset(active);
      var a :| 0 <= a < |active| && active[a] == x;
      var b :| 0 <= b < |active| && active[b] == y;
      OnlyOnce(active, a);
      assert multiset(active)[x] == multiset(matched)[x] + multiset(rest)[x];
      assert x != y;
    }
  }

  lemma {:induction false} OnlyOnce(active: seq<Request>, a: nat)
    requires DistinctPlayers(active) && a < |active|
    ensures multiset(active)[active[a]] == 1
  {
    var before, after := active[..a], active[a + 1..];
    assert active == before + [active[a]] + after;
    assert active[a] !in before && active[a] !in after;
  }

  lemma {:induction false} SameRest(matched: multiset<Request>, queue: seq<Request>, rest: seq<Request>)
    requires matched + multiset(queue) == matched + multiset(rest)
    ensures multiset(queue) == multiset(rest) && |queue| == |rest|
  {
    CancelLeft(matched, multiset(queue), multiset(rest));
    assert |multiset(queue)| == |queue| && |multiset(rest)| == |rest|;
  }

  /** With distinct players the pass loses and duplicates nobody: blocks of admissible size plus the new queue,
      whose length is the remainder of the division when that is below the minimum and 0 otherwise. */
  lemma {:induction false} PassConserves(queue: seq<Request>, now: int, cfg: Config)
    requires 1 <= cfg.minPlayers <= cfg.maxPlayers && DistinctPlayers(queue)
    ensures var p, active := PassOf(queue, now, cfg), Active(queue, now, cfg);
            && multiset(Flat(p.matched)) + multiset(p.queue) == multiset(active)
            && (forall i :: 0 <= i < |p.matched| ==> cfg.minPlayers <= |p.matched[i]| <= cfg.maxPlayers)
            && |p.queue| == Remainder(|active|, cfg)
            && multiset(p.queue) == multiset(p.leftOver)
  {
    var p, active := PassOf(queue, now, cfg), Active(queue, now, cfg);
    var sorted := Sort(ByRating, active);
    FilterDistinct(Unexpired(now, cfg), queue);
    SortPermutes(ByRating, active);
    SplitBlocks(sorted, cfg);
    SplitConserves(sorted, cfg);
    DistinctSplit(active, Flat(p.matched), p.leftOver);
    ConservationIff(queue, now, cfg);
    SameRest(multiset(Flat(p.matched)), p.queue, p.leftOver);
  }

  // ---------- who is still waiting ----------

  lemma {:induction false} PassMembers(queue: seq<Request>, now: int, cfg: Config, r: Request)
    requires 1 <= cfg.minPlayers
    ensures var p := PassOf(queue, now, cfg);
            r in Flat(p.matched) || r in p.queue <==> r in Active(queue, now, cfg)
  {
    var p, active := PassOf(queue, now, cfg), Active(queue, now, cfg);
    SortPermutes(ByRating, active);
    SplitConserves(Sort(ByRating, active), cfg);
    FilterMembers(LeftOver(p.leftOver), active);
    assert r in active <==> r in multiset(Flat(p.matched)) + multiset(p.leftOver);
    if r in p.leftOver {
      var j :| 0 <= j < |p.leftOver| && p.leftOver[j] == r;
      assert Ids(p.leftOver)[j] == r.playerId;
    }
  }

  /** A request gets into a match or stays queued if and only if it was queued and has waited no longer
      than the limit. */
  lemma {:induction false} WaitingIff(queue: seq<Request>, now: int, cfg: Config, r: Request)
    requires 1 <= cfg.minPlayers
    ensures var p := PassOf(queue, now, cfg);
            r in Flat(p.matched) || r in p.queue <==> r in queue && now - r.requestedAt <= cfg.maxWaitTimeMs
  {
    PassMembers(queue, now, cfg, r);
    FilterMembers(Unexpired(now, cfg), queue);
  }

  lemma {:induction false} QueueWaits(queue: seq<Request>, now: int, cfg: Config)
    requires 1 <= cfg.minPlayers
    ensures forall r :: r in Active(queue, now, cfg) || r in PassOf(queue, now, cfg).queue ==>
              r in queue && now - r.requestedAt <= cfg.maxWaitTimeMs
  {
    FilterMembers(Unexpired(now, cfg), queue);
    FilterMembers(LeftOver(PassOf(queue, now, cfg).leftOver), Active(queue, now, cfg));
  }

  lemma {:induction false} HeadIn(s: seq<Request>)
    ensures s == [] || s[0] in s
  {
  }

  /** When everybody has waited too long there are no matches and nobody stays queued. */
  lemma {:induction false} AllExpired(queue: seq<Request>, now: int, cfg: Config)
    requires 1 <= cfg.minPlayers
    requires forall r :: r in queue ==> now - r.requestedAt > cfg.maxWaitTimeMs
    ensures PassOf(queue, now, cfg).matched == [] && PassOf(queue, now, cfg).queue == []
  {
    var p, active := PassOf(queue, now, cfg), Active(queue, now, cfg);
    FilterMembers(Unexpired(now, cfg), queue);
    HeadIn(active);
    assert Sort(ByRating, active) == [] && Split([], cfg) == ([], []);
  }

  // ---------- order ----------

  lemma {:induction false} FlatIndex(groups: seq<seq<Request>>, g: nat, i: nat) returns (k: nat)
    requires g < |groups| && i < |groups[g]|
    ensures k < |Flat(groups)| && Flat(groups)[k] == groups[g][i]
    ensures k == |Flat(groups[..g])| + i
  {
    if g == 0 {
      k := i;
      assert groups[..0] == [];
    } else {
      k := FlatIndex(groups[1..], g - 1, i);
      k := k + |groups[0]|;
      assert groups[..g][1..] == groups[1..][..g - 1];
    }
  }

  lemma {:induction false} FlatGrows(groups: seq<seq<Request>>, g: nat, h: nat)
    requires g < h <= |groups|
    ensures |Flat(groups[..g])| + |groups[g]| <= |Flat(groups[..h])|
  {
    if g > 0 {
      FlatGrows(groups[1..], g - 1, h - 1);
      assert groups[..g][1..] == groups[1..][..g - 1];
    } else {
      assert groups[..0] == [];
    }
    assert groups[..h][1..] == groups[1..][..h - 1];
  }

  /** Position by position, a block sits before every later block and before the remainder. */
  lemma {:induction false} BlocksInOrder(sorted: seq<Request>, groups: seq<seq<Request>>, rest: seq<Request>, g: nat,
                                         i: nat)
    requires Flat(groups) + rest == sorted && Sorted(ByRating, sorted) && g < |groups| && i < |groups[g]|
    ensures forall h, j :: g < h < |groups| && 0 <= j < |groups[h]| ==> ByRating(groups[g][i], groups[h][j])
    ensures forall j :: 0 <= j < |rest| ==> ByRating(groups[g][i], rest[j])
  {
    var k := FlatIndex(groups, g, i);
    assert sorted[k] == groups[g][i];
    forall h, j | g < h < |groups| && 0 <= j < |groups[h]| ensures ByRating(groups[g][i], groups[h][j]) {
      var l := FlatIndex(groups, h, j);
      FlatGrows(groups, g, h);
      assert sorted[l] == groups[h][j];
    }
    forall j | 0 <= j < |rest| ensures ByRating(groups[g][i], rest[j]) {
      assert sorted[|Flat(groups)| + j] == rest[j];
    }
  }

  /** Ratings in an earlier match never exceed those in a later one, nor those left over. */
  lemma {:induction false} MatchesInRatingOrder(queue: seq<Request>, now: int, cfg: Config, g: nat, i: nat)
    requires 1 <= cfg.minPlayers <= cfg.maxPlayers
    requires g < |PassOf(queue, now, cfg).matched| && i < |PassOf(queue, now, cfg).matched[g]|
    ensures var p := PassOf(queue, now, cfg);
            && (forall h, j :: g < h < |p.matched| && 0 <= j < |p.matched[h]| ==>
                ByRating(p.matched[g][i], p.matched[h][j]))
            && (forall j :: 0 <= j < |p.leftOver| ==> ByRating(p.matched[g][i], p.leftOver[j]))
  {
    var p, active := PassOf(queue, now, cfg), Active(queue, now, cfg);
    SortSorts(ByRating, active);
    SplitFlat(Sort(ByRating, active), cfg);
    BlocksInOrder(Sort(ByRating, active), p.matched, p.leftOver, g, i);
  }

  /** The rating a request is sorted by: its own, or 0 when it has none. */
  predicate Rated(r: Request, x: int) {
    r.rating == Some(x) || (r.rating == None && x == 0)
  }

  /** In numbers: a rating in a match never exceeds one in a later match, nor one left over. */
  lemma {:induction false} RatingsRise(queue: seq<Request>, now: int, cfg: Config, g: nat, i: nat, x: int, y: int)
    requires 1 <= cfg.minPlayers <= cfg.maxPlayers
    requires g < |PassOf(queue, now, cfg).matched| && i < |PassOf(queue, now, cfg).matched[g]|
    requires Rated(PassOf(queue, now, cfg).matched[g][i], x)
    ensures var p := PassOf(queue, now, cfg);
            && (forall h, j :: g < h < |p.matched| && 0 <= j < |p.matched[h]| && Rated(p.matched[h][j], y) ==> x <= y)
            && (forall j :: 0 <= j < |p.leftOver| && Rated(p.leftOver[j], y) ==> x <= y)
  {
    MatchesInRatingOrder(queue, now, cfg, g, i);
  }

  /** Positions `at` of `s`, in increasing order, that hold exactly `kept`. */
  predicate Picks(at: seq<nat>, s: seq<Request>, kept: seq<Request>) {
    && |at| == |kept|
    && (forall i :: 0 <= i < |at| ==> at[i] < |s| && s[at[i]] == kept[i])
    && (forall i, j :: 0 <= i < j < |at| ==> at[i] < at[j])
  }

  lemma {:induction false} PicksLater(at: seq<nat>, s: seq<Request>, kept: seq<Request>) returns (moved: seq<nat>)
    requires s != [] && Picks(at, s[1..], kept)
    ensures Picks(moved, s, kept) && Picks([0] + moved, s, [s[0]] + kept)
  {
    moved := seq(|at|, i requires 0 <= i < |at| => at[i] + 1);
  }

  lemma {:induction false} FilterIndices(keep: Request -> bool, s: seq<Request>) returns (at: seq<nat>)
    ensures Picks(at, s, Filter(keep, s))
  {
    at := [];
    if s != [] {
      at := FilterIndices(keep, s[1..]);
      at := PicksLater(at, s, Filter(keep, s[1..]));
      if keep(s[0]) {
        at := [0] + at;
      }
    }
  }

  /** The new queue lists its requests in the order in which they were enqueued. */
  lemma {:induction false} QueueKeepsEnqueueOrder(queue: seq<Request>, now: int, cfg: Config) returns (at: seq<nat>)
    requires 1 <= cfg.minPlayers
    ensures var kept := PassOf(queue, now, cfg).queue;
            Picks(at, queue, kept)
  {
    var active := Active(queue, now, cfg);
    var inQueue := FilterIndices(Unexpired(now, cfg), queue);
    var rest := PassOf(queue, now, cfg).leftOver;
    var inActive := FilterIndices(LeftOver(rest), active);
    at := seq(|inActive|, i requires 0 <= i < |inActive| => inQueue[inActive[i]]);
  }

  /** When the server limit ends a pass by an exception after `made` matches, the queue still holds every
      unexpired request, so the pass conserves them if and only if it had made no match. */
  lemma {:induction false} InterruptedConservesIff(queue: seq<Request>, now: int, cfg: Config, made: nat)
    requires 1 <= cfg.minPlayers && made <= |PassOf(queue, now, cfg).matched|
    ensures var matched, active := Flat(PassOf(queue, now, cfg).matched[..made]), Active(queue, now, cfg);
            multiset(matched) + multiset(active) == multiset(active) <==> made == 0
  {
    var groups := PassOf(queue, now, cfg).matched[..made];
    if made > 0 {
      SplitUnusableOrBlocks(queue, now, cfg);
      assert groups[0] != [];
      assert multiset(Flat(groups))[groups[0][0]] > 0 by {
        assert Flat(groups)[0] == groups[0][0];
      }
      var active := multiset(Active(queue, now, cfg));
      assert (multiset(Flat(groups)) + active)[groups[0][0]] > active[groups[0][0]];
    }
  }

  lemma {:induction false} SplitUnusableOrBlocks(queue: seq<Request>, now: int, cfg: Config)
    requires 1 <= cfg.minPlayers
    ensures var groups := PassOf(queue, now, cfg).matched;
            forall i :: 0 <= i < |groups| ==> |groups[i]| >= cfg.minPlayers
  {
    var sorted := Sort(ByRating, Active(queue, now, cfg));
    if cfg.maxPlayers < cfg.minPlayers {
      SplitUnusable(sorted, cfg);
    } else {
      SplitBlocks(sorted, cfg);
    }
  }

  // ---------- the matchmaker ----------

  class Matchmaker {
    var queue: map<string, seq<Request>>
    var matches: seq<Match>
    const serverManager: GameServers.GameServerManager

    constructor (serverManager: GameServers.GameServerManager)
      ensures queue == map[] && matches == [] && this.serverManager == serverManager
    {
      queue, matches := map[], [];
      this.serverManager := serverManager;
    }

    ghost function QueueOf(mode: string): seq<Request>
      reads this
    {
      if mode in queue then queue[mode] else []
    }

    method Enqueue(mode: string, request: Request)
      modifies this`queue
      ensures queue == old(queue)[mode := old(QueueOf(mode)) + [request]]
    {
      var modeQueue := if mode in queue then queue[mode] else [];
      queue := queue[mode := modeQueue + [request]];
    }

    /** Removes the player's first request. */
    method Dequeue(playerId: string, mode: string) returns (removed: bool)
      modifies this`queue
      ensures removed <==> exists i :: 0 <= i < |old(QueueOf(mode))| && old(QueueOf(mode))[i].playerId == playerId
      ensures !removed ==> queue == old(queue)
      ensures removed ==> exists i ::
                && 0 <= i < |old(QueueOf(mode))| && old(QueueOf(mode))[i].playerId == playerId
                && (forall j :: 0 <= j < i ==> old(QueueOf(mode))[j].playerId != playerId)
                && QueueOf(mode) == old(QueueOf(mode))[..i] + old(QueueOf(mode))[i + 1..]
      ensures removed ==>
                queue == if QueueOf(mode) == [] then old(queue) - {mode} else old(queue)[mode := QueueOf(mode)]
    {
      if mode !in queue {
        return false;
      }
      var modeQueue := queue[mode];
      var idx := 0;
      while idx < |modeQueue| && modeQueue[idx].playerId != playerId
        invariant 0 <= idx <= |modeQueue|
        invariant forall j :: 0 <= j < idx ==> modeQueue[j].playerId != playerId
      {
        idx := idx + 1;
      }
      if idx == |modeQueue| {
        return false;
      }
      assert old(QueueOf(mode))[idx].playerId == playerId;
      var rest := modeQueue[..idx] + modeQueue[idx + 1..];
      if rest == [] {
        queue := queue - {mode};
      } else {
        queue := queue[mode := rest];
      }
      return true;
    }

    function MatchFor(mode: string, group: seq<Request>, cfg: Config, now: int, serverId: string): Match
      requires group != []
    {
      var mapName := if group[0].mapName.Some? then group[0].mapName.value else "default";
      Match(serverId, mode, mapName, Ids(group), cfg.maxPlayers, now)
    }

    ghost predicate MatchesOf(made: seq<Match>, groups: seq<seq<Request>>, mode: string, cfg: Config, now: int) {
      |made| == |groups| && forall i :: 0 <= i < |made| ==>
        groups[i] != [] && made[i] == MatchFor(mode, groups[i], cfg, now, made[i].serverId)
    }

    /** The match is recorded and its players are placed on its server, unless there is no server for them:
        then an exception leaves everything as it was. */
    method CreateMatch(mode: string, players: seq<Request>, cfg: Config, now: int, newId: string)
        returns (created: bool)
      requires players != []
      modifies this`matches, serverManager
      ensures !created ==> matches == old(matches) && serverManager.Model() == old(serverManager.Model())
      ensures created ==>
                && |matches| == |old(matches)| + 1
                && var m := matches[|old(matches)|];
                matches == old(matches) + [MatchFor(mode, players, cfg, now, m.serverId)]
                && |m.players| == |players|
                && (forall i :: 0 <= i < |players| ==> m.players[i] == players[i].playerId)
                && m.mapName == (if players[0].mapName.Some? then players[0].mapName.value else "default")
                && m.mode == mode && m.maxPlayers == cfg.maxPlayers && m.startedAt == now
                && serverManager.Model() ==
                   GameServers.Placed(old(serverManager.Model()), m.serverId, mode, cfg.maxPlayers, |players|)
    {
      var serverId := serverManager.PlaceMatch(mode, cfg.maxPlayers, |players|, newId);
      if serverId.None? {
        return false;
      }
      var mapName := if players[0].mapName.Some? then players[0].mapName.value else "default";
      matches := matches + [Match(serverId.value, mode, mapName, Ids(players), cfg.maxPlayers, now)];
      return true;
    }

    /** The grouping loop: blocks are spliced off the front until too few are left, or no server is found. */
    method MakeMatches(mode: string, requests: seq<Request>, cfg: Config, now: int, newIds: nat -> string)
        returns (sorted: seq<Request>, made: nat, completed: bool)
      requires cfg.minPlayers >= 1
      modifies this`matches, serverManager
      ensures completed ==> sorted == Split(requests, cfg).1 && made == |Split(requests, cfg).0|
      ensures !completed ==> made < |Split(requests, cfg).0|
      ensures |old(matches)| <= |matches| && matches[..|old(matches)|] == old(matches)
      ensures MatchesOf(matches[|old(matches)|..], Split(requests, cfg).0[..made], mode, cfg, now)
    {
      sorted, made := requests, 0;
      ghost var done: seq<seq<Request>> := [];
      ghost var all := Split(requests, cfg);
      assert [] + all.0 == all.0;
      while |sorted| >= cfg.minPlayers
        invariant |done| == made && |matches| == |old(matches)| + made && matches[..|old(matches)|] == old(matches)
        invariant MatchesOf(matches[|old(matches)|..], done, mode, cfg, now)
        invariant all == (done + Split(sorted, cfg).0, Split(sorted, cfg).1)
        decreases |sorted|
      {
        var k := BlockSize(|sorted|, cfg.maxPlayers);
        var group := sorted[..k];
        if |group| < cfg.minPlayers {
          sorted := sorted[k..] + group;
          assert done + [] == done && all.0[..made] == done;
          return sorted, made, true;
        }
        ghost var after, before := Split(sorted[k..], cfg), matches;
        assert done + ([group] + after.0) == (done + [group]) + after.0;
        assert all.0[..made] == done;
        var created := CreateMatch(mode, group, cfg, now, newIds(made));
        if !created {
          return sorted, made, false;
        }
        assert matches[|old(matches)|..] == before[|old(matches)|..] + [matches[|before|]];
        sorted, made, done := sorted[k..], made + 1, done + [group];
      }
      assert done + [] == done && all.0[..made] == done;
      completed := true;
    }

    /** One pass over a mode's queue. When it ends by an exception the queue holds all unexpired requests. */
    method ProcessQueue(mode: string, now: int, cfg: Config, newIds: nat -> string)
        returns (made: nat, completed: bool)
      requires cfg.minPlayers >= 1 && mode in queue
      modifies this, serverManager
      ensures var p, active := PassOf(old(queue)[mode], now, cfg), Active(old(queue)[mode], now, cfg);
              && (if completed then made == |p.matched| else made < |p.matched|)
              && queue == (if !completed then old(queue)[mode := active]
                           else if p.queue == [] then old(queue) - {mode} else old(queue)[mode := p.queue])
              && |old(matches)| <= |matches| && matches[..|old(matches)|] == old(matches)
              && MatchesOf(matches[|old(matches)|..], p.matched[..made], mode, cfg, now)
      ensures forall r :: r in QueueOf(mode) ==> r in old(queue)[mode] && now - r.requestedAt <= cfg.maxWaitTimeMs
      ensures (forall r :: r in old(queue)[mode] ==> now - r.requestedAt > cfg.maxWaitTimeMs) ==>
                completed && mode !in queue && matches == old(matches)
    {
      QueueWaits(queue[mode], now, cfg);
      var active := Active(queue[mode], now, cfg);
      queue := queue[mode := active];
      if active == [] {
        queue := queue - {mode};
        assert Sort(ByRating, active) == [] && Split([], cfg) == ([], []);
        return 0, true;
      }
      var left;
      left, made, completed := MakeMatches(mode, Sort(ByRating, active), cfg, now, newIds);
      if completed {
        var newQueue := Remaining(active, left);
        if newQueue == [] {
          queue := queue - {mode};
        } else {
          queue := queue[mode := newQueue];
        }
      }
    }
  }
}
