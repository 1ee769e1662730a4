/** Fixed-window rate limiting: the bound it really gives, and why its cleanup cannot be observed. */
module RateLimiter {
  import opened Common

  datatype Window = Window(count: nat, resetAt: int)

  datatype Verdict = Verdict(allowed: bool, remaining: int, resetAt: int, retryAfterMs: Option<int>)

  datatype Config = Config(windowMs: int, maxRequests: int)

  type Limits = map<string, Window>

  // ---------- one call ----------

  /** The entry after the call: a fresh window when there is none or it has ended. */
  function Counted(limits: Limits, key: string, now: int, cfg: Config): Window {
    var entry := if key in limits && now < limits[key].resetAt then limits[key] else Window(0, now + cfg.windowMs);
    entry.(count := entry.count + 1)
  }

  function Checked(limits: Limits, key: string, now: int, cfg: Config): Limits {
    limits[key := Counted(limits, key, now, cfg)]
  }

  function VerdictOf(limits: Limits, key: string, now: int, cfg: Config): Verdict {
    var entry := Counted(limits, key, now, cfg);
    if entry.count > cfg.maxRequests then Verdict(false, 0, entry.resetAt, Some(entry.resetAt - now))
    else Verdict(true, cfg.maxRequests - entry.count, entry.resetAt, None)
  }

  function Cleaned(limits: Limits, now: int): Limits {
    map key | key in limits && now < limits[key].resetAt :: limits[key]
  }

  // ---------- runs ----------

  datatype Event = Check(key: string, now: int) | Cleanup(now: int)

  function Next(limits: Limits, e: Event, cfg: Config): Limits {
    match e
    case Check(key, now) => Checked(limits, key, now, cfg)
    case Cleanup(now) => Cleaned(limits, now)
  }

  function After(events: seq<Event>, cfg: Config): Limits {
    if events == [] then map[] else Next(After(events[..|events| - 1], cfg), events[|events| - 1], cfg)
  }

  /** The verdicts of the checks of a run, in order. */
  function Verdicts(events: seq<Event>, cfg: Config): seq<Verdict> {
    if events == [] then []
    else
      var init, last := events[..|events| - 1], events[|events| - 1];
      Verdicts(init, cfg) + (if last.Check? then [VerdictOf(After(init, cfg), last.key, last.now, cfg)] else [])
  }

  predicate Monotone(events: seq<Event>) {
    forall i, j :: 0 <= i < j < |events| ==> events[i].now <= events[j].now
  }

  function ChecksOnly(events: seq<Event>): (r: seq<Event>)
    ensures forall i :: 0 <= i < |r| ==> r[i].Check?
    ensures forall e :: e in r ==> e in events
  {
    if events == [] then []
    else ChecksOnly(events[..|events| - 1]) + (if events[|events| - 1].Check? then [events[|events| - 1]] else [])
  }

  // ---------- cleanup is unobservable ----------

  /** The two tables agree on every window that has not ended by `now`. */
  ghost predicate SameLive(a: Limits, b: Limits, now: int) {
    forall key ::
      && (key in a && now < a[key].resetAt ==> key in b && b[key] == a[key])
      && (key in b && now < b[key].resetAt ==> key in a && a[key] == b[key])
  }

  lemma {:induction false} CheckSameLive(a: Limits, b: Limits, key: string, now: int, cfg: Config)
    requires SameLive(a, b, now)
    ensures SameLive(Checked(a, key, now, cfg), Checked(b, key, now, cfg), now)
    ensures VerdictOf(a, key, now, cfg) == VerdictOf(b, key, now, cfg)
  {
    assert Counted(a, key, now, cfg) == Counted(b, key, now, cfg);
  }

  lemma {:induction false} LaterSameLive(a: Limits, b: Limits, now: int, later: int)
    requires SameLive(a, b, now) && now <= later
    ensures SameLive(a, b, later) && SameLive(Cleaned(a, now), b, later)
  {
  }

  lemma {:induction false} ChecksOnlyLast(events: seq<Event>, cfg: Config)
    requires events != []
    ensures var init, last := events[..|events| - 1], events[|events| - 1];
            var kept := ChecksOnly(events);
            if last.Check?
            then kept != [] && kept[..|kept| - 1] == ChecksOnly(init) && kept[|kept| - 1] == last
            else kept == ChecksOnly(init)
  {
  }

  lemma {:induction false} CleanupHidden(events: seq<Event>, cfg: Config, now: int)
    requires Monotone(events) && forall i :: 0 <= i < |events| ==> events[i].now <= now
    ensures SameLive(After(events, cfg), After(ChecksOnly(events), cfg), now)
    ensures Verdicts(events, cfg) == Verdicts(ChecksOnly(events), cfg)
  {
    if events != [] {
      var init, last := events[..|events| - 1], events[|events| - 1];
      var a, b := After(init, cfg), After(ChecksOnly(init), cfg);
      CleanupHidden(init, cfg, last.now);
      ChecksOnlyLast(events, cfg);
      if last.Check? {
        CheckSameLive(a, b, last.key, last.now, cfg);
        LaterSameLive(Checked(a, last.key, last.now, cfg), Checked(b, last.key, last.now, cfg), last.now, now);
      } else {
        LaterSameLive(a, b, last.now, now);
      }
    }
  }

  /** Inserting cleanups anywhere into a run changes no verdict. */
  lemma {:induction false} CleanupUnobservable(events: seq<Event>, cfg: Config)
    requires Monotone(events)
    ensures Verdicts(events, cfg) == Verdicts(ChecksOnly(events), cfg)
  {
    CleanupHidden(events, cfg, if events == [] then 0 else events[|events| - 1].now);
  }

  /** A cleanup forgets a key if and only if its window has ended, and keeps the other windows as they are. */
  lemma {:induction false} CleanupForgetsIff(events: seq<Event>, now: int, cfg: Config, key: string)
    ensures var before, after := After(events, cfg), After(events + [Cleanup(now)], cfg);
            && (key in after <==> key in before && now < before[key].resetAt)
            && (key in after ==> after[key] == before[key])
  {
    assert (events + [Cleanup(now)])[..|events|] == events;
  }

  // ---------- what a verdict tells its caller ----------

  function CallsOf(events: seq<Event>, key: string): nat {
    if events == [] then 0
    else
      var last := events[|events| - 1];
      CallsOf(events[..|events| - 1], key) + if last.Check? && last.key == key then 1 else 0
  }

  /** Until its window ends a key's entry counts the calls, whatever else happens. */
  lemma {:induction false} WindowCounts(events: seq<Event>, key: string, now: int, later: seq<Event>, cfg: Config)
    requires var window := Counted(After(events, cfg), key, now, cfg);
             forall i :: 0 <= i < |later| ==> later[i].now < window.resetAt
    ensures var window := Counted(After(events, cfg), key, now, cfg);
            var limits := After(events + [Check(key, now)] + later, cfg);
            key in limits && limits[key] == Window(window.count + CallsOf(later, key), window.resetAt)
  {
    var all := events + [Check(key, now)];
    if later == [] {
      assert all + later == all && all[..|events|] == events;
    } else {
      var init := later[..|later| - 1];
      WindowCounts(events, key, now, init, cfg);
      assert (all + later)[..|all + later| - 1] == all + init;
    }
  }

  /** `remaining` is how many further calls are going to be allowed before `resetAt`, no more and no fewer;
      the calls denied meanwhile are told how long it is to `resetAt`. */
  lemma {:induction false} RemainingIsExact(events: seq<Event>, key: string, now: int, later: seq<Event>, t: int,
                                            cfg: Config)
    requires var v := VerdictOf(After(events, cfg), key, now, cfg);
             t < v.resetAt && forall i :: 0 <= i < |later| ==> later[i].now < v.resetAt
    ensures var v := VerdictOf(After(events, cfg), key, now, cfg);
            var v' := VerdictOf(After(events + [Check(key, now)] + later, cfg), key, t, cfg);
            && (v'.allowed <==> CallsOf(later, key) < v.remaining)
            && v'.resetAt == v.resetAt
            && v'.retryAfterMs == (if v'.allowed then None else Some(v.resetAt - t))
            && (v'.allowed ==> v'.remaining == v.remaining - CallsOf(later, key) - 1)
            && (!v'.allowed ==> v'.remaining == 0)
  {
    WindowCounts(events, key, now, later, cfg);
  }

  /** From `resetAt` on, the next call finds a new window of full length. */
  lemma {:induction false} ResetOpensWindow(events: seq<Event>, key: string, now: int, later: seq<Event>, t: int,
                                            cfg: Config)
    requires var v := VerdictOf(After(events, cfg), key, now, cfg);
             t >= v.resetAt && forall i :: 0 <= i < |later| ==> later[i].now < v.resetAt
    ensures var v' := VerdictOf(After(events + [Check(key, now)] + later, cfg), key, t, cfg);
            && (v'.allowed <==> cfg.maxRequests >= 1) && v'.resetAt == t + cfg.windowMs
            && (v'.allowed ==> v'.remaining == cfg.maxRequests - 1)
  {
    WindowCounts(events, key, now, later, cfg);
  }

  /** A denied caller who waits gets through if and only if it waits at least as long as it was told. */
  lemma {:induction false} RetryAfterIsExact(events: seq<Event>, key: string, now: int, wait: nat, cfg: Config)
    requires cfg.maxRequests >= 1 && !VerdictOf(After(events, cfg), key, now, cfg).allowed
    ensures var v := VerdictOf(After(events, cfg), key, now, cfg);
            && v.retryAfterMs.Some?
            && (VerdictOf(After(events + [Check(key, now)], cfg), key, now + wait, cfg).allowed
                <==> wait >= v.retryAfterMs.value)
  {
    var v := VerdictOf(After(events, cfg), key, now, cfg);
    assert events + [Check(key, now)] + [] == events + [Check(key, now)];
    if now + wait < v.resetAt {
      RemainingIsExact(events, key, now, [], now + wait, cfg);
    } else {
      ResetOpensWindow(events, key, now, [], now + wait, cfg);
    }
  }

  // ---------- the bound ----------

  /** Allowed calls for `key` at times in the half-open interval of one window length from `from`. */
  function AllowedWithin(events: seq<Event>, key: string, from: int, cfg: Config): nat {
    if events == [] then 0
    else
      var init, last := events[..|events| - 1], events[|events| - 1];
      AllowedWithin(init, key, from, cfg)
      + if last.Check? && last.key == key && from <= last.now < from + cfg.windowMs
           && VerdictOf(After(init, cfg), key, last.now, cfg).allowed then 1 else 0
  }

  function Min(a: int, b: int): int { if a <= b then a else b }

  /** How many calls a window that opened before an interval of its own length can still allow inside it:
      all but the first, unless windows last a single tick. */
  function Carry(cfg: Config): int {
    if cfg.windowMs == 1 then 0 else cfg.maxRequests - 1
  }

  /** What the key's window at time `now` says about the calls already allowed in the interval. */
  predicate Accounted(limits: Limits, key: string, now: int, from: int, used: nat, cfg: Config) {
    if key !in limits then used == 0
    else
      var start, counted := limits[key].resetAt - cfg.windowMs, Min(limits[key].count, cfg.maxRequests);
      && start <= now && limits[key].count >= 1
      && if start < from then used <= Min(counted - 1, Carry(cfg))
         else if start < from + cfg.windowMs then used <= Carry(cfg) + counted
         else used <= Carry(cfg) + cfg.maxRequests
  }

  lemma {:induction false} CheckAccounts(limits: Limits, key: string, before: int, now: int, from: int, used: nat,
                                         cfg: Config)
    requires cfg.windowMs > 0 && cfg.maxRequests > 0 && Accounted(limits, key, before, from, used, cfg) && before <= now
    requires now < from ==> used == 0
    ensures var hit := if from <= now < from + cfg.windowMs && VerdictOf(limits, key, now, cfg).allowed then 1 else 0;
            Accounted(Checked(limits, key, now, cfg), key, now, from, used + hit, cfg)
  {
  }

  lemma {:induction false} RunAccounts(events: seq<Event>, key: string, now: int, from: int, cfg: Config)
    requires cfg.windowMs > 0 && cfg.maxRequests > 0 && Monotone(events)
    requires forall i :: 0 <= i < |events| ==> events[i].Check? && events[i].now <= now
    ensures Accounted(After(events, cfg), key, now, from, AllowedWithin(events, key, from, cfg), cfg)
    ensures (forall i :: 0 <= i < |events| ==> events[i].now < from) ==> AllowedWithin(events, key, from, cfg) == 0
  {
    if events != [] {
      var init, last := events[..|events| - 1], events[|events| - 1];
      RunAccounts(init, key, last.now, from, cfg);
      if last.key == key {
        CheckAccounts(After(init, cfg), key, last.now, last.now, from, AllowedWithin(init, key, from, cfg), cfg);
      }
    }
  }

  lemma {:induction false} CleanupKeepsCount(events: seq<Event>, key: string, from: int, cfg: Config)
    requires Monotone(events)
    ensures AllowedWithin(events, key, from, cfg) == AllowedWithin(ChecksOnly(events), key, from, cfg)
  {
    if events != [] {
      var init, last := events[..|events| - 1], events[|events| - 1];
      CleanupKeepsCount(init, key, from, cfg);
      ChecksOnlyLast(events, cfg);
      if last.Check? {
        CleanupHidden(init, cfg, last.now);
        CheckSameLive(After(init, cfg), After(ChecksOnly(init), cfg), last.key, last.now, cfg);
      }
    }
  }

  lemma {:induction false} ChecksMonotone(events: seq<Event>)
    requires Monotone(events)
    ensures Monotone(ChecksOnly(events))
  {
    if events != [] {
      var init, last := events[..|events| - 1], events[|events| - 1];
      ChecksMonotone(init);
      var kept := ChecksOnly(init);
      forall i | 0 <= i < |kept| ensures kept[i].now <= last.now {
        assert kept[i] in init;
      }
    }
  }

  /** Over any run with a non-decreasing clock, cleanups included, no interval of one window length
      sees more allowed calls for a key than this: 2 * maxRequests - 1, or maxRequests if a window is one tick. */
  lemma {:induction false} RateBound(events: seq<Event>, key: string, from: int, cfg: Config)
    requires cfg.windowMs > 0 && cfg.maxRequests > 0 && Monotone(events)
    ensures AllowedWithin(events, key, from, cfg) <= cfg.maxRequests + Carry(cfg)
  {
    CleanupKeepsCount(events, key, from, cfg);
    ChecksMonotone(events);
    var checks := ChecksOnly(events);
    RunAccounts(checks, key, if checks == [] then from else checks[|checks| - 1].now, from, cfg);
  }

  // ---------- the bound is tight ----------

  /** One call at time 0, a full window of the rest just before it ends, and a full window right after. */
  function Burst(key: string, n: nat, cfg: Config): seq<Event>
    requires cfg.maxRequests > 0
  {
    if n == 0 then []
    else Burst(key, n - 1, cfg)
         + [Check(key, BurstTime(n, cfg))]
  }

  predicate BurstState(limits: Limits, key: string, n: nat, cfg: Config) {
    key in limits
    && limits[key] == if n <= cfg.maxRequests then Window(n, cfg.windowMs)
                      else Window(n - cfg.maxRequests, 2 * cfg.windowMs)
  }

  function BurstTime(n: nat, cfg: Config): int {
    if n <= 1 then 0 else if n <= cfg.maxRequests then cfg.windowMs - 1 else cfg.windowMs
  }

  /** How many of the first `n` calls come at time 1 or later. */
  function BurstCount(n: nat, cfg: Config): nat {
    if cfg.windowMs == 1 then (if n <= cfg.maxRequests then 0 else n - cfg.maxRequests) else if n == 0 then 0 else n - 1
  }

  lemma {:induction false} BurstShape(key: string, n: nat, cfg: Config)
    requires cfg.windowMs > 0 && cfg.maxRequests > 0
    ensures |Burst(key, n, cfg)| == n
    ensures forall i :: 0 <= i < n ==> Burst(key, n, cfg)[i] == Check(key, BurstTime(i + 1, cfg))
  {
    if n > 0 {
      BurstShape(key, n - 1, cfg);
    }
  }

  lemma {:induction false} BurstCall(limits: Limits, key: string, n: nat, cfg: Config)
    requires cfg.windowMs > 0 && cfg.maxRequests > 0 && 1 <= n <= 2 * cfg.maxRequests
    requires if n == 1 then key !in limits else BurstState(limits, key, n - 1, cfg)
    ensures BurstState(Checked(limits, key, BurstTime(n, cfg), cfg), key, n, cfg)
    ensures VerdictOf(limits, key, BurstTime(n, cfg), cfg).allowed
  {
  }

  lemma {:induction false} BurstRun(key: string, n: nat, cfg: Config)
    requires cfg.windowMs > 0 && cfg.maxRequests > 0 && n <= 2 * cfg.maxRequests
    ensures if n == 0 then After(Burst(key, n, cfg), cfg) == map[]
            else BurstState(After(Burst(key, n, cfg), cfg), key, n, cfg)
    ensures AllowedWithin(Burst(key, n, cfg), key, 1, cfg) == BurstCount(n, cfg)
  {
    if n > 0 {
      var before, events := Burst(key, n - 1, cfg), Burst(key, n, cfg);
      BurstRun(key, n - 1, cfg);
      BurstShape(key, n, cfg);
      assert events[..|events| - 1] == before;
      BurstCall(After(before, cfg), key, n, cfg);
    }
  }

  lemma {:induction false} BurstMonotone(key: string, n: nat, cfg: Config)
    requires cfg.windowMs > 0 && cfg.maxRequests > 0
    ensures Monotone(Burst(key, n, cfg))
  {
    if n > 0 {
      var init, last := Burst(key, n - 1, cfg), Check(key, BurstTime(n, cfg));
      BurstMonotone(key, n - 1, cfg);
      BurstShape(key, n - 1, cfg);
      forall i | 0 <= i < n - 1 ensures init[i].now <= last.now {
        assert init[i] == Check(key, BurstTime(i + 1, cfg));
      }
    }
  }

  /** The bound is reached, whatever the configuration. */
  lemma {:induction false} RateBoundTight(key: string, cfg: Config)
    requires cfg.windowMs > 0 && cfg.maxRequests > 0
    ensures exists events :: Monotone(events) && AllowedWithin(events, key, 1, cfg) == cfg.maxRequests + Carry(cfg)
  {
    BurstRun(key, 2 * cfg.maxRequests, cfg);
    BurstMonotone(key, 2 * cfg.maxRequests, cfg);
  }

  /** The nominal limit, at most `maxRequests` in any interval of a window's length, is kept by every run
      if and only if that limit is 1 or a window lasts a single tick. */
  lemma {:induction false} NominalLimitIff(key: string, cfg: Config)
    requires cfg.windowMs > 0 && cfg.maxRequests > 0
    ensures (forall events, from :: Monotone(events) ==> AllowedWithin(events, key, from, cfg) <= cfg.maxRequests)
            <==> cfg.maxRequests == 1 || cfg.windowMs == 1
  {
    if cfg.maxRequests == 1 || cfg.windowMs == 1 {
      forall events, from | Monotone(events) ensures AllowedWithin(events, key, from, cfg) <= cfg.maxRequests {
        RateBound(events, key, from, cfg);
      }
    } else {
      RateBoundTight(key, cfg);
      var events :| Monotone(events) && AllowedWithin(events, key, 1, cfg) == cfg.maxRequests + Carry(cfg);
    }
  }

  // ---------- tiers ----------

  datatype TierEvent = Call(key: string, now: int) | Tidy(tier: nat, now: int)

  /** The first tier from `i` on that denies the call, or the number of tiers. */
  function Denier(states: seq<Limits>, cfgs: seq<Config>, key: string, now: int, i: nat): (d: nat)
    requires |states| == |cfgs| && i <= |states|
    ensures i <= d <= |states|
    ensures forall j :: i <= j < d ==> VerdictOf(states[j], key, now, cfgs[j]).allowed
    ensures d < |states| ==> !VerdictOf(states[d], key, now, cfgs[d]).allowed
    decreases |states| - i
  {
    if i == |states| || !VerdictOf(states[i], key, now, cfgs[i]).allowed then i
    else Denier(states, cfgs, key, now, i + 1)
  }

  /** The first `n` tiers charged with the call. */
  function Charged(states: seq<Limits>, cfgs: seq<Config>, key: string, now: int, n: nat): (r: seq<Limits>)
    requires |states| == |cfgs|
    ensures |r| == |states|
  {
    seq(|states|, i requires 0 <= i < |states| => if i < n then Checked(states[i], key, now, cfgs[i]) else states[i])
  }

  /** A call counts against every tier up to the one that denies it. */
  function TiersChecked(states: seq<Limits>, cfgs: seq<Config>, key: string, now: int): (r: seq<Limits>)
    requires |states| == |cfgs|
    ensures |r| == |states|
  {
    Charged(states, cfgs, key, now, Denier(states, cfgs, key, now, 0) + 1)
  }

  function TiersNext(states: seq<Limits>, e: TierEvent, cfgs: seq<Config>): (r: seq<Limits>)
    requires |states| == |cfgs|
    ensures |r| == |cfgs|
  {
    match e
    case Call(key, now) => TiersChecked(states, cfgs, key, now)
    case Tidy(tier, now) => if tier < |states| then states[tier := Cleaned(states[tier], now)] else states
  }

  function TiersAfter(events: seq<TierEvent>, cfgs: seq<Config>): (r: seq<Limits>)
    ensures |r| == |cfgs|
  {
    if events == [] then seq(|cfgs|, i => map[])
    else TiersNext(TiersAfter(events[..|events| - 1], cfgs), events[|events| - 1], cfgs)
  }

  predicate CallAllowed(states: seq<Limits>, cfgs: seq<Config>, key: string, now: int)
    requires |states| == |cfgs|
  {
    Denier(states, cfgs, key, now, 0) == |states|
  }

  function CallsAllowedWithin(events: seq<TierEvent>, key: string, from: int, windowMs: int, cfgs: seq<Config>): nat {
    if events == [] then 0
    else
      var init, last := events[..|events| - 1], events[|events| - 1];
      CallsAllowedWithin(init, key, from, windowMs, cfgs)
      + if last.Call? && last.key == key && from <= last.now < from + windowMs
           && CallAllowed(TiersAfter(init, cfgs), cfgs, key, last.now) then 1 else 0
  }

  /** The run as one tier sees it: the calls that reach it and its own cleanups. */
  function Seen(events: seq<TierEvent>, tier: nat, cfgs: seq<Config>): (r: seq<Event>)
    ensures forall e :: e in r ==> exists i :: 0 <= i < |events| && events[i].now == e.now
  {
    if events == [] then []
    else
      var init, last := events[..|events| - 1], events[|events| - 1];
      Seen(init, tier, cfgs)
      + match last
        case Call(key, now) =>
          if tier <= Denier(TiersAfter(init, cfgs), cfgs, key, now, 0) then [Check(key, now)] else []
        case Tidy(t, now) => if t == tier then [Cleanup(now)] else []
  }

  lemma {:induction false} SeenMonotone(events: seq<TierEvent>, tier: nat, cfgs: seq<Config>)
    requires forall i, j :: 0 <= i < j < |events| ==> events[i].now <= events[j].now
    ensures Monotone(Seen(events, tier, cfgs))
  {
    if events != [] {
      var init, last := events[..|events| - 1], events[|events| - 1];
      SeenMonotone(init, tier, cfgs);
      var seen := Seen(init, tier, cfgs);
      forall i | 0 <= i < |seen| ensures seen[i].now <= last.now {
        assert seen[i] in seen;
      }
    }
  }

  lemma {:induction false} AfterSnoc(events: seq<Event>, e: Event, cfg: Config, key: string, from: int)
    ensures After(events + [e], cfg) == Next(After(events, cfg), e, cfg)
    ensures AllowedWithin(events + [e], key, from, cfg) ==
            AllowedWithin(events, key, from, cfg)
            + if e.Check? && e.key == key && from <= e.now < from + cfg.windowMs
                 && VerdictOf(After(events, cfg), key, e.now, cfg).allowed then 1 else 0
  {
    assert (events + [e])[..|events|] == events;
  }

  /** A tier's table is that of a plain limiter fed with what the tier sees. */
  lemma {:induction false} SeenState(events: seq<TierEvent>, tier: nat, cfgs: seq<Config>)
    requires tier < |cfgs|
    ensures TiersAfter(events, cfgs)[tier] == After(Seen(events, tier, cfgs), cfgs[tier])
  {
    if events != [] {
      var init, last := events[..|events| - 1], events[|events| - 1];
      var before := Seen(init, tier, cfgs);
      SeenState(init, tier, cfgs);
      assert before + [] == before;
      match last {
        case Call(key, now) => AfterSnoc(before, Check(key, now), cfgs[tier], key, now);
        case Tidy(t, now) => AfterSnoc(before, Cleanup(now), cfgs[tier], "", now);
      }
    }
  }

  /** A call allowed by all tiers is allowed by each. */
  lemma {:induction false} SeenCount(events: seq<TierEvent>, tier: nat, cfgs: seq<Config>, key: string, from: int)
    requires tier < |cfgs|
    ensures CallsAllowedWithin(events, key, from, cfgs[tier].windowMs, cfgs)
            <= AllowedWithin(Seen(events, tier, cfgs), key, from, cfgs[tier])
  {
    if events != [] {
      var init, last := events[..|events| - 1], events[|events| - 1];
      var before := Seen(init, tier, cfgs);
      SeenCount(init, tier, cfgs, key, from);
      SeenState(init, tier, cfgs);
      assert before + [] == before;
      match last {
        case Call(k, now) => AfterSnoc(before, Check(k, now), cfgs[tier], key, from);
        case Tidy(t, now) => AfterSnoc(before, Cleanup(now), cfgs[tier], key, from);
      }
    }
  }

  /** The tiered limiter meets every tier's bound at once. */
  lemma {:induction false} TieredRateBound(events: seq<TierEvent>, key: string, from: int, cfgs: seq<Config>, tier: nat)
    requires tier < |cfgs| && cfgs[tier].windowMs > 0 && cfgs[tier].maxRequests > 0
    requires forall i, j :: 0 <= i < j < |events| ==> events[i].now <= events[j].now
    ensures CallsAllowedWithin(events, key, from, cfgs[tier].windowMs, cfgs)
            <= cfgs[tier].maxRequests + Carry(cfgs[tier])
  {
    SeenCount(events, tier, cfgs, key, from);
    SeenMonotone(events, tier, cfgs);
    RateBound(Seen(events, tier, cfgs), key, from, cfgs[tier]);
  }

  // ---------- the limiters ----------

  function Given(argument: Option<int>, default: int): int {
    if argument.Some? && argument.value != 0 then argument.value else default
  }

  class RateLimiter {
    var limits: Limits
    var blocked: nat
    var allowed: nat
    const cfg: Config

    /** A missing argument, or 0, means the configured default. */
    constructor (windowMs: Option<int>, maxRequests: Option<int>, defaults: Config)
      ensures limits == map[] && blocked == 0 && allowed == 0
      ensures cfg == Config(Given(windowMs, defaults.windowMs), Given(maxRequests, defaults.maxRequests))
      ensures windowMs == None || windowMs == Some(0) ==> cfg.windowMs == defaults.windowMs
      ensures maxRequests == None || maxRequests == Some(0) ==> cfg.maxRequests == defaults.maxRequests
      ensures windowMs.Some? && windowMs.value != 0 ==> cfg.windowMs == windowMs.value
      ensures maxRequests.Some? && maxRequests.value != 0 ==> cfg.maxRequests == maxRequests.value
    {
      limits, blocked, allowed := map[], 0, 0;
      cfg := Config(Given(windowMs, defaults.windowMs), Given(maxRequests, defaults.maxRequests));
    }

    method Check(key: string, now: int) returns (verdict: Verdict)
      modifies this
      ensures limits == Checked(old(limits), key, now, cfg)
      ensures verdict == VerdictOf(old(limits), key, now, cfg)
      ensures allowed == old(allowed) + (if verdict.allowed then 1 else 0)
      ensures blocked == old(blocked) + (if verdict.allowed then 0 else 1)
    {
      var entry := if key in limits then limits[key] else Window(0, 0);
      if key !in limits || now >= entry.resetAt {
        entry := Window(0, now + cfg.windowMs);
      }
      entry := entry.(count := entry.count + 1);
      limits := limits[key := entry];
      if entry.count > cfg.maxRequests {
        blocked := blocked + 1;
        return Verdict(false, 0, entry.resetAt, Some(entry.resetAt - now));
      }
      allowed := allowed + 1;
      return Verdict(true, cfg.maxRequests - entry.count, entry.resetAt, None);
    }

    method Reset(key: string)
      modifies this`limits
      ensures limits == old(limits) - {key}
    {
      limits := limits - {key};
    }

    method Stop()
      modifies this`limits
      ensures limits == map[]
    {
      limits := map[];
    }

    method CleanUp(now: int)
      modifies this`limits
      ensures limits == Cleaned(old(limits), now)
      ensures forall key :: key in limits <==> key in old(limits) && now < old(limits)[key].resetAt
      ensures forall key :: key in limits ==> limits[key] == old(limits)[key]
    {
      var keys := limits.Keys;
      while keys != {}
        invariant keys <= old(limits).Keys
        invariant limits ==
                  map key | key in old(limits) && (key in keys || now < old(limits)[key].resetAt) :: old(limits)[key]
        decreases |keys|
      {
        var key :| key in keys;
        if now >= limits[key].resetAt {
          limits := limits - {key};
        }
        keys := keys - {key};
      }
    }
  }

  /** The position of a tier's name, or the number of tiers when it is new. */
  function PlaceOf(names: seq<string>, name: string): (i: nat)
    ensures i <= |names| && (i < |names| ==> names[i] == name) && (i == |names| ==> name !in names)
  {
    if names == [] || names[0] == name then 0 else PlaceOf(names[1..], name) + 1
  }

  function PutAt<T>(s: seq<T>, i: nat, x: T): seq<T>
    requires i <= |s|
  {
    if i < |s| then s[i := x] else s + [x]
  }

  class TieredRateLimiter {
    var names: seq<string>
    var tiers: seq<RateLimiter>

    ghost predicate Valid()
      reads this
    {
      |names| == |tiers| && forall i, j :: 0 <= i < j < |tiers| ==> tiers[i] != tiers[j]
    }

    ghost function States(): (r: seq<Limits>)
      reads this, tiers
      ensures |r| == |tiers|
    {
      seq(|tiers|, i requires 0 <= i < |tiers| reads this, tiers => tiers[i].limits)
    }

    ghost function Configs(): (r: seq<Config>)
      reads this, tiers
      ensures |r| == |tiers|
    {
      seq(|tiers|, i requires 0 <= i < |tiers| reads this, tiers => tiers[i].cfg)
    }

    constructor ()
      ensures Valid() && tiers == [] && names == []
    {
      names, tiers := [], [];
    }

    /** A new name is asked last; a known one gets a fresh limiter in its place. */
    method AddTier(name: string, windowMs: int, maxRequests: int, defaults: Config)
      requires Valid()
      modifies this
      ensures Valid()
      ensures var i := PlaceOf(old(names), name);
              && names == PutAt(old(names), i, name) && States() == PutAt(old(States()), i, map[])
              && Configs() == PutAt(old(Configs()), i, Config(Given(Some(windowMs), defaults.windowMs),
                                                               Given(Some(maxRequests), defaults.maxRequests)))
      ensures name in old(names) ==> names == old(names)
      ensures name !in old(names) ==> names == old(names) + [name] && States() == old(States()) + [map[]]
    {
      var limiter := new RateLimiter(Some(windowMs), Some(maxRequests), defaults);
      var i := PlaceOf(names, name);
      names, tiers := PutAt(names, i, name), PutAt(tiers, i, limiter);
    }

    method Stop()
      modifies this, tiers
      ensures tiers == [] && names == [] && Valid()
      ensures forall limiter :: limiter in old(tiers) ==> limiter.limits == map[]
    {
      for i := 0 to |tiers|
        invariant tiers == old(tiers) && forall j :: 0 <= j < i ==> tiers[j].limits == map[]
      {
        tiers[i].Stop();
      }
      names, tiers := [], [];
    }

    method ChargeTier(i: nat, key: string, now: int) returns (verdict: Verdict)
      requires Valid() && i < |tiers|
      modifies tiers[i]
      ensures Valid() && Configs() == old(Configs())
      ensures States() == old(States())[i := Checked(old(States())[i], key, now, Configs()[i])]
      ensures verdict == VerdictOf(old(States())[i], key, now, Configs()[i])
    {
      verdict := tiers[i].Check(key, now);
    }

    /** Each tier is asked in turn, and the first denial ends the call. */
    method Check(key: string, now: int) returns (verdict: Verdict)
      requires Valid()
      modifies tiers
      ensures tiers == old(tiers) && Valid() && Configs() == old(Configs())
      ensures States() == TiersChecked(old(States()), Configs(), key, now)
      ensures verdict.allowed <==> CallAllowed(old(States()), Configs(), key, now)
      ensures !verdict.allowed ==>
                var d := Denier(old(States()), Configs(), key, now, 0);
                verdict == VerdictOf(old(States())[d], key, now, Configs()[d])
      ensures verdict.allowed ==> verdict == Verdict(true, -1, 0, None)
    {
      ghost var before, cfgs := States(), Configs();
      assert Charged(before, cfgs, key, now, 0) == before;
      for i := 0 to |tiers|
        invariant Valid() && tiers == old(tiers) && Configs() == cfgs
        invariant States() == Charged(before, cfgs, key, now, i)
        invariant Denier(before, cfgs, key, now, 0) == Denier(before, cfgs, key, now, i)
      {
        var result := ChargeTier(i, key, now);
        assert States() == Charged(before, cfgs, key, now, i + 1);
        if !result.allowed {
          return result;
        }
      }
      assert Charged(before, cfgs, key, now, |tiers|) == Charged(before, cfgs, key, now, |tiers| + 1);
      return Verdict(true, -1, 0, None);
    }
  }
}
