/**
 * The fallback ladder of one client connection (proxy.rs).
 *
 * The network is an oracle: every dial may turn out any way. Between any two
 * readings or writings of the route health the other connections may run
 * (`Health.Others`), and while a dial is awaited time passes (`Health.Elapse`).
 *
 * Each rung returns, beside what it found, the record of what it did. `Plan`
 * says independently of the code in which order the rungs stand and `Walk`
 * what a legal walk down a plan is; `SelectUpstream` is proved to be one, and
 * the promises of the ladder are proved of every walk.
 */
module Ladder {
  import opened Wrappers
  import opened RouteHealth
  import CfRecords

  datatype Framing = Packets | Tunnel

  datatype Upstream = Ws(framing: Framing) | Mtproto(proxy: nat) | Tcp(dst: Ip)

  /** What stays fixed for one connection. */
  datatype Config = Config(
    isTest: bool, key: DcKey,
    cfPriority: bool, cfBalance: bool,
    workers: seq<string>, proxies: seq<string>,
    fallbackIp: Option<Ip>, frontingDomain: bool,
    wsFail: nat, wsRedirect: nat, ipFail: nat, cfFail: nat, upstreamFail: nat,
    frontingFail: nat, frontingSticky: nat)

  /** The connection `cf_prefetch` is asked to hold open for the next client. */
  datatype Spare = Spare(tier: Tier, dst: Option<Ip>, domain: string)

  /** One thing the ladder did, with the cooldown reading it was based on. */
  datatype Step =
    | AddressCheck(gate: Gate, cfDomains: bool)
    | PoolGet(hit: bool)
    | Direct(tried: Tried)
    | Fronting(stalled: bool, gate: Gate, dialled: bool, ok: bool)
    | WorkerPool(hit: bool)
    | Worker(i: nat, gate: Gate, dst: Ip, dialled: bool, ok: bool)
    | CfAbsent
    | CfPool(hit: bool)
    | CfDial(first: nat, domains: nat, ok: bool)
    | Proxy(i: nat, gate: Gate, dialled: bool, ok: bool)
    | RawTcp(dst: Ip)

  datatype Tier = Check(cooling: bool) | Pool | DirectWs | Workers | Cf | Proxies | LastResort

  predicate HasFallback(cfg: Config, cfDomains: bool)
  {
    cfg.workers != [] || cfDomains || cfg.proxies != []
  }

  /** The address Telegram is reached at from elsewhere: the built-in one where there is one. */
  function BuiltInOr(cfg: Config, ip: Ip): Ip
  {
    if !cfg.isTest && cfg.fallbackIp.Some? then cfg.fallbackIp.value else ip
  }

  /** The address a connection is routed by, if it can be routed at all. */
  function Destination(cfg: Config, target: Option<Ip>): Option<Ip>
  {
    if target.Some? then target else if cfg.isTest then None else cfg.fallbackIp
  }

  /** The upstream a step ended with, if it found one. */
  function ServedBy(s: Step): Option<Upstream>
  {
    match s
    case AddressCheck(_, _) => None
    case PoolGet(hit) => if hit then Some(Ws(Packets)) else None
    case Direct(tried) => if tried.result.ok then Some(Ws(Packets)) else None
    case Fronting(_, _, _, ok) => if ok then Some(Ws(Packets)) else None
    case WorkerPool(hit) => if hit then Some(Ws(Tunnel)) else None
    case Worker(_, _, _, _, ok) => if ok then Some(Ws(Tunnel)) else None
    case CfAbsent => None
    case CfPool(hit) => if hit then Some(Ws(Packets)) else None
    case CfDial(_, _, ok) => if ok then Some(Ws(Packets)) else None
    case Proxy(i, _, _, ok) => if ok then Some(Mtproto(i)) else None
    case RawTcp(dst) => Some(Tcp(dst))
  }

  /** Which place of the network a step turned to; `slot` counts the places of one tier. */
  datatype Place = Place(tier: Tier, slot: nat)

  function PlaceOf(cfg: Config, s: Step): Place
  {
    match s
    case AddressCheck(gate, cfDomains) => Place(Check(gate.Closed() && HasFallback(cfg, cfDomains)), 0)
    case PoolGet(_) => Place(Pool, 0)
    case Direct(_) => Place(DirectWs, 0)
    case Fronting(_, _, _, _) => Place(DirectWs, 1)
    case WorkerPool(_) => Place(Workers, 0)
    case Worker(i, _, _, _, _) => Place(Workers, i + 1)
    case CfAbsent => Place(Cf, 1)
    case CfPool(_) => Place(Cf, 0)
    case CfDial(_, _, _) => Place(Cf, 1)
    case Proxy(i, _, _, _) => Place(Proxies, i)
    case RawTcp(_) => Place(LastResort, 0)
  }

  // ------------------------------------------------------ walks of one tier

  function Found(ok: bool, u: Upstream): Option<Upstream> { if ok then Some(u) else None }

  /** A candidate is dialled exactly when its cooldown is not running. */
  predicate WorkerStep(cfg: Config, ip: Ip, s: Step, i: nat)
  {
    s.Worker? && s.i == i && s.dst == BuiltInOr(cfg, ip) && s.dialled == !s.gate.Closed() && (s.ok ==> s.dialled)
  }

  predicate ProxyStep(s: Step, i: nat)
  {
    s.Proxy? && s.i == i && s.dialled == !s.gate.Closed() && (s.ok ==> s.dialled)
  }

  /** The Workers are walked once round from the first one, until one answers. */
  predicate WorkerWalk(cfg: Config, ip: Ip, s: seq<Step>, r: Option<Upstream>)
  {
    var n := |cfg.workers|;
    && 0 < |s| <= n
    && s[0].Worker? && s[0].i < n && (!cfg.cfBalance ==> s[0].i == 0)
    && (forall k :: 0 <= k < |s| ==> WorkerStep(cfg, ip, s[k], Rotated(s[0].i, k, n)))
    && (forall k :: 0 <= k < |s| - 1 ==> !s[k].ok)
    && r == Found(s[|s| - 1].ok, Ws(Tunnel))
    && (r == None ==> |s| == n)
  }

  /** The Workers turned to so far, none of which answered. */
  predicate FailedRun(cfg: Config, ip: Ip, s: seq<Step>, first: nat)
  {
    && |s| <= |cfg.workers|
    && first < |cfg.workers| && (!cfg.cfBalance ==> first == 0)
    && forall k :: 0 <= k < |s| ==> WorkerStep(cfg, ip, s[k], Rotated(first, k, |cfg.workers|)) && !s[k].ok
  }

  lemma OneMoreWorker(cfg: Config, ip: Ip, s: seq<Step>, first: nat, step: Step)
    requires FailedRun(cfg, ip, s, first) && |s| < |cfg.workers|
    requires WorkerStep(cfg, ip, step, Rotated(first, |s|, |cfg.workers|))
    ensures step.ok ==> WorkerWalk(cfg, ip, s + [step], Some(Ws(Tunnel)))
    ensures !step.ok ==> FailedRun(cfg, ip, s + [step], first)
    ensures !step.ok && |s| + 1 == |cfg.workers| ==> WorkerWalk(cfg, ip, s + [step], None)
  {
    var t, n := s + [step], |cfg.workers|;
    Wraps(first, n);
    assert t[0].i == first by {
      assert WorkerStep(cfg, ip, t[0], Rotated(first, 0, n));
    }
  }

  predicate WorkersWalk(cfg: Config, ip: Ip, s: seq<Step>, r: Option<Upstream>)
  {
    if cfg.workers == [] then s == [] && r == None
    else if cfg.isTest then WorkerWalk(cfg, ip, s, r)
    else
      && |s| > 0
      && s[0].WorkerPool?
      && if s[0].hit then |s| == 1 && r == Some(Ws(Tunnel)) else WorkerWalk(cfg, ip, s[1..], r)
  }

  predicate CfWalk(cfg: Config, s: seq<Step>, r: Option<Upstream>)
  {
    || (s == [CfAbsent] && r == None)
    || (s == [CfPool(true)] && r == Some(Ws(Packets)))
    || (&& |s| == 2 && s[0] == CfPool(false)
        && s[1].CfDial? && s[1].first < s[1].domains && (!cfg.cfBalance ==> s[1].first == 0)
        && r == Found(s[1].ok, Ws(Packets)))
  }

  predicate ProxiesWalk(cfg: Config, s: seq<Step>, r: Option<Upstream>)
  {
    && |s| <= |cfg.proxies|
    && (forall k :: 0 <= k < |s| ==> ProxyStep(s[k], k))
    && (forall k :: 0 <= k < |s| - 1 ==> !s[k].ok)
    && r == (if s == [] then None else Found(s[|s| - 1].ok, Mtproto(|s| - 1)))
    && (r == None ==> |s| == |cfg.proxies|)
  }

  /** A plain attempt whose upgrade stalled is retried once, fronted, unless fronting itself is cooling down. */
  predicate DirectWalk(cfg: Config, ip: Ip, s: seq<Step>, r: Option<Upstream>)
  {
    && |s| > 0
    && s[0].Direct? && s[0].tried.ip == ip && s[0].tried.key == cfg.key
    && (s[0].tried.fronted ==> cfg.frontingDomain)
    && if s[0].tried.result.ok || s[0].tried.fronted then
         |s| == 1 && r == Found(s[0].tried.result.ok, Ws(Packets))
       else
         && |s| == 2 && s[1].Fronting? && s[1].stalled == s[0].tried.result.upgradeTimedOut
         && s[1].dialled == (s[1].stalled && !s[1].gate.Closed() && cfg.frontingDomain)
         && (s[1].ok ==> s[1].dialled)
         && r == Found(s[1].ok, Ws(Packets))
  }

  predicate TierWalk(cfg: Config, ip: Ip, tier: Tier, s: seq<Step>, r: Option<Upstream>)
  {
    match tier
    case Check(cooling) =>
      |s| == 1 && s[0].AddressCheck? && PlaceOf(cfg, s[0]) == Place(tier, 0) && r == None
    case Pool => |s| == 1 && s[0].PoolGet? && r == Found(s[0].hit, Ws(Packets))
    case DirectWs => DirectWalk(cfg, ip, s, r)
    case Workers => WorkersWalk(cfg, ip, s, r)
    case Cf => CfWalk(cfg, s, r)
    case Proxies => ProxiesWalk(cfg, s, r)
    case LastResort => s == [RawTcp(BuiltInOr(cfg, ip))] && r == Some(Tcp(BuiltInOr(cfg, ip)))
  }

  // --------------------------------------------------------- plan and walks

  /** The order of the rungs. */
  function Plan(cfg: Config, hasTarget: bool, cooling: bool): seq<Tier>
  {
    if cfg.isTest then [DirectWs, Workers, LastResort]
    else if !hasTarget then [Workers, Cf, Proxies, LastResort]
    else if cfg.cfPriority then
      [Workers, Cf, Check(cooling), Pool]
      + if cooling then [Proxies, DirectWs, LastResort] else [DirectWs, Proxies, LastResort]
    else
      [Check(cooling), Pool]
      + if cooling then [Workers, Cf, Proxies, DirectWs, LastResort] else [DirectWs, Workers, Cf, Proxies, LastResort]
  }

  function CfFirst(cfg: Config): seq<Tier> { if cfg.cfPriority then [Workers, Cf] else [] }

  function Chain(skipCf: bool): seq<Tier> { if skipCf then [Proxies] else [Workers, Cf, Proxies] }

  function Foot(cfg: Config, cooling: bool): seq<Tier>
  {
    if cooling then Chain(cfg.cfPriority) + [DirectWs] + [LastResort]
    else [DirectWs] + Chain(cfg.cfPriority) + [LastResort]
  }

  /** The plan for a configured address, in stretches. */
  lemma PlanCuts(cfg: Config, cooling: bool)
    requires !cfg.isTest
    ensures CfFirst(cfg) + [Check(cooling), Pool] <= Plan(cfg, true, cooling)
    ensures CfFirst(cfg) + [Check(cooling), Pool] + Foot(cfg, cooling) == Plan(cfg, true, cooling)
  {
  }

  /** The result a rung leaves: only the last rung walked may have found something. */
  function RungResult(parts: seq<seq<Step>>, k: nat, r: Option<Upstream>): Option<Upstream>
  {
    if k + 1 == |parts| then r else None
  }

  /** `parts[k]` is what was done on the `k`-th rung of the plan; the walk ends where something answers. */
  predicate Walk(cfg: Config, ip: Ip, plan: seq<Tier>, parts: seq<seq<Step>>, r: Option<Upstream>)
  {
    && |parts| <= |plan|
    && (r == None ==> |parts| == |plan|)
    && (r != None ==> parts != [])
    && forall k :: 0 <= k < |parts| ==> TierWalk(cfg, ip, plan[k], parts[k], RungResult(parts, k, r))
  }

  lemma OneRung(cfg: Config, ip: Ip, tier: Tier, s: seq<Step>, r: Option<Upstream>)
    requires TierWalk(cfg, ip, tier, s, r)
    ensures Walk(cfg, ip, [tier], [s], r)
  {
  }

  /** A walk that found nothing goes on with the rest of the plan. */
  lemma WalkOn(cfg: Config, ip: Ip, plan: seq<Tier>, parts: seq<seq<Step>>,
               rest: seq<Tier>, more: seq<seq<Step>>, r: Option<Upstream>)
    requires Walk(cfg, ip, plan, parts, None) && Walk(cfg, ip, rest, more, r)
    ensures Walk(cfg, ip, plan + rest, parts + more, r)
  {
    var all := parts + more;
    forall k | 0 <= k < |all|
      ensures TierWalk(cfg, ip, (plan + rest)[k], all[k], RungResult(all, k, r))
    {
      if k < |parts| {
        assert TierWalk(cfg, ip, plan[k], parts[k], RungResult(parts, k, None));
      } else {
        assert TierWalk(cfg, ip, rest[k - |parts|], more[k - |parts|], RungResult(more, k - |parts|, r));
      }
    }
  }

  /** A walk that found something is a walk of any longer plan. */
  lemma WalkStops(cfg: Config, ip: Ip, plan: seq<Tier>, parts: seq<seq<Step>>, rest: seq<Tier>, r: Option<Upstream>)
    requires Walk(cfg, ip, plan, parts, r) && r != None
    ensures Walk(cfg, ip, plan + rest, parts, r)
  {
    forall k | 0 <= k < |parts|
      ensures TierWalk(cfg, ip, (plan + rest)[k], parts[k], RungResult(parts, k, r))
    {
      assert TierWalk(cfg, ip, plan[k], parts[k], RungResult(parts, k, r));
    }
  }

  /** One stretch further down the plan: either it ends the walk or the walk goes on below. */
  lemma Further(cfg: Config, ip: Ip, plan: seq<Tier>, parts: seq<seq<Step>>,
                stretch: seq<Tier>, more: seq<seq<Step>>, r: Option<Upstream>, whole: seq<Tier>)
    requires Walk(cfg, ip, plan, parts, None) && Walk(cfg, ip, stretch, more, r)
    requires plan + stretch <= whole
    ensures r == None ==> Walk(cfg, ip, plan + stretch, parts + more, None)
    ensures r != None ==> Walk(cfg, ip, whole, parts + more, r)
  {
    WalkOn(cfg, ip, plan, parts, stretch, more, r);
    if r != None {
      WalkStops(cfg, ip, plan + stretch, parts + more, whole[|plan + stretch|..], r);
      assert plan + stretch + whole[|plan + stretch|..] == whole;
    }
  }

  // --------------------------------------------- what holds of one rung

  /** The places a rung must have turned to before it may be given up. */
  predicate Required(cfg: Config, p: Place)
  {
    match p.tier
    case Workers => 1 <= p.slot <= |cfg.workers|
    case Proxies => p.slot < |cfg.proxies|
    case Cf => p.slot == 1
    case _ => p.slot == 0
  }

  predicate Turned(cfg: Config, s: seq<Step>, p: Place)
  {
    exists x :: 0 <= x < |s| && PlaceOf(cfg, s[x]) == p
  }

  /** Nowhere is left to turn to on this rung. */
  ghost predicate Exhausted(cfg: Config, s: seq<Step>, tier: Tier)
  {
    forall p: Place :: p.tier == tier && Required(cfg, p) ==> Turned(cfg, s, p)
  }

  predicate AllFailed(s: seq<Step>)
  {
    forall x :: 0 <= x < |s| ==> ServedBy(s[x]) == None
  }

  /** Only the last step may serve, and what it serves is the result. */
  predicate Ends(s: seq<Step>, r: Option<Upstream>)
  {
    if r == None then AllFailed(s)
    else |s| > 0 && AllFailed(s[..|s| - 1]) && ServedBy(s[|s| - 1]) == r
  }

  predicate Distinct(cfg: Config, s: seq<Step>)
  {
    forall x, y :: 0 <= x < y < |s| ==> PlaceOf(cfg, s[x]) != PlaceOf(cfg, s[y])
  }

  predicate Inside(cfg: Config, s: seq<Step>, tier: Tier)
  {
    forall x :: 0 <= x < |s| ==> PlaceOf(cfg, s[x]).tier == tier
  }

  lemma WorkersDistinct(cfg: Config, ip: Ip, s: seq<Step>, r: Option<Upstream>)
    requires WorkerWalk(cfg, ip, s, r)
    ensures Distinct(cfg, s)
  {
    var n, first := |cfg.workers|, s[0].i;
    forall x, y | 0 <= x < y < |s|
      ensures PlaceOf(cfg, s[x]) != PlaceOf(cfg, s[y])
    {
      assert WorkerStep(cfg, ip, s[x], Rotated(first, x, n)) && WorkerStep(cfg, ip, s[y], Rotated(first, y, n));
      RotationOnce(first, x, y, n);
    }
  }

  lemma WorkersAllVisited(cfg: Config, ip: Ip, s: seq<Step>)
    requires WorkerWalk(cfg, ip, s, None)
    ensures Exhausted(cfg, s, Workers)
  {
    var n, first := |cfg.workers|, s[0].i;
    forall p: Place | p.tier == Workers && Required(cfg, p)
      ensures Turned(cfg, s, p)
    {
      var k := RotationFinds(first, p.slot - 1, n);
      assert WorkerStep(cfg, ip, s[k], Rotated(first, k, n));
      assert PlaceOf(cfg, s[k]) == p;
    }
  }

  lemma WorkerWalkFacts(cfg: Config, ip: Ip, s: seq<Step>, r: Option<Upstream>)
    requires WorkerWalk(cfg, ip, s, r)
    ensures Ends(s, r) && Distinct(cfg, s) && Inside(cfg, s, Workers)
    ensures forall x :: 0 <= x < |s| ==> s[x].Worker?
    ensures r == None ==> Exhausted(cfg, s, Workers)
  {
    WorkersDistinct(cfg, ip, s, r);
    if r == None {
      WorkersAllVisited(cfg, ip, s);
    }
    assert forall x :: 0 <= x < |s| ==> WorkerStep(cfg, ip, s[x], Rotated(s[0].i, x, |cfg.workers|));
  }

  lemma TierFacts(cfg: Config, ip: Ip, tier: Tier, s: seq<Step>, r: Option<Upstream>)
    requires TierWalk(cfg, ip, tier, s, r)
    ensures Ends(s, r) && Distinct(cfg, s) && Inside(cfg, s, tier)
    ensures r == None ==> Exhausted(cfg, s, tier)
  {
    if tier == Workers {
      WorkersFacts(cfg, ip, s, r);
    } else if tier == Proxies {
      assert forall k :: 0 <= k < |s| ==> ProxyStep(s[k], k);
      if r == None {
        forall p: Place | p.tier == tier && Required(cfg, p)
          ensures Turned(cfg, s, p)
        {
          assert PlaceOf(cfg, s[p.slot]) == p;
        }
      }
    } else if r == None {
      assert PlaceOf(cfg, s[|s| - 1]).tier == tier;
      forall p: Place | p.tier == tier && Required(cfg, p)
        ensures Turned(cfg, s, p)
      {
        assert PlaceOf(cfg, s[0]) == p || PlaceOf(cfg, s[1]) == p;
      }
    }
  }

  lemma WorkersFacts(cfg: Config, ip: Ip, s: seq<Step>, r: Option<Upstream>)
    requires WorkersWalk(cfg, ip, s, r)
    ensures Ends(s, r) && Distinct(cfg, s) && Inside(cfg, s, Workers)
    ensures r == None ==> Exhausted(cfg, s, Workers)
  {
    if cfg.workers == [] {
      NoWorkers(cfg, s);
    } else if cfg.isTest {
      WorkerWalkFacts(cfg, ip, s, r);
    } else if !s[0].hit {
      WorkerWalkFacts(cfg, ip, s[1..], r);
      AfterPoolMiss(cfg, s, s[1..], r);
    }
  }

  lemma NoWorkers(cfg: Config, s: seq<Step>)
    requires cfg.workers == [] && s == []
    ensures Exhausted(cfg, s, Workers)
  {
  }

  /** A miss in the Worker pool in front of a rotation. */
  lemma AfterPoolMiss(cfg: Config, s: seq<Step>, t: seq<Step>, r: Option<Upstream>)
    requires |s| > 0 && s[0] == WorkerPool(false) && t == s[1..] && |t| > 0
    requires Ends(t, r) && Distinct(cfg, t) && Inside(cfg, t, Workers) && forall x :: 0 <= x < |t| ==> t[x].Worker?
    requires r == None ==> Exhausted(cfg, t, Workers)
    ensures Ends(s, r) && Distinct(cfg, s) && Inside(cfg, s, Workers)
    ensures r == None ==> Exhausted(cfg, s, Workers)
  {
    assert forall x :: 1 <= x < |s| ==> s[x] == t[x - 1];
    if r == None {
      forall p: Place | p.tier == Workers && Required(cfg, p)
        ensures Turned(cfg, s, p)
      {
        assert Turned(cfg, t, p);
        var x :| 0 <= x < |t| && PlaceOf(cfg, t[x]) == p;
        assert PlaceOf(cfg, s[x + 1]) == p;
      }
    }
  }

  // ------------------------------------------- what holds of a whole ladder

  predicate NoTierTwice(plan: seq<Tier>)
  {
    forall j, k :: 0 <= j < k < |plan| ==> plan[j] != plan[k]
  }

  /** Before rung `k` the rungs of `tier` were walked to their end, and nothing answered. */
  ghost predicate GivenUp(cfg: Config, plan: seq<Tier>, parts: seq<seq<Step>>, k: nat, tier: Tier)
    requires k <= |parts| <= |plan|
  {
    exists j :: 0 <= j < k && plan[j] == tier && AllFailed(parts[j]) && Exhausted(cfg, parts[j], tier)
  }

  function LastStep(parts: seq<seq<Step>>): Step
    requires parts != [] && parts[|parts| - 1] != []
  {
    var s := parts[|parts| - 1];
    s[|s| - 1]
  }

  /** A rung is set foot on only when every rung above it has been given up. */
  lemma AboveIsGivenUp(cfg: Config, ip: Ip, plan: seq<Tier>, parts: seq<seq<Step>>, r: Option<Upstream>, j: nat, k: nat)
    requires Walk(cfg, ip, plan, parts, r) && j < k < |parts|
    ensures GivenUp(cfg, plan, parts, k, plan[j])
  {
    assert TierWalk(cfg, ip, plan[j], parts[j], RungResult(parts, j, r));
    TierFacts(cfg, ip, plan[j], parts[j], None);
  }

  /** No place of the network is turned to twice for one connection. */
  lemma NothingTwice(cfg: Config, ip: Ip, plan: seq<Tier>, parts: seq<seq<Step>>, r: Option<Upstream>,
                     a: nat, x: nat, b: nat, y: nat)
    requires Walk(cfg, ip, plan, parts, r) && NoTierTwice(plan)
    requires a < |parts| && x < |parts[a]| && b < |parts| && y < |parts[b]|
    requires a < b || (a == b && x < y)
    ensures PlaceOf(cfg, parts[a][x]) != PlaceOf(cfg, parts[b][y])
  {
    assert TierWalk(cfg, ip, plan[a], parts[a], RungResult(parts, a, r));
    TierFacts(cfg, ip, plan[a], parts[a], RungResult(parts, a, r));
    assert TierWalk(cfg, ip, plan[b], parts[b], RungResult(parts, b, r));
    TierFacts(cfg, ip, plan[b], parts[b], RungResult(parts, b, r));
    assert PlaceOf(cfg, parts[a][x]).tier == plan[a] && PlaceOf(cfg, parts[b][y]).tier == plan[b];
  }

  /** The result is what the very last step found, and no step before it found anything. */
  lemma LastStepServes(cfg: Config, ip: Ip, plan: seq<Tier>, parts: seq<seq<Step>>, r: Option<Upstream>)
    requires Walk(cfg, ip, plan, parts, r) && r != None
    ensures parts[|parts| - 1] != [] && ServedBy(LastStep(parts)) == r
    ensures forall a :: 0 <= a < |parts| - 1 ==> AllFailed(parts[a])
    ensures AllFailed(parts[|parts| - 1][..|parts[|parts| - 1]| - 1])
  {
    forall a | 0 <= a < |parts|
      ensures Ends(parts[a], RungResult(parts, a, r))
    {
      TierFacts(cfg, ip, plan[a], parts[a], RungResult(parts, a, r));
    }
  }

  /** Opaque tunnel framing is chosen exactly when a Worker carries the connection. */
  lemma TunnelIffWorker(cfg: Config, ip: Ip, plan: seq<Tier>, parts: seq<seq<Step>>, r: Option<Upstream>)
    requires Walk(cfg, ip, plan, parts, r) && r != None
    ensures r == Some(Ws(Tunnel)) <==> plan[|parts| - 1] == Workers
    ensures r.value.Mtproto? <==> plan[|parts| - 1] == Proxies
    ensures r.value.Mtproto? ==> r.value.proxy < |cfg.proxies|
  {
    var k := |parts| - 1;
    assert TierWalk(cfg, ip, plan[k], parts[k], RungResult(parts, k, r));
  }

  lemma PlanRepeatsNothing(cfg: Config, hasTarget: bool, cooling: bool)
    ensures NoTierTwice(Plan(cfg, hasTarget, cooling))
  {
  }

  lemma PlanEndsInTcp(cfg: Config, hasTarget: bool, cooling: bool)
    ensures var p := Plan(cfg, hasTarget, cooling); |p| > 0 && forall k :: 0 <= k < |p| ==>
      (p[k] == LastResort <==> k == |p| - 1)
  {
  }

  /** Every plan ends in raw TCP, so walking it always yields an upstream. */
  lemma AlwaysAnUpstream(
      cfg: Config, ip: Ip, hasTarget: bool, cooling: bool, parts: seq<seq<Step>>, r: Option<Upstream>)
    requires Walk(cfg, ip, Plan(cfg, hasTarget, cooling), parts, r)
    ensures r != None
    ensures r.value.Tcp? ==> r.value.dst == BuiltInOr(cfg, ip)
    ensures r.value.Tcp? ==>
      forall j :: 0 <= j < |Plan(cfg, hasTarget, cooling)| - 1 ==>
        |parts| == |Plan(cfg, hasTarget, cooling)|
        && GivenUp(cfg, Plan(cfg, hasTarget, cooling), parts, |parts| - 1, Plan(cfg, hasTarget, cooling)[j])
  {
    var plan := Plan(cfg, hasTarget, cooling);
    PlanEndsInTcp(cfg, hasTarget, cooling);
    var n := |parts|;
    assert TierWalk(cfg, ip, plan[n - 1], parts[n - 1], RungResult(parts, n - 1, r));
    if r.value.Tcp? {
      assert plan[n - 1] == LastResort;
      forall j | 0 <= j < |plan| - 1
        ensures GivenUp(cfg, plan, parts, n - 1, plan[j])
      {
        AboveIsGivenUp(cfg, ip, plan, parts, r, j, n - 1);
      }
    }
  }

  /**
   * An address that just timed out is dialled only after the pool had nothing
   * and every Worker, the Cloudflare proxy and every upstream proxy was tried
   * or cooling down.
   */
  lemma CoolingAddressIsLast(cfg: Config, ip: Ip, parts: seq<seq<Step>>, r: Option<Upstream>, k: nat, x: nat)
    requires !cfg.isTest && Walk(cfg, ip, Plan(cfg, true, true), parts, r)
    requires k < |parts| && x < |parts[k]| && parts[k][x].Direct?
    ensures GivenUp(cfg, Plan(cfg, true, true), parts, k, Pool)
    ensures GivenUp(cfg, Plan(cfg, true, true), parts, k, Workers)
    ensures GivenUp(cfg, Plan(cfg, true, true), parts, k, Cf)
    ensures GivenUp(cfg, Plan(cfg, true, true), parts, k, Proxies)
  {
    var plan := Plan(cfg, true, true);
    assert TierWalk(cfg, ip, plan[k], parts[k], RungResult(parts, k, r));
    TierFacts(cfg, ip, plan[k], parts[k], RungResult(parts, k, r));
    assert PlaceOf(cfg, parts[k][x]).tier == DirectWs;
    assert k == |plan| - 2;
    var n := |plan|;
    forall j | 0 <= j < k
      ensures GivenUp(cfg, plan, parts, k, plan[j])
    {
      AboveIsGivenUp(cfg, ip, plan, parts, r, j, k);
    }
    if cfg.cfPriority {
      assert plan[0] == Workers && plan[1] == Cf && plan[3] == Pool && plan[4] == Proxies;
    } else {
      assert plan[1] == Pool && plan[2] == Workers && plan[3] == Cf && plan[4] == Proxies;
    }
  }

  /** Each step turns to a place of its own rung. */
  lemma StepTier(
      cfg: Config, ip: Ip, plan: seq<Tier>, parts: seq<seq<Step>>, r: Option<Upstream>, k: nat, x: nat)
    requires Walk(cfg, ip, plan, parts, r) && k < |parts| && x < |parts[k]|
    ensures PlaceOf(cfg, parts[k][x]).tier == plan[k]
  {
    assert TierWalk(cfg, ip, plan[k], parts[k], RungResult(parts, k, r));
    TierFacts(cfg, ip, plan[k], parts[k], RungResult(parts, k, r));
  }

  lemma AllAboveGivenUp(
      cfg: Config, ip: Ip, plan: seq<Tier>, parts: seq<seq<Step>>, r: Option<Upstream>, k: nat, t: Tier)
    requires Walk(cfg, ip, plan, parts, r) && k < |parts| && t in plan[..k]
    ensures GivenUp(cfg, plan, parts, k, t)
  {
    var j :| 0 <= j < k && plan[j] == t;
    AboveIsGivenUp(cfg, ip, plan, parts, r, j, k);
  }

  /** Whether a walk steps over the address is decided by its check alone. */
  lemma CheckDecides(cfg: Config, ip: Ip, cooling: bool, parts: seq<seq<Step>>, r: Option<Upstream>, a: nat)
    requires Walk(cfg, ip, Plan(cfg, true, cooling), parts, r) && !cfg.isTest
    requires a < |parts| && parts[a] != [] && parts[a][0].AddressCheck?
    ensures var gate := parts[a][0].gate;
      cooling <==>
        && gate.until.Some? && gate.at < gate.until.value
        && (cfg.workers != [] || cfg.proxies != [] || parts[a][0].cfDomains)
  {
    var plan := Plan(cfg, true, cooling);
    StepTier(cfg, ip, plan, parts, r, a, 0);
    assert forall t :: t in plan && t.Check? ==> t == Check(cooling);
  }

  /**
   * While the cooldown of the address runs and a Worker, a Cloudflare domain or an
   * upstream proxy is configured, the address is dialled only after the pool had
   * nothing and all of these were given up.
   */
  lemma RunningCooldownIsRespected(
      cfg: Config, ip: Ip, cooling: bool, parts: seq<seq<Step>>, r: Option<Upstream>, a: nat, k: nat, x: nat)
    requires Walk(cfg, ip, Plan(cfg, true, cooling), parts, r) && !cfg.isTest
    requires a < |parts| && parts[a] != [] && parts[a][0].AddressCheck?
    requires parts[a][0].gate.until.Some? && parts[a][0].gate.at < parts[a][0].gate.until.value
    requires cfg.workers != [] || cfg.proxies != [] || parts[a][0].cfDomains
    requires k < |parts| && x < |parts[k]| && parts[k][x].Direct?
    ensures a < k
    ensures GivenUp(cfg, Plan(cfg, true, cooling), parts, k, Pool)
    ensures GivenUp(cfg, Plan(cfg, true, cooling), parts, k, Workers)
    ensures GivenUp(cfg, Plan(cfg, true, cooling), parts, k, Cf)
    ensures GivenUp(cfg, Plan(cfg, true, cooling), parts, k, Proxies)
  {
    var plan := Plan(cfg, true, cooling);
    CheckDecides(cfg, ip, cooling, parts, r, a);
    CoolingAddressIsLast(cfg, ip, parts, r, k, x);
    StepTier(cfg, ip, plan, parts, r, a, 0);
    StepTier(cfg, ip, plan, parts, r, k, x);
    CheckBeforeDirect(cfg, cooling, a, k);
  }

  lemma CheckBeforeDirect(cfg: Config, cooling: bool, a: nat, k: nat)
    requires !cfg.isTest && a < |Plan(cfg, true, cooling)| && k < |Plan(cfg, true, cooling)|
    requires Plan(cfg, true, cooling)[a].Check? && Plan(cfg, true, cooling)[k].DirectWs?
    ensures a < k
  {
  }

  /** The kinds of steps, by what they turn to. */
  predicate AtWorkers(s: Step) { s.WorkerPool? || s.Worker? }

  predicate AtCf(s: Step) { s.CfAbsent? || s.CfPool? || s.CfDial? }

  /**
   * The order of the rungs, told by the steps: `up` are the rungs given up before
   * `s`. With an address that is not stepped over, the pool and the address itself
   * come first, then Workers, Cloudflare proxy and upstream proxies; `cfPriority`
   * puts the first two of these before the pool. Without an address only the
   * fallbacks are left; a test DC has only the address and the Workers.
   */
  predicate InOrder(cfg: Config, hasTarget: bool, cooling: bool, s: Step, up: set<Tier>)
  {
    && (AtCf(s) || s.Proxy? ==> !cfg.isTest && Workers in up)
    && (s.Proxy? ==> Cf in up)
    && (s.PoolGet? || s.AddressCheck? ==> !cfg.isTest && hasTarget)
    && (s.PoolGet? && cfg.cfPriority ==> Workers in up && Cf in up)
    && (s.Direct? || s.Fronting? ==> cfg.isTest || (hasTarget && Pool in up))
    && (AtWorkers(s) && cfg.isTest ==> DirectWs in up)
    && (AtWorkers(s) && !cfg.isTest && hasTarget && !cfg.cfPriority ==> Pool in up && (!cooling ==> DirectWs in up))
    && (s.Proxy? && hasTarget ==> Pool in up && (!cooling ==> DirectWs in up))
    && (s.RawTcp? && !cfg.isTest ==>
        Workers in up && Cf in up && Proxies in up && (hasTarget ==> Pool in up && DirectWs in up))
    && (s.RawTcp? && cfg.isTest ==> Workers in up && DirectWs in up)
  }

  /** Every walk of a plan keeps that order. */
  lemma StepsInOrder(
      cfg: Config, ip: Ip, hasTarget: bool, cooling: bool, parts: seq<seq<Step>>, r: Option<Upstream>, k: nat, x: nat)
    returns (up: set<Tier>)
    requires Walk(cfg, ip, Plan(cfg, hasTarget, cooling), parts, r) && k < |parts| && x < |parts[k]|
    ensures InOrder(cfg, hasTarget, cooling, parts[k][x], up)
    ensures forall t :: t in up ==> GivenUp(cfg, Plan(cfg, hasTarget, cooling), parts, k, t)
  {
    var plan := Plan(cfg, hasTarget, cooling);
    StepTier(cfg, ip, plan, parts, r, k, x);
    up := set t | t in plan[..k];
    forall t | t in up
      ensures GivenUp(cfg, plan, parts, k, t)
    {
      AllAboveGivenUp(cfg, ip, plan, parts, r, k, t);
    }
    PlanOrder(cfg, hasTarget, cooling, k);
    OrderedBy(cfg, hasTarget, cooling, plan, k, parts[k][x], up);
  }

  lemma OrderedBy(cfg: Config, hasTarget: bool, cooling: bool, plan: seq<Tier>, k: nat, s: Step, up: set<Tier>)
    requires k < |plan| && PlaceOf(cfg, s).tier == plan[k] && up == set t | t in plan[..k]
    requires TierInOrder(cfg, hasTarget, cooling, plan[k], up)
    ensures InOrder(cfg, hasTarget, cooling, s, up)
  {
  }

  predicate TierInOrder(cfg: Config, hasTarget: bool, cooling: bool, t: Tier, up: set<Tier>)
  {
    && (t.Cf? || t.Proxies? ==> !cfg.isTest && Workers in up)
    && (t.Proxies? ==> Cf in up)
    && (t.Pool? || t.Check? ==> !cfg.isTest && hasTarget)
    && (t.Pool? && cfg.cfPriority ==> Workers in up && Cf in up)
    && (t.DirectWs? ==> cfg.isTest || (hasTarget && Pool in up))
    && (t.Workers? && cfg.isTest ==> DirectWs in up)
    && (t.Workers? && !cfg.isTest && hasTarget && !cfg.cfPriority ==> Pool in up && (!cooling ==> DirectWs in up))
    && (t.Proxies? && hasTarget ==> Pool in up && (!cooling ==> DirectWs in up))
    && (t.LastResort? && !cfg.isTest ==>
        Workers in up && Cf in up && Proxies in up && (hasTarget ==> Pool in up && DirectWs in up))
    && (t.LastResort? && cfg.isTest ==> Workers in up && DirectWs in up)
  }

  /** The same of the plan: what stands above the `k`-th rung. */
  lemma PlanOrder(cfg: Config, hasTarget: bool, cooling: bool, k: nat)
    requires k < |Plan(cfg, hasTarget, cooling)|
    ensures TierInOrder(
      cfg, hasTarget, cooling, Plan(cfg, hasTarget, cooling)[k], set t | t in Plan(cfg, hasTarget, cooling)[..k])
  {
    var plan := Plan(cfg, hasTarget, cooling);
    var above := plan[..k];
    forall j | 0 <= j < k
      ensures plan[j] in above
    {
      assert above[j] == plan[j];
    }
    var n := |plan|;
    assert n >= 3 && plan[0] == plan[0] && plan[1] == plan[1] && plan[2] == plan[2];
    assert n > 3 ==> plan[3] == plan[3];
    assert n > 4 ==> plan[4] == plan[4];
    assert n > 5 ==> plan[5] == plan[5];
  }

  /**
   * The addresses used: the configured one by the direct path; the built-in one,
   * where there is one and this is no test DC, by Workers and raw TCP.
   */
  lemma AddressesUsed(
      cfg: Config, ip: Ip, plan: seq<Tier>, parts: seq<seq<Step>>, r: Option<Upstream>, k: nat, x: nat)
    requires Walk(cfg, ip, plan, parts, r) && k < |parts| && x < |parts[k]|
    ensures var s, elsewhere := parts[k][x], if cfg.isTest || cfg.fallbackIp.None? then ip else cfg.fallbackIp.value;
      && (s.Direct? ==> s.tried.ip == ip)
      && (s.Worker? ==> s.dst == elsewhere)
      && (s.RawTcp? ==> s.dst == elsewhere)
  {
    assert TierWalk(cfg, ip, plan[k], parts[k], RungResult(parts, k, r));
    if plan[k] == Workers && cfg.workers != [] {
      var t := if cfg.isTest then parts[k] else parts[k][1..];
      if parts[k][x].Worker? {
        var y := if cfg.isTest then x else x - 1;
        assert t[y] == parts[k][x];
        assert WorkerStep(cfg, ip, t[y], Rotated(t[0].i, y, |cfg.workers|));
      }
    } else if plan[k] == Proxies {
      assert ProxyStep(parts[k][x], x);
    }
  }

  /**
   * A fronted retry is made at most once, and only after a plain attempt whose
   * upgrade stalled, outside the cooldown of fronting itself.
   */
  lemma FrontedRetryOnce(
      cfg: Config, ip: Ip, plan: seq<Tier>, parts: seq<seq<Step>>, r: Option<Upstream>, k: nat, x: nat)
    requires Walk(cfg, ip, plan, parts, r) && NoTierTwice(plan)
    requires k < |parts| && x < |parts[k]| && parts[k][x].Fronting? && parts[k][x].dialled
    ensures x == 1 && parts[k][0].Direct? && !parts[k][0].tried.fronted && !parts[k][0].tried.result.ok
    ensures parts[k][0].tried.result.upgradeTimedOut && !parts[k][1].gate.Closed() && cfg.frontingDomain
    ensures forall b, y :: 0 <= b < |parts| && 0 <= y < |parts[b]| && parts[b][y].Fronting? ==> (b, y) == (k, x)
  {
    assert TierWalk(cfg, ip, plan[k], parts[k], RungResult(parts, k, r));
    TierFacts(cfg, ip, plan[k], parts[k], RungResult(parts, k, r));
    assert PlaceOf(cfg, parts[k][x]).tier == DirectWs;
    forall b, y | 0 <= b < |parts| && 0 <= y < |parts[b]| && parts[b][y].Fronting?
      ensures (b, y) == (k, x)
    {
      if b < k || (b == k && y < x) {
        NothingTwice(cfg, ip, plan, parts, r, b, y, k, x);
      } else if (b, y) != (k, x) {
        NothingTwice(cfg, ip, plan, parts, r, k, x, b, y);
      }
    }
  }

  lemma GlancesLast(before: seq<Stamped>, later: seq<Stamped>, log: seq<Stamped>, t: Tried)
    requires before <= later <= log && Honest(before, t.key, t.first) && Honest(later, t.key, t.second)
    requires t.first.moment <= t.second.moment && t.first.gate.at <= t.second.gate.at
    ensures HonestTry(log, t)
  {
    assert log[..t.first.moment] == before[..t.first.moment];
    assert log[..t.second.moment] == later[..t.second.moment];
  }

  // ----------------------------------------------------------------- spares

  /** A spare tunnel: to the same address, through the Worker that answered unless balancing picks. */
  predicate WorkerSpare(cfg: Config, ip: Ip, answered: nat, spare: Spare)
    requires answered < |cfg.workers|
  {
    && spare.tier == Workers && spare.dst == Some(BuiltInOr(cfg, ip))
    && (if cfg.cfBalance then spare.domain in cfg.workers else spare.domain == cfg.workers[answered])
  }

  lemma FirstWorker(cfg: Config, ip: Ip, s: seq<Step>, first: nat)
    requires first < |cfg.workers| && |s| > 0 && WorkerStep(cfg, ip, s[0], Rotated(first, 0, |cfg.workers|))
    ensures s[0].i == first
  {
    Wraps(first, |cfg.workers|);
  }

  /** The place of a rotation over `n` names that a counter points at. */
  predicate NextIs(counter: nat, n: nat, i: nat)
  {
    if n <= 1 then i == 0 else i == counter % n
  }

  /** Two readings of a counter are neighbours in the rotation. */
  lemma OneFurther(count: nat, n: nat)
    requires n > 0
    ensures (count + 1) % n == Rotated(count % n, 1, n)
  {
    var q, m := count / n, count % n;
    assert count == n * q + m;
    if m + 1 < n {
      RemainderIs(count + 1, n, q, m + 1);
    } else {
      assert n * (q + 1) == n * q + n;
      RemainderIs(count + 1, n, q + 1, 0);
    }
    Wraps(m + 1, n);
  }

  lemma RemainderIs(x: nat, n: nat, q: nat, r: nat)
    requires n > 0 && x == n * q + r && r < n
    ensures x % n == r
  {
    var d := x / n - q;
    assert x == n * (x / n) + x % n;
    assert n * d == n * (x / n) - n * q;
    assert 0 < n * d + n && n * d < n;
    assert d == 0;
  }

  /** A walk after a miss of the pool. */
  lemma AfterPool(s: seq<Step>, t: seq<Step>)
    ensures (s + t)[|s|..] == t
    ensures t != [] ==> (s + t)[|s + t| - 1] == t[|t| - 1]
  {
  }

  /** `t` is a walk over the records of the configured domains. */
  ghost predicate Dialled(key: DcKey, domains: seq<string>, first: nat, t: seq<CfRecords.Attempt>)
  {
    exists outcomes :: t == CfRecords.Walk(domains, key.isMedia, first, outcomes)
  }

  /** The record that answered last. */
  function AnsweredBy(key: DcKey, domains: seq<string>, t: seq<CfRecords.Attempt>): string
  {
    if t != [] && t[|t| - 1].turn.index < |domains| then CfRecords.HostOf(key.dc, domains, t[|t| - 1].turn) else ""
  }

  lemma DialComesTo(
      key: DcKey, domains: seq<string>, first: nat, outcomes: nat -> CfRecords.Outcome,
      found: Option<string>, allRedirects: bool, dialled: seq<string>)
    requires CfRecords.Comes(key.dc, domains, CfRecords.Walk(domains, key.isMedia, first, outcomes), found,
                             allRedirects, dialled)
    ensures var t := CfRecords.Walk(domains, key.isMedia, first, outcomes);
      && Dialled(key, domains, first, t) && (found.Some? <==> !CfRecords.NoneAnswered(t))
      && (found.Some? ==> found.value == AnsweredBy(key, domains, t))
  {
    var t := CfRecords.Walk(domains, key.isMedia, first, outcomes);
    assert found.Some? ==> dialled[|t| - 1] == CfRecords.HostOf(key.dc, domains, t[|t| - 1].turn);
  }

  /** A spare of the Cloudflare proxy: the record that answered, unless balancing picks a domain. */
  ghost predicate CfSpare(cfg: Config, domains: seq<string>, t: seq<CfRecords.Attempt>, spare: Spare)
  {
    && spare.tier == Cf && spare.dst == None
    && if cfg.cfBalance then spare.domain in domains else spare.domain == AnsweredBy(cfg.key, domains, t)
  }

  /** One of the hosts under which the configured domains reach this DC. */
  ghost predicate IsRecord(key: DcKey, domains: seq<string>, host: string)
  {
    exists d, record :: d in domains && host == CfRecords.Hostname(key.dc, d, record)
  }

  /**
   * The pool opens a spare of this tier at exactly the host it is given. That
   * host reaches the DC when balancing is off; with balancing it is a bare
   * configured domain, which does not, unless it is itself named like a record.
   */
  lemma SpareReachesDc(cfg: Config, domains: seq<string>, first: nat, t: seq<CfRecords.Attempt>, spare: Spare)
    requires Dialled(cfg.key, domains, first, t) && !CfRecords.NoneAnswered(t) && CfSpare(cfg, domains, t, spare)
    ensures !cfg.cfBalance ==> IsRecord(cfg.key, domains, spare.domain)
    ensures cfg.cfBalance && !("kws" <= spare.domain) ==> !IsRecord(cfg.key, domains, spare.domain)
  {
    forall d, record
      ensures "kws" <= CfRecords.Hostname(cfg.key.dc, d, record)
    {
    }
    if !cfg.cfBalance {
      var outcomes :| t == CfRecords.Walk(domains, cfg.key.isMedia, first, outcomes);
      CfRecords.InsideDomains(domains, cfg.key.isMedia, first, outcomes, |t| - 1);
      var turn := t[|t| - 1].turn;
      assert domains[turn.index] in domains;
      assert spare.domain == CfRecords.Hostname(cfg.key.dc, domains[turn.index], turn.record);
    }
  }

  /** With one domain and balancing on, whatever answers earns a spare at a host that is no record. */
  lemma SpareMissesDc(cfg: Config, outcomes: nat -> CfRecords.Outcome)
    requires cfg.cfBalance && !CfRecords.NoneAnswered(CfRecords.Walk(["a.org"], cfg.key.isMedia, 0, outcomes))
    ensures var t, spare := CfRecords.Walk(["a.org"], cfg.key.isMedia, 0, outcomes), Spare(Cf, None, "a.org");
      && Dialled(cfg.key, ["a.org"], 0, t) && CfSpare(cfg, ["a.org"], t, spare)
      && !IsRecord(cfg.key, ["a.org"], spare.domain)
  {
    var t, spare := CfRecords.Walk(["a.org"], cfg.key.isMedia, 0, outcomes), Spare(Cf, None, "a.org");
    assert Dialled(cfg.key, ["a.org"], 0, t);
    SpareReachesDc(cfg, ["a.org"], 0, t, spare);
  }

  // ------------------------------------------------------------- the ladder

  class Route {
    const cfg: Config
    const health: Health

    constructor (cfg: Config, health: Health)
      ensures this.cfg == cfg && this.health == health
    {
      this.cfg, this.health := cfg, health;
    }

    /** One candidate of the Worker rotation: skipped while cooling, else dialled and remembered. */
    method TryWorker(i: nat, ip: Ip) returns (step: Step)
      requires i < |cfg.workers| && health.Valid()
      modifies health
      ensures health.Valid() && old(health.log) <= health.log && old(health.mine) <= health.mine
      ensures WorkerStep(cfg, ip, step, i) && step.gate == old(Look(health.workerFail, cfg.workers[i], health.now))
      ensures step.dialled <==>
        !(cfg.workers[i] in old(health.workerFail) && old(health.now) < old(health.workerFail)[cfg.workers[i]])
      ensures !health.shared ==> health.workerCounter == old(health.workerCounter)
      ensures step.dialled && step.ok ==> cfg.workers[i] !in health.workerFail
      ensures step.dialled && !step.ok ==>
        cfg.workers[i] in health.workerFail && health.workerFail[cfg.workers[i]] == health.now + cfg.cfFail
      ensures !step.dialled ==> unchanged(health)
      ensures step.dialled ==>
        && health.mine == old(health.mine)
        + [if step.ok then WorkerClear(cfg.workers[i]) else WorkerSet(cfg.workers[i], cfg.cfFail)]
    {
      var domain := cfg.workers[i];
      var gate := Look(health.workerFail, domain, health.now);
      assert gate.Closed() <==> domain in health.workerFail && health.now < health.workerFail[domain];
      var dst := BuiltInOr(cfg, ip);
      if gate.Closed() {
        return Worker(i, gate, dst, false, false);
      }
      health.Elapse();
      health.Others();
      var ok: bool := *;
      if ok {
        health.ClearWorker(domain);
      } else {
        health.SetWorker(domain, cfg.cfFail);
      }
      step := Worker(i, gate, dst, true, ok);
    }

    /** `cf_worker` with the wrapping `cf_tiers` gives its result. A Worker that was dialled earns a spare. */
    method CfWorker(ip: Ip) returns (r: Option<Upstream>, ghost s: seq<Step>, spare: Option<Spare>)
      requires health.Valid()
      modifies health
      ensures health.Valid() && old(health.log) <= health.log && old(health.mine) <= health.mine
      ensures WorkersWalk(cfg, ip, s, r)
      ensures spare.Some? <==> !cfg.isTest && r.Some? && s[|s| - 1].Worker?
      ensures spare.Some? ==> WorkerSpare(cfg, ip, s[|s| - 1].i, spare.value)
    {
      s := [];
      var n := |cfg.workers|;
      if n == 0 {
        return None, s, None;
      }
      if !cfg.isTest {
        health.Elapse();
        health.Others();
        var hit: bool := *;
        s := [WorkerPool(hit)];
        if hit {
          return Some(Ws(Tunnel)), s, None;
        }
      }
      ghost var t;
      r, t, spare := WorkerRotation(ip);
      AfterPool(s, t);
      s := s + t;
    }

    /** Where the rotation starts; with balancing the counter then stands at the next one. */
    method StartRotation() returns (first: nat)
      requires cfg.workers != []
      modifies health`workerCounter
      ensures first < |cfg.workers| && (!cfg.cfBalance ==> first == 0)
      ensures cfg.cfBalance && old(health.workerCounter) + 1 < COUNTER_WRAP ==>
        NextIs(health.workerCounter, |cfg.workers|, Rotated(first, 1, |cfg.workers|))
    {
      ghost var count := health.workerCounter;
      first := health.WorkerOffset(|cfg.workers|, cfg.cfBalance);
      OneFurther(count, |cfg.workers|);
    }

    /** `cf_target` and `cf_prefetch` for the Worker that answered. */
    method KeepSpare(answered: nat, ip: Ip) returns (spare: Option<Spare>)
      requires health.Valid() && answered < |cfg.workers|
      modifies health
      ensures health.Valid() && old(health.log) <= health.log && health.mine == old(health.mine)
      ensures spare.Some? <==> !cfg.isTest
      ensures spare.Some? ==> WorkerSpare(cfg, ip, answered, spare.value)
      ensures spare.Some? && cfg.cfBalance && !health.shared ==>
        forall i :: 0 <= i < |cfg.workers| && NextIs(old(health.workerCounter), |cfg.workers|, i) ==>
          spare.value.domain == cfg.workers[i]
    {
      if cfg.isTest {
        return None;
      }
      health.Others();
      var next := health.WorkerOffset(|cfg.workers|, cfg.cfBalance);
      var domain := cfg.workers[if cfg.cfBalance then next else answered];
      return Some(Spare(Workers, Some(BuiltInOr(cfg, ip)), domain));
    }

    /** Once round the Workers; with balancing the spare goes to the one after the first. */
    method WorkerRotation(ip: Ip) returns (r: Option<Upstream>, ghost s: seq<Step>, spare: Option<Spare>)
      requires health.Valid() && cfg.workers != []
      modifies health
      ensures health.Valid() && old(health.log) <= health.log && old(health.mine) <= health.mine
      ensures WorkerWalk(cfg, ip, s, r)
      ensures spare.Some? <==> !cfg.isTest && r.Some?
      ensures spare.Some? ==> WorkerSpare(cfg, ip, s[|s| - 1].i, spare.value)
      ensures spare.Some? && cfg.cfBalance && !health.shared && old(health.workerCounter) + 1 < COUNTER_WRAP ==>
        spare.value.domain == cfg.workers[Rotated(s[0].i, 1, |cfg.workers|)]
    {
      var n := |cfg.workers|;
      var first := StartRotation();
      ghost var counter, second := health.workerCounter, Rotated(first, 1, n);
      s := [];
      for k := 0 to n
        invariant |s| == k && health.Valid() && old(health.log) <= health.log && old(health.mine) <= health.mine
        invariant FailedRun(cfg, ip, s, first)
        invariant k == n ==> WorkerWalk(cfg, ip, s, None)
        invariant !health.shared ==> health.workerCounter == counter
      {
        health.Others();
        var step := TryWorker(Rotated(first, k, n), ip);
        OneMoreWorker(cfg, ip, s, first, step);
        s := s + [step];
        if step.ok {
          assert s[0].i == first by {
            FirstWorker(cfg, ip, s, first);
          }
          spare := KeepSpare(step.i, ip);
          return Some(Ws(Tunnel)), s, spare;
        }
      }
      return None, s, None;
    }

    /** The walk over the records, and the spare that a success earns. */
    method DialRecords(domains: seq<string>, first: nat)
      returns (ok: bool, ghost t: seq<CfRecords.Attempt>, spare: Option<Spare>)
      requires domains != [] && first < |domains| && health.Valid()
      modifies health
      ensures health.Valid() && old(health.log) <= health.log && health.mine == old(health.mine)
      ensures Dialled(cfg.key, domains, first, t) && (ok <==> !CfRecords.NoneAnswered(t))
      ensures spare.Some? <==> ok
      ensures spare.Some? ==> CfSpare(cfg, domains, t, spare.value)
    {
      health.Elapse();
      health.Others();
      var outcomes: nat -> CfRecords.Outcome :| true;
      var found, allRedirects, dialled;
      found, allRedirects, dialled := CfRecords.Connect(cfg.key.dc, domains, cfg.key.isMedia, first, outcomes);
      t := CfRecords.Walk(domains, cfg.key.isMedia, first, outcomes);
      DialComesTo(cfg.key, domains, first, outcomes, found, allRedirects, dialled);
      ok, spare := found.Some?, None;
      if ok {
        health.Others();
        var next := health.CfOffset(|domains|, cfg.cfBalance);
        spare := Some(Spare(Cf, None, if cfg.cfBalance then domains[next] else found.value));
      }
    }

    /** `cf_proxy`: no cooldown, every configured domain on every connection. */
    method CfProxy()
      returns (r: Option<Upstream>, ghost s: seq<Step>, ghost t: seq<CfRecords.Attempt>, spare: Option<Spare>)
      requires health.Valid()
      modifies health
      ensures health.Valid() && old(health.log) <= health.log && old(health.mine) <= health.mine
      ensures CfWalk(cfg, s, r)
      ensures s == [CfAbsent] <==> cfg.isTest || old(health.cfDomains) == []
      ensures |s| == 2 ==>
        && s[1].domains == |old(health.cfDomains)|
        && Dialled(cfg.key, old(health.cfDomains), s[1].first, t) && (s[1].ok <==> !CfRecords.NoneAnswered(t))
      ensures spare.Some? <==> |s| == 2 && s[1].ok
      ensures spare.Some? ==> CfSpare(cfg, old(health.cfDomains), t, spare.value)
    {
      var domains := health.cfDomains;
      t := [];
      if cfg.isTest || domains == [] {
        return None, [CfAbsent], t, None;
      }
      health.Others();
      var first := health.CfOffset(|domains|, cfg.cfBalance);
      health.Elapse();
      health.Others();
      var hit: bool := *;
      if hit {
        return Some(Ws(Packets)), [CfPool(true)], t, None;
      }
      var ok;
      ok, t, spare := DialRecords(domains, first);
      r, s := Found(ok, Ws(Packets)), [CfPool(false), CfDial(first, |domains|, ok)];
    }

    /** One upstream MTProto proxy: skipped while cooling, else dialled and remembered. */
    method TryProxy(i: nat) returns (step: Step)
      requires i < |cfg.proxies| && health.Valid()
      modifies health
      ensures health.Valid() && old(health.log) <= health.log && old(health.mine) <= health.mine
      ensures ProxyStep(step, i) && step.gate == old(Look(health.upstreamFail, cfg.proxies[i], health.now))
      ensures step.dialled <==>
        !(cfg.proxies[i] in old(health.upstreamFail) && old(health.now) < old(health.upstreamFail)[cfg.proxies[i]])
      ensures step.dialled && step.ok ==> cfg.proxies[i] !in health.upstreamFail
      ensures step.dialled && !step.ok ==>
        cfg.proxies[i] in health.upstreamFail && health.upstreamFail[cfg.proxies[i]] == health.now + cfg.upstreamFail
      ensures !step.dialled ==> unchanged(health)
      ensures step.dialled ==>
        && health.mine == old(health.mine)
        + [if step.ok then ProxyClear(cfg.proxies[i]) else ProxySet(cfg.proxies[i], cfg.upstreamFail)]
    {
      var key := cfg.proxies[i];
      var gate := Look(health.upstreamFail, key, health.now);
      if gate.Closed() {
        return Proxy(i, gate, false, false);
      }
      health.Elapse();
      health.Others();
      var ok: bool := *;
      if ok {
        health.ClearUpstream(key);
      } else {
        health.SetUpstream(key, cfg.upstreamFail);
      }
      step := Proxy(i, gate, true, ok);
    }

    /** `upstream_proxies`: in the configured order. */
    method UpstreamProxies() returns (r: Option<Upstream>, ghost s: seq<Step>)
      requires health.Valid()
      modifies health
      ensures health.Valid() && old(health.log) <= health.log && old(health.mine) <= health.mine
      ensures ProxiesWalk(cfg, s, r)
    {
      s := [];
      for i := 0 to |cfg.proxies|
        invariant |s| == i && health.Valid() && old(health.log) <= health.log && old(health.mine) <= health.mine
        invariant forall k :: 0 <= k < i ==> ProxyStep(s[k], k) && !s[k].ok
      {
        health.Others();
        var step := TryProxy(i);
        s := s + [step];
        if step.ok {
          return Some(Mtproto(i)), s;
        }
      }
      r := None;
    }

    method CfTiers(ip: Ip) returns (r: Option<Upstream>, ghost parts: seq<seq<Step>>)
      requires health.Valid()
      modifies health
      ensures health.Valid() && old(health.log) <= health.log && old(health.mine) <= health.mine
      ensures Walk(cfg, ip, [Workers, Cf], parts, r)
    {
      ghost var s;
      var spare;
      r, s, spare := CfWorker(ip);
      OneRung(cfg, ip, Workers, s, r);
      if r != None {
        WalkStops(cfg, ip, [Workers], [s], [Cf], r);
        return r, [s];
      }
      ghost var t, attempts;
      r, t, attempts, spare := CfProxy();
      OneRung(cfg, ip, Cf, t, r);
      WalkOn(cfg, ip, [Workers], [s], [Cf], [t], r);
      parts := [s] + [t];
    }

    method FallbackChain(ip: Ip, skipCf: bool) returns (r: Option<Upstream>, ghost parts: seq<seq<Step>>)
      requires health.Valid()
      modifies health
      ensures health.Valid() && old(health.log) <= health.log && old(health.mine) <= health.mine
      ensures Walk(cfg, ip, Chain(skipCf), parts, r)
    {
      parts := [];
      if !skipCf {
        r, parts := CfTiers(ip);
        if r != None {
          WalkStops(cfg, ip, [Workers, Cf], parts, [Proxies], r);
          return;
        }
      }
      ghost var s;
      r, s := UpstreamProxies();
      OneRung(cfg, ip, Proxies, s, r);
      if !skipCf {
        WalkOn(cfg, ip, [Workers, Cf], parts, [Proxies], [s], r);
      }
      parts := parts + [s];
    }

    // ------------------------------------------------------- direct WebSocket

    /** What a failed direct attempt leaves behind, and when the address itself is put aside. */
    function FailureChanges(tried: Tried): seq<Change>
    {
      [WsSet(cfg.key, if tried.result.allRedirects then cfg.wsRedirect else cfg.wsFail)]
      + if tried.result.connectTimedOut && !tried.Probing() then [IpSet(tried, cfg.ipFail)] else []
    }

    function FrontedChanges(): seq<Change> { [FrontingClear(cfg.key), StickyOn(cfg.frontingSticky)] }

    /** Everything a direct attempt changes in the route health, in this order. */
    function DirectChanges(s: seq<Step>): seq<Change>
      requires |s| > 0 && s[0].Direct? && (|s| > 1 ==> s[1].Fronting?)
    {
      var tried := s[0].tried;
      if tried.fronted then
        if tried.result.ok then FrontedChanges()
        else [StickyOff, FrontingSet(cfg.key, cfg.frontingFail)] + FailureChanges(tried)
      else if tried.result.ok || |s| == 1 then [WsClear(cfg.key), IpClear(tried)]
      else RetryChanges(s[1]) + if s[1].ok then [] else FailureChanges(tried)
    }

    function RetryChanges(step: Step): seq<Change>
      requires step.Fronting?
    {
      if !step.dialled then [] else if step.ok then FrontedChanges() else [FrontingSet(cfg.key, cfg.frontingFail)]
    }

    /** What is on record right after a failed attempt, as long as nobody else comes in between. */
    ghost predicate CooledDown(ip: Ip, tried: Tried)
      reads health
    {
      && cfg.key in health.wsFail
      && health.wsFail[cfg.key] == health.now + (if tried.result.allRedirects then cfg.wsRedirect else cfg.wsFail)
      && (tried.result.connectTimedOut && !tried.Probing() ==>
          && ip in health.ipFail && health.ipFail[ip] == health.now + cfg.ipFail)
    }

    /**
     * `direct_ws`. Whatever the others do meanwhile, its glances are honest and
     * its own changes are exactly those of its record; and with nobody else at
     * work the state it leaves follows.
     */
    method DirectWebSocket(ip: Ip) returns (r: Option<Upstream>, ghost s: seq<Step>)
      requires health.Valid()
      modifies health
      ensures health.Valid() && old(health.log) <= health.log
      ensures DirectWalk(cfg, ip, s, r)
      ensures s[0].tried.fronted == (old(health.FrontingActive()) && cfg.frontingDomain)
      ensures HonestTry(health.log, s[0].tried) && |old(health.log)| <= s[0].tried.first.moment
      ensures health.mine == old(health.mine) + DirectChanges(s)
      // With nobody else at work.
      ensures !health.shared ==>
        s[0].tried.first.gate == s[0].tried.second.gate == old(Look(health.wsFail, cfg.key, health.now))
      ensures !health.shared && r != None && |s| == 1 && !s[0].tried.fronted ==>
        cfg.key !in health.wsFail && ip !in health.ipFail
      ensures !health.shared && r != None && (|s| == 2 || s[0].tried.fronted) ==>
        cfg.key !in health.frontingFail && health.frontingUntil == Some(health.now + cfg.frontingSticky)
      ensures !health.shared && r == None && s[0].tried.fronted ==> health.frontingUntil == None
      ensures !health.shared && r == None && (s[0].tried.fronted || s[1].dialled) ==>
        cfg.key in health.frontingFail && health.frontingFail[cfg.key] == health.now + cfg.frontingFail
      ensures !health.shared && r == None ==> CooledDown(ip, s[0].tried)
    {
      var sticky := health.FrontingActive() && cfg.frontingDomain;
      var tried := TryDirect(ip, sticky);
      if tried.result.ok {
        s := [Direct(tried)];
        Connected(tried);
        return Some(Ws(Packets)), s;
      }
      r, s := NotConnected(tried);
    }

    /** The aftermath of a direct attempt that connected. */
    method Connected(tried: Tried)
      requires health.Valid() && HonestTry(health.log, tried) && tried.key == cfg.key && tried.result.ok
      modifies health
      ensures health.Valid() && old(health.log) <= health.log && HonestTry(health.log, tried)
      ensures health.mine == old(health.mine) + DirectChanges([Direct(tried)])
      ensures !health.shared && !tried.fronted ==> cfg.key !in health.wsFail && tried.ip !in health.ipFail
      ensures !health.shared && tried.fronted ==>
        cfg.key !in health.frontingFail && health.frontingUntil == Some(health.now + cfg.frontingSticky)
    {
      if tried.fronted {
        OnFrontingSuccess();
      } else {
        PlainSuccess(tried);
      }
      HonestLater(old(health.log), health.log, tried);
    }

    /** The aftermath of one that did not. */
    method NotConnected(tried: Tried) returns (r: Option<Upstream>, ghost s: seq<Step>)
      requires health.Valid() && HonestTry(health.log, tried) && tried.key == cfg.key && !tried.result.ok
      requires tried.fronted ==> cfg.frontingDomain
      modifies health
      ensures health.Valid() && old(health.log) <= health.log && HonestTry(health.log, tried)
      ensures DirectWalk(cfg, tried.ip, s, r) && s[0].tried == tried
      ensures health.mine == old(health.mine) + DirectChanges(s)
      ensures !health.shared && r != None ==>
        cfg.key !in health.frontingFail && health.frontingUntil == Some(health.now + cfg.frontingSticky)
      ensures !health.shared && r == None && tried.fronted ==> health.frontingUntil == None
      ensures !health.shared && r == None && (tried.fronted || s[1].dialled) ==>
        cfg.key in health.frontingFail && health.frontingFail[cfg.key] == health.now + cfg.frontingFail
      ensures !health.shared && r == None ==> CooledDown(tried.ip, tried)
    {
      s := [Direct(tried)];
      r := None;
      if tried.fronted {
        StickyFailed();
      } else {
        var again, retry := ReactiveFronting(tried.result.upgradeTimedOut);
        s := s + [retry];
        if again {
          HonestLater(old(health.log), health.log, tried);
          return Some(Ws(Packets)), s;
        }
      }
      HonestLater(old(health.log), health.log, tried);
      ghost var settled := health.log;
      CoolDown(tried);
      HonestLater(settled, health.log, tried);
    }

    /** The two glances and the dial. */
    method TryDirect(ip: Ip, sticky: bool) returns (tried: Tried)
      requires health.Valid()
      modifies health
      ensures health.Valid() && old(health.log) <= health.log && health.mine == old(health.mine)
      ensures tried.ip == ip && tried.key == cfg.key && tried.fronted == sticky
      ensures HonestTry(health.log, tried) && |old(health.log)| <= tried.first.moment
      ensures !health.shared ==>
        && tried.first.gate == tried.second.gate == old(Look(health.wsFail, cfg.key, health.now))
        && health.log == old(health.log) && health.wsFail == old(health.wsFail)
        && health.ipFail == old(health.ipFail) && health.frontingFail == old(health.frontingFail)
        && health.frontingUntil == old(health.frontingUntil)
    {
      health.Others();
      var first := health.GlanceAt(cfg.key);
      ghost var before := health.log;
      health.Others();
      var second := health.GlanceAt(cfg.key);
      ghost var later := health.log;
      health.Elapse();
      health.Others();
      var attempt: Attempt :| true;
      tried := Tried(ip, cfg.key, sticky, first, second, attempt);
      GlancesLast(before, later, health.log, tried);
    }

    method PlainSuccess(tried: Tried)
      requires health.Valid() && HonestTry(health.log, tried) && tried.key == cfg.key
      requires tried.result.ok && !tried.fronted
      modifies health
      ensures health.Valid() && old(health.log) <= health.log
      ensures health.mine == old(health.mine) + [WsClear(cfg.key), IpClear(tried)]
      ensures !health.shared ==> cfg.key !in health.wsFail && tried.ip !in health.ipFail
    {
      health.Others();
      health.ClearWs(cfg.key);
      HonestLater(old(health.log), health.log, tried);
      TakeBack(tried);
    }

    /** A connection worked: its address is no longer put away. */
    method TakeBack(tried: Tried)
      requires health.Valid() && HonestTry(health.log, tried) && tried.result.ok && !tried.fronted
      modifies health
      ensures health.Valid() && old(health.log) <= health.log && health.mine == old(health.mine) + [IpClear(tried)]
      ensures !health.shared ==> tried.ip !in health.ipFail && health.wsFail == old(health.wsFail)
    {
      health.OthersDuring(tried);
      health.ClearIp(tried);
    }

    /** A connect timeout outside a probe: the address is put away. */
    method PutAway(tried: Tried)
      requires health.Valid() && HonestTry(health.log, tried) && tried.result.connectTimedOut && !tried.Probing()
      modifies health
      ensures health.Valid() && old(health.log) <= health.log
      ensures health.mine == old(health.mine) + [IpSet(tried, cfg.ipFail)]
      ensures !health.shared ==> tried.ip in health.ipFail && health.ipFail[tried.ip] == health.now + cfg.ipFail
      ensures !health.shared ==> health.now == old(health.now) && health.wsFail == old(health.wsFail)
      ensures !health.shared ==>
        health.frontingFail == old(health.frontingFail) && health.frontingUntil == old(health.frontingUntil)
    {
      health.OthersDuring(tried);
      health.CoolDownIp(tried, cfg.ipFail);
    }

    method StickyFailed()
      requires health.Valid()
      modifies health
      ensures health.Valid() && old(health.log) <= health.log
      ensures health.mine == old(health.mine) + [StickyOff, FrontingSet(cfg.key, cfg.frontingFail)]
      ensures !health.shared ==>
        && health.now == old(health.now) && health.frontingUntil == None
        && health.frontingFail == old(health.frontingFail)[cfg.key := health.now + cfg.frontingFail]
    {
      health.Others();
      health.DeactivateFronting();
      health.Others();
      health.SetFrontingFail(cfg.key, cfg.frontingFail);
    }

    /** `cool_down_ws`. */
    method CoolDownWs(tried: Tried)
      requires health.Valid() && HonestTry(health.log, tried)
      modifies health
      ensures health.Valid() && old(health.log) <= health.log && HonestTry(health.log, tried)
      ensures health.mine == old(health.mine)
        + [WsSet(cfg.key, if tried.result.allRedirects then cfg.wsRedirect else cfg.wsFail)]
      ensures !health.shared ==>
        && cfg.key in health.wsFail && health.now == old(health.now)
        && health.wsFail[cfg.key] == health.now + (if tried.result.allRedirects then cfg.wsRedirect else cfg.wsFail)
        && health.frontingUntil == old(health.frontingUntil) && health.frontingFail == old(health.frontingFail)
    {
      health.Others();
      var cooldown := if tried.result.allRedirects then cfg.wsRedirect else cfg.wsFail;
      health.SetWs(cfg.key, cooldown);
      HonestLater(old(health.log), health.log, tried);
    }

    /** `cool_down_ws` and `cool_down_ip`. */
    method CoolDown(tried: Tried)
      requires health.Valid() && HonestTry(health.log, tried)
      modifies health
      ensures health.Valid() && old(health.log) <= health.log
      ensures health.mine == old(health.mine) + FailureChanges(tried)
      ensures !health.shared ==>
        && CooledDown(tried.ip, tried) && health.now == old(health.now)
        && health.frontingUntil == old(health.frontingUntil) && health.frontingFail == old(health.frontingFail)
    {
      CoolDownWs(tried);
      if tried.result.connectTimedOut && !tried.Probing() {
        PutAway(tried);
      }
    }

    /** `reactive_fronting`. */
    method ReactiveFronting(stalled: bool) returns (ok: bool, ghost step: Step)
      requires health.Valid()
      modifies health
      ensures health.Valid() && old(health.log) <= health.log
      ensures step.Fronting? && step.stalled == stalled && step.ok == ok && (ok ==> step.dialled)
      ensures step.dialled == (stalled && !step.gate.Closed() && cfg.frontingDomain)
      ensures health.mine == old(health.mine) + RetryChanges(step)
      ensures !health.shared ==> step.gate == old(Look(health.frontingFail, cfg.key, health.now))
      ensures !health.shared && ok ==>
        cfg.key !in health.frontingFail && health.frontingUntil == Some(health.now + cfg.frontingSticky)
      ensures !health.shared && step.dialled && !ok ==>
        cfg.key in health.frontingFail && health.frontingFail[cfg.key] == health.now + cfg.frontingFail
    {
      health.Others();
      var gate := Look(health.frontingFail, cfg.key, health.now);
      if !stalled || gate.Closed() || !cfg.frontingDomain {
        return false, Fronting(stalled, gate, false, false);
      }
      // The dial glances at the direct-path cooldown for its own time limit.
      health.Others();
      health.Elapse();
      health.Others();
      ok := *;
      step := Fronting(stalled, gate, true, ok);
      if ok {
        OnFrontingSuccess();
      } else {
        health.SetFrontingFail(cfg.key, cfg.frontingFail);
      }
    }

    method OnFrontingSuccess()
      requires health.Valid()
      modifies health
      ensures health.Valid() && old(health.log) <= health.log
      ensures health.mine == old(health.mine) + FrontedChanges()
      ensures !health.shared ==>
        && health.now == old(health.now) && health.frontingFail == old(health.frontingFail) - {cfg.key}
        && health.frontingUntil == Some(health.now + cfg.frontingSticky)
    {
      health.Others();
      health.ClearFrontingFail(cfg.key);
      health.Others();
      health.ActivateFronting(cfg.frontingSticky);
    }

    method TryPool() returns (r: Option<Upstream>, ghost s: seq<Step>)
      requires health.Valid()
      modifies health
      ensures health.Valid() && old(health.log) <= health.log && old(health.mine) <= health.mine
      ensures |s| == 1 && s[0].PoolGet? && r == Found(s[0].hit, Ws(Packets))
    {
      health.Elapse();
      health.Others();
      var hit: bool := *;
      r, s := Found(hit, Ws(Packets)), [PoolGet(hit)];
    }

    // ----------------------------------------------------------- the decision

    /** The raw TCP rung, at the foot of every plan. */
    lemma LandOnTcp(ip: Ip, plan: seq<Tier>, parts: seq<seq<Step>>, whole: seq<Tier>)
      returns (all: seq<seq<Step>>)
      requires Walk(cfg, ip, plan, parts, None) && plan + [LastResort] == whole
      ensures Walk(cfg, ip, whole, all, Some(Tcp(BuiltInOr(cfg, ip))))
      ensures parts <= all
    {
      var s := [RawTcp(BuiltInOr(cfg, ip))];
      var r := Some(Tcp(BuiltInOr(cfg, ip)));
      OneRung(cfg, ip, LastResort, s, r);
      WalkOn(cfg, ip, plan, parts, [LastResort], [s], r);
      all := parts + [s];
    }

    method SelectForTest(ip: Ip) returns (r: Option<Upstream>, ghost parts: seq<seq<Step>>)
      requires cfg.isTest && health.Valid()
      modifies health
      ensures health.Valid() && old(health.log) <= health.log && old(health.mine) <= health.mine
      ensures r != None && Walk(cfg, ip, Plan(cfg, true, false), parts, r)
    {
      ghost var plan := Plan(cfg, true, false);
      ghost var s;
      r, s := DirectWebSocket(ip);
      OneRung(cfg, ip, DirectWs, s, r);
      if r != None {
        WalkStops(cfg, ip, [DirectWs], [s], [Workers, LastResort], r);
        return r, [s];
      }
      ghost var t;
      var spare;
      r, t, spare := CfWorker(ip);
      OneRung(cfg, ip, Workers, t, r);
      Further(cfg, ip, [DirectWs], [s], [Workers], [t], r, plan);
      parts := [s] + [t];
      if r == None {
        r := Some(Tcp(ip));
        parts := LandOnTcp(ip, [DirectWs] + [Workers], parts, plan);
      }
    }

    method SelectWithoutTarget(fallback: Ip) returns (r: Option<Upstream>, ghost parts: seq<seq<Step>>)
      requires !cfg.isTest && cfg.fallbackIp == Some(fallback) && health.Valid()
      modifies health
      ensures health.Valid() && old(health.log) <= health.log && old(health.mine) <= health.mine
      ensures r != None && Walk(cfg, fallback, Plan(cfg, false, false), parts, r)
    {
      r, parts := FallbackChain(fallback, false);
      if r == None {
        r := Some(Tcp(fallback));
        parts := LandOnTcp(fallback, [Workers, Cf, Proxies], parts, Plan(cfg, false, false));
      } else {
        WalkStops(cfg, fallback, [Workers, Cf, Proxies], parts, [LastResort], r);
      }
    }

    /** After a pool miss for an address in cooldown: everything else first, then the address after all. */
    method FallbackThenDirect(ip: Ip) returns (r: Option<Upstream>, ghost parts: seq<seq<Step>>)
      requires health.Valid()
      modifies health
      ensures health.Valid() && old(health.log) <= health.log && old(health.mine) <= health.mine
      ensures r != None && Walk(cfg, ip, Foot(cfg, true), parts, r)
    {
      ghost var plan, chain := Foot(cfg, true), Chain(cfg.cfPriority);
      r, parts := FallbackChain(ip, cfg.cfPriority);
      if r != None {
        WalkStops(cfg, ip, chain, parts, [DirectWs] + [LastResort], r);
        assert chain + ([DirectWs] + [LastResort]) == plan;
        return;
      }
      ghost var s;
      r, s := DirectWebSocket(ip);
      OneRung(cfg, ip, DirectWs, s, r);
      Further(cfg, ip, chain, parts, [DirectWs], [s], r, plan);
      parts := parts + [s];
      if r == None {
        r := Some(Tcp(BuiltInOr(cfg, ip)));
        parts := LandOnTcp(ip, chain + [DirectWs], parts, plan);
      }
    }

    /** After a pool miss otherwise. */
    method DirectThenFallback(ip: Ip) returns (r: Option<Upstream>, ghost parts: seq<seq<Step>>)
      requires health.Valid()
      modifies health
      ensures health.Valid() && old(health.log) <= health.log && old(health.mine) <= health.mine
      ensures r != None && Walk(cfg, ip, Foot(cfg, false), parts, r)
    {
      ghost var plan, chain := Foot(cfg, false), Chain(cfg.cfPriority);
      ghost var s, more;
      r, s := DirectWebSocket(ip);
      OneRung(cfg, ip, DirectWs, s, r);
      if r != None {
        WalkStops(cfg, ip, [DirectWs], [s], chain + [LastResort], r);
        assert [DirectWs] + (chain + [LastResort]) == plan;
        return r, [s];
      }
      r, more := FallbackChain(ip, cfg.cfPriority);
      Further(cfg, ip, [DirectWs], [s], chain, more, r, plan);
      parts := [s] + more;
      if r == None {
        r := Some(Tcp(BuiltInOr(cfg, ip)));
        parts := LandOnTcp(ip, [DirectWs] + chain, parts, plan);
      }
    }

    /** Whether the address is in its cooldown with somewhere else to go, and the pool in any case. */
    method LookAndPool(ip: Ip) returns (r: Option<Upstream>, ghost parts: seq<seq<Step>>, cooling: bool)
      requires health.Valid()
      modifies health
      ensures health.Valid() && old(health.log) <= health.log && old(health.mine) <= health.mine
      ensures Walk(cfg, ip, [Check(cooling), Pool], parts, r)
      ensures |parts[0]| == 1 && parts[0][0].AddressCheck?
      ensures parts[0][0].gate == old(Look(health.ipFail, ip, health.now))
      ensures !health.shared ==> parts[0][0].cfDomains == (old(health.cfDomains) != [])
    {
      var gate := Look(health.ipFail, ip, health.now);
      health.Others();
      cooling := gate.Closed() && HasFallback(cfg, health.cfDomains != []);
      ghost var check := [AddressCheck(gate, health.cfDomains != [])];
      OneRung(cfg, ip, Check(cooling), check, None);
      ghost var s;
      r, s := TryPool();
      OneRung(cfg, ip, Pool, s, r);
      WalkOn(cfg, ip, [Check(cooling)], [check], [Pool], [s], r);
      parts := [check] + [s];
      assert [Check(cooling)] + [Pool] == [Check(cooling), Pool];
    }

    /** The part of the ladder that dials the configured address itself. */
    method SelectForTarget(ip: Ip)
      returns (r: Option<Upstream>, ghost parts: seq<seq<Step>>, ghost cooling: bool)
      requires !cfg.isTest && health.Valid()
      modifies health
      ensures health.Valid() && old(health.log) <= health.log && old(health.mine) <= health.mine
      ensures r != None && Walk(cfg, ip, Plan(cfg, true, cooling), parts, r)
      ensures !cfg.cfPriority ==>
        && |parts[0]| == 1 && parts[0][0].AddressCheck?
        && parts[0][0].gate == old(Look(health.ipFail, ip, health.now))
        && (!health.shared ==> parts[0][0].cfDomains == (old(health.cfDomains) != []))
    {
      ghost var done, more := CfFirst(cfg), [];
      parts := [];
      cooling := false;
      if cfg.cfPriority {
        r, parts := CfTiers(ip);
        if r != None {
          assert Plan(cfg, true, false) == [Workers, Cf] + Plan(cfg, true, false)[2..];
          WalkStops(cfg, ip, [Workers, Cf], parts, Plan(cfg, true, false)[2..], r);
          return;
        }
      }

      var ipCooling;
      r, more, ipCooling := LookAndPool(ip);
      cooling := ipCooling;
      ghost var plan := Plan(cfg, true, cooling);
      PlanCuts(cfg, cooling);
      Further(cfg, ip, done, parts, [Check(cooling), Pool], more, r, plan);
      done, parts := done + [Check(cooling), Pool], parts + more;
      if r != None {
        return;
      }

      if ipCooling {
        r, more := FallbackThenDirect(ip);
      } else {
        r, more := DirectThenFallback(ip);
      }
      Further(cfg, ip, done, parts, Foot(cfg, cooling), more, r, plan);
      parts := parts + more;
    }

    /** `select_upstream`: `None` only where there is no address at all. */
    method SelectUpstream(target: Option<Ip>)
      returns (r: Option<Upstream>, ghost parts: seq<seq<Step>>, ghost cooling: bool)
      requires health.Valid()
      modifies health
      ensures health.Valid() && old(health.log) <= health.log && old(health.mine) <= health.mine
      ensures r == None <==> Destination(cfg, target) == None
      ensures r == None <==> target == None && (cfg.isTest || cfg.fallbackIp == None)
      ensures r != None ==> Destination(cfg, target) == if target.Some? then target else cfg.fallbackIp
      ensures r == None ==> unchanged(health)
      ensures r != None ==> Walk(cfg, Destination(cfg, target).value, Plan(cfg, target.Some?, cooling), parts, r)
      ensures r != None && !cfg.isTest && target.Some? && !cfg.cfPriority ==>
        && |parts[0]| == 1 && parts[0][0].AddressCheck?
        && parts[0][0].gate == old(Look(health.ipFail, target.value, health.now))
        && (!health.shared ==> parts[0][0].cfDomains == (old(health.cfDomains) != []))
    {
      parts, cooling := [], false;
      if cfg.isTest {
        if target == None {
          return None, [], false;
        }
        r, parts := SelectForTest(target.value);
      } else if target == None {
        if cfg.fallbackIp == None {
          return None, [], false;
        }
        r, parts := SelectWithoutTarget(cfg.fallbackIp.value);
      } else {
        r, parts, cooling := SelectForTarget(target.value);
      }
    }
  }
}
