/**
 * The process-wide route health that every connection reads and writes: the
 * cooldown maps and balance counters of proxy.rs and the sticky fronting
 * window of runtime.rs.
 *
 * Connections run on several threads: between any two readings or writings of
 * one of them the others may act (`Health.Others`).
 */
module RouteHealth {
  import opened Wrappers

  type Ip = string

  const COUNTER_WRAP := 0x1_0000_0000_0000_0000

  datatype DcKey = DcKey(dc: nat, isMedia: bool)

  /** "Do not retry until" deadlines, as in `CooldownMap`. */
  type Cooldowns<!K> = map<K, nat>

  /** One reading of a cooldown map: the deadline on record, and when it was read. */
  datatype Gate = Gate(until: Option<nat>, at: nat) {
    predicate Closed() { until.Some? && at < until.value }
  }

  function Look<K>(m: Cooldowns<K>, key: K, now: nat): Gate
  {
    Gate(if key in m then Some(m[key]) else None, now)
  }

  /**
   * A cooldown of `d` set at `at` runs from there to `at + d` and no longer; clearing
   * ends it; and neither touches another key.
   */
  lemma CooldownRuns<K>(m: Cooldowns<K>, key: K, at: nat, d: nat, other: K, now: nat)
    requires other != key
    ensures Look(m[key := at + d], key, now).Closed() <==> now < at + d
    ensures !Look(m - {key}, key, now).Closed()
    ensures Look(m[key := at + d], other, now) == Look(m - {key}, other, now) == Look(m, other, now)
  {
  }

  /** How one direct WebSocket attempt ended. */
  datatype Attempt = Attempt(ok: bool, allRedirects: bool, connectTimedOut: bool, upgradeTimedOut: bool)

  /** A reading of the direct-path cooldown, and how much had happened by then. */
  datatype Glance = Glance(moment: nat, gate: Gate)

  /**
   * A direct attempt. The cooldown of its DC is read twice: `first` tells
   * whether the attempt counts as a probe, `second` chooses its time limit.
   */
  datatype Tried = Tried(ip: Ip, key: DcKey, fronted: bool, first: Glance, second: Glance, result: Attempt) {
    predicate Probing() { first.gate.Closed() }

    predicate Short() { second.gate.Closed() }
  }

  // ---------------------------------------------------------------- history

  datatype Change =
    | WsSet(key: DcKey, cooldown: nat)
    | WsClear(key: DcKey)
    | IpSet(why: Tried, cooldown: nat)
    | IpClear(why: Tried)
    | ProxySet(name: string, cooldown: nat)
    | ProxyClear(name: string)
    | WorkerSet(name: string, cooldown: nat)
    | WorkerClear(name: string)
    | FrontingSet(key: DcKey, cooldown: nat)
    | FrontingClear(key: DcKey)
    | StickyOn(cooldown: nat)
    | StickyOff
    | Domains(list: seq<string>)
    | Reset

  datatype Stamped = Stamped(change: Change, at: nat)

  function WsAfter(ws: Cooldowns<DcKey>, c: Change, at: nat): Cooldowns<DcKey>
  {
    match c
    case WsSet(key, cooldown) => ws[key := at + cooldown]
    case WsClear(key) => ws - {key}
    case Reset => map[]
    case _ => ws
  }

  /** The direct-path cooldowns a history leaves. */
  function WsAt(log: seq<Stamped>): Cooldowns<DcKey>
  {
    if log == [] then map[]
    else WsAfter(WsAt(log[..|log| - 1]), log[|log| - 1].change, log[|log| - 1].at)
  }

  function IpsAfter(ips: set<Ip>, c: Change): set<Ip>
  {
    match c
    case IpSet(why, _) => ips + {why.ip}
    case IpClear(why) => ips - {why.ip}
    case Reset => {}
    case _ => ips
  }

  /** The addresses that are on record after a history. */
  function OnRecord(log: seq<Stamped>): set<Ip>
  {
    if log == [] then {} else IpsAfter(OnRecord(log[..|log| - 1]), log[|log| - 1].change)
  }

  /** A glance saw what was on record at its moment. */
  predicate Honest(log: seq<Stamped>, key: DcKey, g: Glance)
  {
    g.moment <= |log| && g.gate == Look(WsAt(log[..g.moment]), key, g.gate.at)
  }

  predicate HonestTry(log: seq<Stamped>, t: Tried)
  {
    && Honest(log, t.key, t.first) && Honest(log, t.key, t.second)
    && t.first.moment <= t.second.moment && t.first.gate.at <= t.second.gate.at
  }

  /**
   * An address enters only by a connect timeout of an attempt whose first
   * glance found no cooldown, and leaves only by a plain direct success.
   */
  predicate Justified(log: seq<Stamped>, i: nat)
    requires i < |log|
  {
    match log[i].change
    case IpSet(why, _) => HonestTry(log[..i], why) && why.result.connectTimedOut && !why.Probing()
    case IpClear(why) => HonestTry(log[..i], why) && why.result.ok && !why.fronted
    case _ => true
  }

  predicate AllJustified(log: seq<Stamped>)
  {
    forall i :: 0 <= i < |log| ==> Justified(log, i)
  }

  predicate EnteredAt(log: seq<Stamped>, i: nat, ip: Ip)
    requires i < |log|
  {
    log[i].change.IpSet? && log[i].change.why.ip == ip
  }

  predicate LeavesAt(log: seq<Stamped>, j: nat, ip: Ip)
    requires j < |log|
  {
    log[j].change.Reset? || (log[j].change.IpClear? && log[j].change.why.ip == ip)
  }

  /** Some entry of `ip` was never followed by anything that takes it off. */
  ghost predicate StillIn(log: seq<Stamped>, ip: Ip)
  {
    exists i {:trigger EnteredAt(log, i, ip)} :: 0 <= i < |log| && EnteredAt(log, i, ip)
      && forall j {:trigger LeavesAt(log, j, ip)} :: i < j < |log| ==> !LeavesAt(log, j, ip)
  }

  /** The set kept step by step is exactly what the whole history says. */
  lemma {:induction false} OnRecordIffStillIn(log: seq<Stamped>, ip: Ip)
    ensures ip in OnRecord(log) <==> StillIn(log, ip)
  {
    if log != [] {
      var n := |log| - 1;
      var before := log[..n];
      OnRecordIffStillIn(before, ip);
      if EnteredAt(log, n, ip) {
        assert StillIn(log, ip);
      } else if LeavesAt(log, n, ip) {
        assert !StillIn(log, ip);
      } else if StillIn(before, ip) {
        var i :| 0 <= i < n && EnteredAt(before, i, ip)
          && forall j {:trigger LeavesAt(before, j, ip)} :: i < j < n ==> !LeavesAt(before, j, ip);
        assert EnteredAt(log, i, ip);
        forall j | i < j < |log|
          ensures !LeavesAt(log, j, ip)
        {
          assert j < n ==> !LeavesAt(before, j, ip);
        }
      } else if StillIn(log, ip) {
        var i :| 0 <= i < |log| && EnteredAt(log, i, ip)
          && forall j {:trigger LeavesAt(log, j, ip)} :: i < j < |log| ==> !LeavesAt(log, j, ip);
        assert EnteredAt(before, i, ip);
        forall j | i < j < n
          ensures !LeavesAt(before, j, ip)
        {
          assert !LeavesAt(log, j, ip);
        }
        assert StillIn(before, ip);
      }
    }
  }

  // ------------------------------------------------------ the two glances

  predicate Touches(c: Change, key: DcKey)
  {
    c.Reset? || (c.WsSet? && c.key == key) || (c.WsClear? && c.key == key)
  }

  /** At moment `j` of a history somebody put `key` into a cooldown that is still on record at moment `n`. */
  predicate SetAndStands(log: seq<Stamped>, j: nat, n: nat, key: DcKey)
    requires j < n <= |log|
  {
    && log[j].change.WsSet? && log[j].change.key == key
    && forall i {:trigger log[i]} :: j < i < n ==> !Touches(log[i].change, key)
  }

  /** Nothing of `key` changes while nobody touches it. */
  lemma {:induction false} Untouched(log: seq<Stamped>, m: nat, n: nat, key: DcKey)
    requires m <= n <= |log| && forall i :: m <= i < n ==> !Touches(log[i].change, key)
    ensures key in WsAt(log[..n]) <==> key in WsAt(log[..m])
    ensures key in WsAt(log[..n]) ==> WsAt(log[..n])[key] == WsAt(log[..m])[key]
    decreases n
  {
    if m < n {
      Untouched(log, m, n - 1, key);
      assert log[..n][..n - 1] == log[..n - 1] && log[..n][n - 1] == log[n - 1];
    }
  }

  lemma StandsOnRecord(log: seq<Stamped>, j: nat, n: nat, key: DcKey)
    requires j < n <= |log| && SetAndStands(log, j, n, key)
    ensures key in WsAt(log[..n]) && WsAt(log[..n])[key] == log[j].at + log[j].change.cooldown
  {
    assert log[..j + 1][..j] == log[..j] && log[..j + 1][j] == log[j];
    Untouched(log, j + 1, n, key);
  }

  /** The last to touch `key` between two moments. */
  lemma {:induction false} LastTouch(log: seq<Stamped>, m: nat, n: nat, key: DcKey) returns (j: nat)
    requires m <= n <= |log| && exists i :: m <= i < n && Touches(log[i].change, key)
    ensures m <= j < n && Touches(log[j].change, key) && forall i :: j < i < n ==> !Touches(log[i].change, key)
    decreases n
  {
    if Touches(log[n - 1].change, key) {
      j := n - 1;
    } else {
      j := LastTouch(log, m, n - 1, key);
    }
  }

  /** Between the two glances somebody put the DC of `t` into a cooldown that runs at the second. */
  ghost predicate SetBetween(log: seq<Stamped>, t: Tried)
    requires HonestTry(log, t)
  {
    exists j {:trigger log[j]} :: t.first.moment <= j < t.second.moment
      && SetAndStands(log, j, t.second.moment, t.key) && t.second.gate.at < log[j].at + log[j].change.cooldown
  }

  /**
   * An attempt that does not count as a probe is nevertheless made on the short
   * clock of a probe exactly when, between its two glances, another connection
   * put its DC into a cooldown that runs at the second one.
   */
  lemma ShortYetNotProbing(log: seq<Stamped>, t: Tried)
    requires HonestTry(log, t) && !t.Probing()
    ensures t.Short() <==> SetBetween(log, t)
  {
    var m, n, key := t.first.moment, t.second.moment, t.key;
    if t.Short() {
      if forall i :: m <= i < n ==> !Touches(log[i].change, key) {
        Untouched(log, m, n, key);
        assert false;
      }
      var j := LastTouch(log, m, n, key);
      assert log[..j + 1][..j] == log[..j] && log[..j + 1][j] == log[j];
      Untouched(log, j + 1, n, key);
      assert SetAndStands(log, j, n, key);
    } else if SetBetween(log, t) {
      var j :| m <= j < n && SetAndStands(log, j, n, key) && t.second.gate.at < log[j].at + log[j].change.cooldown;
      StandsOnRecord(log, j, n, key);
      assert false;
    }
  }

  lemma HonestLater(before: seq<Stamped>, log: seq<Stamped>, t: Tried)
    requires before <= log && HonestTry(before, t)
    ensures HonestTry(log, t)
  {
    assert log[..t.first.moment] == before[..t.first.moment];
    assert log[..t.second.moment] == before[..t.second.moment];
  }

  /** The same over whole runs: which entries were made on a short clock. */
  lemma ShortEntries(log: seq<Stamped>, i: nat)
    requires i < |log| && Justified(log, i) && log[i].change.IpSet?
    ensures HonestTry(log, log[i].change.why)
    ensures log[i].change.why.Short() <==> SetBetween(log, log[i].change.why)
  {
    HonestLater(log[..i], log, log[i].change.why);
    ShortYetNotProbing(log, log[i].change.why);
  }

  /**
   * And it happens: a connection finds no cooldown, another one sets it, the
   * first dials on the short clock, times out, and puts the address away.
   */
  lemma ShortEntryHappens(key: DcKey, ip: Ip) returns (log: seq<Stamped>, t: Tried)
    ensures AllJustified(log) && ip in OnRecord(log)
    ensures |log| == 2 && log[1].change == IpSet(t, 3600) && t.ip == ip && t.key == key
    ensures !t.Probing() && t.Short()
  {
    var put := Stamped(WsSet(key, 10), 0);
    var timedOut := Attempt(false, false, true, false);
    t := Tried(ip, key, false, Glance(0, Gate(None, 0)), Glance(1, Gate(Some(10), 0)), timedOut);
    log := [put, Stamped(IpSet(t, 3600), 5)];
    assert log[..1] == [put] && [put][..0] == [] && [put][..1] == [put];
    assert WsAt([put]) == WsAfter(WsAt([]), put.change, 0);
    assert HonestTry(log[..1], t);
    assert OnRecord(log) == IpsAfter(OnRecord(log[..1]), log[1].change);
  }

  lemma JustifiedOn(log: seq<Stamped>, e: Stamped)
    requires AllJustified(log) && Justified(log + [e], |log|)
    ensures AllJustified(log + [e])
  {
    forall i | 0 <= i < |log + [e]|
      ensures Justified(log + [e], i)
    {
      if i < |log| {
        assert Justified(log, i);
        assert (log + [e])[..i] == log[..i];
      }
    }
  }

  // ---------------------------------------------------------------- balance

  /** The `k`-th candidate of a walk over `n` domains that starts at `first`. */
  function Rotated(first: nat, k: nat, n: nat): (i: nat)
    requires n > 0
    ensures i < n
  {
    (first + k) % n
  }

  /** A walk begins at `first` and goes one further each time, round the end to the front. */
  lemma RotationSteps(first: nat, k: nat, n: nat)
    requires first < n && k + 1 < n
    ensures Rotated(first, 0, n) == first
    ensures Rotated(first, k + 1, n) == if Rotated(first, k, n) == n - 1 then 0 else Rotated(first, k, n) + 1
  {
    Wraps(first, n);
    Wraps(first + k, n);
    Wraps(first + k + 1, n);
  }

  lemma Wraps(a: nat, n: nat)
    requires n > 0
    ensures a < n ==> a % n == a
    ensures n <= a < n + n ==> a % n == a - n
  {
  }

  /** A full walk visits no domain twice. */
  lemma RotationOnce(first: nat, k: nat, m: nat, n: nat)
    requires first < n && k < m < n
    ensures Rotated(first, k, n) != Rotated(first, m, n)
  {
    Wraps(first + k, n);
    Wraps(first + m, n);
  }

  /** And it comes past every one. */
  lemma RotationFinds(first: nat, i: nat, n: nat) returns (k: nat)
    requires first < n && i < n
    ensures k < n && Rotated(first, k, n) == i
  {
    k := if i < first then i + n - first else i - first;
    Wraps(first + k, n);
  }

  // ----------------------------------------------------------------- health

  class Health {
    /** Whether other connections run at the same time. */
    const shared: bool
    var now: nat
    var wsFail: Cooldowns<DcKey>
    var ipFail: Cooldowns<Ip>
    var upstreamFail: Cooldowns<string>
    var workerFail: Cooldowns<string>
    var frontingFail: Cooldowns<DcKey>
    var frontingUntil: Option<nat>
    var cfDomains: seq<string>
    var cfCounter: nat
    var workerCounter: nat
    // Specification only: every change so far, and those of this connection.
    var log: seq<Stamped>
    var mine: seq<Change>

    constructor (shared: bool)
      ensures Valid() && log == [] && mine == [] && this.shared == shared
      ensures wsFail == frontingFail == map[] && ipFail == map[] && upstreamFail == workerFail == map[]
      ensures frontingUntil.None? && cfDomains == [] && cfCounter == workerCounter == 0
    {
      this.shared := shared;
      now, wsFail, ipFail, upstreamFail, workerFail, frontingFail := 0, map[], map[], map[], map[], map[];
      frontingUntil, cfDomains, cfCounter, workerCounter, log, mine := None, [], 0, 0, [], [];
    }

    /**
     * The direct-path cooldowns and the cooling addresses are exactly those the
     * history accounts for, and every change of the latter was justified.
     */
    ghost predicate Valid()
      reads this
    {
      && wsFail == WsAt(log) && ipFail.Keys == OnRecord(log)
      && AllJustified(log)
    }

    /** Why an address is on record: an attempt that did not count as a probe timed out, and nothing has revoked it. */
    lemma CoolingMeans(ip: Ip)
      requires Valid()
      ensures ip in ipFail <==> StillIn(log, ip)
      ensures ip in ipFail ==>
        exists i {:trigger EnteredAt(log, i, ip)} :: 0 <= i < |log| && EnteredAt(log, i, ip)
          && log[i].change.why.result.connectTimedOut && !log[i].change.why.Probing()
          && HonestTry(log, log[i].change.why)
          && (log[i].change.why.Short() <==> SetBetween(log, log[i].change.why))
    {
      OnRecordIffStillIn(log, ip);
      if ip in ipFail {
        var i :| 0 <= i < |log| && EnteredAt(log, i, ip);
        assert Justified(log, i);
        ShortEntries(log, i);
      }
    }

    /** This connection, and nobody else, made one change, now. */
    twostate predicate Did(c: Change)
      reads this
    {
      now == old(now) && mine == old(mine) + [c] && log == old(log) + [Stamped(c, now)]
    }

    /** Writes down a change of this connection. */
    method Note(c: Change)
      requires AllJustified(log) && Justified(log + [Stamped(c, now)], |log|)
      modifies this`log, this`mine
      ensures Did(c) && AllJustified(log)
      ensures WsAt(log) == WsAfter(WsAt(old(log)), c, now) && OnRecord(log) == IpsAfter(OnRecord(old(log)), c)
    {
      JustifiedOn(log, Stamped(c, now));
      assert (log + [Stamped(c, now)])[..|log|] == log;
      log, mine := log + [Stamped(c, now)], mine + [c];
    }

    method SetWs(key: DcKey, cooldown: nat)
      requires Valid()
      modifies this`wsFail, this`log, this`mine
      ensures Valid() && Did(WsSet(key, cooldown)) && wsFail == old(wsFail)[key := now + cooldown]
    {
      wsFail := wsFail[key := now + cooldown];
      Note(WsSet(key, cooldown));
    }

    method ClearWs(key: DcKey)
      requires Valid()
      modifies this`wsFail, this`log, this`mine
      ensures Valid() && Did(WsClear(key)) && wsFail == old(wsFail) - {key}
    {
      wsFail := wsFail - {key};
      Note(WsClear(key));
    }

    method SetUpstream(name: string, cooldown: nat)
      requires Valid()
      modifies this`upstreamFail, this`log, this`mine
      ensures Valid() && Did(ProxySet(name, cooldown)) && upstreamFail == old(upstreamFail)[name := now + cooldown]
    {
      upstreamFail := upstreamFail[name := now + cooldown];
      Note(ProxySet(name, cooldown));
    }

    method ClearUpstream(name: string)
      requires Valid()
      modifies this`upstreamFail, this`log, this`mine
      ensures Valid() && Did(ProxyClear(name)) && upstreamFail == old(upstreamFail) - {name}
    {
      upstreamFail := upstreamFail - {name};
      Note(ProxyClear(name));
    }

    method SetWorker(name: string, cooldown: nat)
      requires Valid()
      modifies this`workerFail, this`log, this`mine
      ensures Valid() && Did(WorkerSet(name, cooldown)) && workerFail == old(workerFail)[name := now + cooldown]
    {
      workerFail := workerFail[name := now + cooldown];
      Note(WorkerSet(name, cooldown));
    }

    method ClearWorker(name: string)
      requires Valid()
      modifies this`workerFail, this`log, this`mine
      ensures Valid() && Did(WorkerClear(name)) && workerFail == old(workerFail) - {name}
    {
      workerFail := workerFail - {name};
      Note(WorkerClear(name));
    }

    method SetFrontingFail(key: DcKey, cooldown: nat)
      requires Valid()
      modifies this`frontingFail, this`log, this`mine
      ensures Valid() && Did(FrontingSet(key, cooldown)) && frontingFail == old(frontingFail)[key := now + cooldown]
    {
      frontingFail := frontingFail[key := now + cooldown];
      Note(FrontingSet(key, cooldown));
    }

    method ClearFrontingFail(key: DcKey)
      requires Valid()
      modifies this`frontingFail, this`log, this`mine
      ensures Valid() && Did(FrontingClear(key)) && frontingFail == old(frontingFail) - {key}
    {
      frontingFail := frontingFail - {key};
      Note(FrontingClear(key));
    }

    /** `cool_down_ip`. */
    method CoolDownIp(why: Tried, cooldown: nat)
      requires Valid() && HonestTry(log, why) && why.result.connectTimedOut && !why.Probing()
      modifies this`ipFail, this`log, this`mine
      ensures Valid() && Did(IpSet(why, cooldown)) && ipFail == old(ipFail)[why.ip := now + cooldown]
    {
      assert (log + [Stamped(IpSet(why, cooldown), now)])[..|log|] == log;
      ipFail := ipFail[why.ip := now + cooldown];
      Note(IpSet(why, cooldown));
    }

    method ClearIp(why: Tried)
      requires Valid() && HonestTry(log, why) && why.result.ok && !why.fronted
      modifies this`ipFail, this`log, this`mine
      ensures Valid() && Did(IpClear(why)) && ipFail == old(ipFail) - {why.ip}
    {
      assert (log + [Stamped(IpClear(why), now)])[..|log|] == log;
      ipFail := ipFail - {why.ip};
      Note(IpClear(why));
    }

    /** `fronting_active`. */
    predicate FrontingActive()
      reads this
    {
      frontingUntil.Some? && now < frontingUntil.value
    }

    method ActivateFronting(cooldown: nat)
      requires Valid()
      modifies this`frontingUntil, this`log, this`mine
      ensures Valid() && Did(StickyOn(cooldown))
      ensures frontingUntil == Some(now + cooldown) && (FrontingActive() <==> cooldown > 0)
    {
      frontingUntil := Some(now + cooldown);
      Note(StickyOn(cooldown));
    }

    method DeactivateFronting()
      requires Valid()
      modifies this`frontingUntil, this`log, this`mine
      ensures Valid() && Did(StickyOff) && frontingUntil == None && !FrontingActive()
    {
      frontingUntil := None;
      Note(StickyOff);
    }

    /** `replace_cf_domains`. */
    method ReplaceDomains(list: seq<string>)
      requires Valid()
      modifies this`cfDomains, this`log, this`mine
      ensures Valid() && Did(Domains(list)) && cfDomains == list
    {
      cfDomains := list;
      Note(Domains(list));
    }

    /** `reset_route_health`. */
    method ResetRouteHealth()
      requires Valid()
      modifies this`wsFail, this`ipFail, this`upstreamFail, this`workerFail, this`frontingFail
      modifies this`cfCounter, this`workerCounter, this`log, this`mine
      ensures Valid() && Did(Reset) && cfCounter == 0 && workerCounter == 0
      ensures wsFail == map[] && ipFail == map[] && upstreamFail == map[] && workerFail == map[]
        && frontingFail == map[]
    {
      wsFail, ipFail, upstreamFail, workerFail, frontingFail := map[], map[], map[], map[], map[];
      cfCounter, workerCounter := 0, 0;
      Note(Reset);
    }

    /** `balance_offset` on the Worker counter. */
    method WorkerOffset(n: nat, enabled: bool) returns (first: nat)
      modifies this`workerCounter
      ensures n > 0 ==> first < n
      ensures !enabled || n <= 1 ==> first == 0 && workerCounter == old(workerCounter)
      ensures enabled && n > 1 ==>
        && first == old(workerCounter) % n
        && workerCounter == (old(workerCounter) + 1) % COUNTER_WRAP
    {
      if !enabled || n <= 1 {
        return 0;
      }
      first := workerCounter % n;
      workerCounter := (workerCounter + 1) % COUNTER_WRAP;
    }

    /** `balance_offset` on the Cloudflare proxy counter. */
    method CfOffset(n: nat, enabled: bool) returns (first: nat)
      modifies this`cfCounter
      ensures n > 0 ==> first < n
      ensures !enabled || n <= 1 ==> first == 0 && cfCounter == old(cfCounter)
      ensures enabled && n > 1 ==> first == old(cfCounter) % n && cfCounter == (old(cfCounter) + 1) % COUNTER_WRAP
    {
      if !enabled || n <= 1 {
        return 0;
      }
      first := cfCounter % n;
      cfCounter := (cfCounter + 1) % COUNTER_WRAP;
    }

    /** A glance at the direct-path cooldown of `key`. */
    method GlanceAt(key: DcKey) returns (g: Glance)
      requires Valid()
      ensures g == Glance(|log|, Look(wsFail, key, now)) && Honest(log, key, g)
    {
      g := Glance(|log|, Look(wsFail, key, now));
      assert log[..|log|] == log;
    }

    /** Time passes while a connection waits. */
    method Elapse()
      requires Valid()
      modifies this`now
      ensures Valid() && now >= old(now)
    {
      var passed: nat :| true;
      now := now + passed;
    }

    /** Time passes, and other connections do any number of the things they can do. */
    method Others()
      requires Valid()
      modifies this
      ensures Valid() && now >= old(now) && old(log) <= log && mine == old(mine)
      ensures !shared ==> unchanged(this)
    {
      if !shared {
        return;
      }
      var steps: nat :| true;
      for i := 0 to steps
        invariant Valid() && now >= old(now) && old(log) <= log && mine == old(mine)
      {
        OtherStep();
      }
    }

    /** The same, while a connection remembers an attempt. */
    method OthersDuring(t: Tried)
      requires Valid() && HonestTry(log, t)
      modifies this
      ensures Valid() && now >= old(now) && old(log) <= log && mine == old(mine) && HonestTry(log, t)
      ensures !shared ==> unchanged(this)
    {
      Others();
      HonestLater(old(log), log, t);
    }

    method OtherStep()
      requires Valid()
      modifies this
      ensures Valid() && now >= old(now) && old(log) <= log && mine == old(mine)
    {
      var ours := mine;
      var kind: nat, number: nat :| true;
      if kind == 0 {
        OtherDirect(number);
      } else if kind == 1 {
        OtherTier(number);
      } else if kind == 2 {
        OtherFronting(number);
      } else if kind == 3 {
        OtherAddress(number);
      } else if kind == 4 {
        ResetRouteHealth();
      } else if kind == 5 {
        var list: seq<string> :| true;
        ReplaceDomains(list);
      } else if kind == 6 {
        var first := WorkerOffset(number, true);
      } else if kind == 7 {
        var first := CfOffset(number, true);
      } else {
        now := now + number;
      }
      mine := ours;
    }

    method OtherDirect(cooldown: nat)
      requires Valid()
      modifies this
      ensures Valid() && now >= old(now) && old(log) <= log
    {
      var key: DcKey, sets: bool :| true;
      if sets {
        SetWs(key, cooldown);
      } else {
        ClearWs(key);
      }
    }

    method OtherTier(cooldown: nat)
      requires Valid()
      modifies this
      ensures Valid() && now >= old(now) && old(log) <= log
    {
      var name: string, worker: bool, sets: bool :| true;
      if worker && sets {
        SetWorker(name, cooldown);
      } else if worker {
        ClearWorker(name);
      } else if sets {
        SetUpstream(name, cooldown);
      } else {
        ClearUpstream(name);
      }
    }

    method OtherFronting(cooldown: nat)
      requires Valid()
      modifies this
      ensures Valid() && now >= old(now) && old(log) <= log
    {
      var key: DcKey, sticky: bool, sets: bool :| true;
      if sticky && sets {
        ActivateFronting(cooldown);
      } else if sticky {
        DeactivateFronting();
      } else if sets {
        SetFrontingFail(key, cooldown);
      } else {
        ClearFrontingFail(key);
      }
    }

    /** Another connection puts an address away or takes it back, after two glances of its own. */
    method OtherAddress(cooldown: nat)
      requires Valid()
      modifies this`ipFail, this`log, this`mine
      ensures Valid() && old(log) <= log
    {
      var t: Tried :| true;
      if HonestTry(log, t) {
        if t.result.connectTimedOut && !t.Probing() {
          CoolDownIp(t, cooldown);
        } else if t.result.ok && !t.fronted {
          ClearIp(t);
        }
      }
    }
  }
}
