/**
 * The walk over the Cloudflare records of one DC (ws_client.rs): every
 * configured domain has a base record and an optional `-1` record, and a `-1`
 * record that is missing from DNS buys its base record one more attempt.
 *
 * `Attempts` is the walk over a given list of turns; `CfAttempts` keeps the
 * source's counters and is proved to walk exactly that way.
 */
module CfRecords {
  import opened Wrappers

  import RouteHealth
  import opened Text

  datatype Record = Base | DashOne

  /** How one attempt ends. */
  datatype Outcome = Connected | Redirected | Missing | Failed | TimedOut

  /** The record of domain `index` that is up next. */
  datatype Turn = Turn(index: nat, record: Record)

  datatype Attempt = Attempt(turn: Turn, forced: bool, outcome: Outcome)

  /** Media DCs prefer the `-1` record. */
  function Lead(isMedia: bool): Record { if isMedia then DashOne else Base }

  function Second(isMedia: bool): Record { if isMedia then Base else DashOne }

  // ------------------------------------------------------------- the order

  /** The domain at place `l` of the rotation. */
  function At(domains: seq<string>, first: nat, l: nat): (i: nat)
    requires domains != []
    ensures i < |domains|
  {
    RouteHealth.Rotated(first, l, |domains|)
  }

  /** The name at `l` has come up before in the rotation. */
  predicate Repeated(domains: seq<string>, first: nat, l: nat)
    requires l < |domains|
  {
    exists m :: 0 <= m < l && domains[At(domains, first, m)] == domains[At(domains, first, l)]
  }

  /** The domains from place `l` of the rotation on, each name once. */
  function Order(domains: seq<string>, first: nat, l: nat): seq<nat>
    requires l <= |domains|
    decreases |domains| - l
  {
    if l == |domains| then []
    else if Repeated(domains, first, l) then Order(domains, first, l + 1)
    else [At(domains, first, l)] + Order(domains, first, l + 1)
  }

  /** Two turns for each domain. */
  function Turns(isMedia: bool, order: seq<nat>): seq<Turn>
  {
    if order == [] then []
    else [Turn(order[0], Lead(isMedia)), Turn(order[0], Second(isMedia))] + Turns(isMedia, order[1..])
  }

  // -------------------------------------------------------------- the walk

  /** A missing `-1` record queues its base record, unless that has timed out already. */
  predicate Retries(a: Attempt, late: set<nat>)
  {
    a.turn.record.DashOne? && a.outcome.Missing? && a.turn.index !in late
  }

  /** The base records that have timed out. */
  function Late(late: set<nat>, a: Attempt): set<nat>
  {
    if a.turn.record.Base? && a.outcome.TimedOut? then late + {a.turn.index} else late
  }

  /** The walk: `forced` is a queued base record, `k` the number of attempts made before. */
  function Attempts(
    forced: Option<nat>, turns: seq<Turn>, late: set<nat>, outcomes: nat -> Outcome, k: nat): seq<Attempt>
    decreases |turns|, if forced.Some? then 1 else 0
  {
    if forced.Some? then
      var a := Attempt(Turn(forced.value, Base), true, outcomes(k));
      [a] + (if a.outcome.Connected? then [] else Attempts(None, turns, Late(late, a), outcomes, k + 1))
    else if turns == [] then []
    else
      var a := Attempt(turns[0], false, outcomes(k));
      var queued := if Retries(a, late) then Some(a.turn.index) else None;
      [a] + (if a.outcome.Connected? then [] else Attempts(queued, turns[1..], Late(late, a), outcomes, k + 1))
  }

  /** Nothing is queued when a domain's turns begin. */
  function Walked(isMedia: bool, order: seq<nat>, late: set<nat>, outcomes: nat -> Outcome, k: nat): seq<Attempt>
  {
    Attempts(None, Turns(isMedia, order), late, outcomes, k)
  }

  /**
   * What happens at one domain. Media: the `-1` record, its base record at once
   * if that is missing, the base record in its turn. Otherwise: the base record,
   * the `-1` record, and the base record again if the `-1` record is missing and
   * the base record has not timed out.
   */
  predicate AtDomain(isMedia: bool, i: nat, b: seq<Attempt>, ok: bool)
  {
    && 1 <= |b| <= 3 && b[|b| - 1].outcome.Connected? == ok
    && (forall x :: 0 <= x < |b| - 1 ==> !b[x].outcome.Connected?)
    && b[0].turn == Turn(i, if isMedia then DashOne else Base) && !b[0].forced
    && (if isMedia then
          && (|b| > 1 ==> b[1].turn == Turn(i, Base) && b[1].forced == b[0].outcome.Missing?)
          && (|b| > 2 ==> b[0].outcome.Missing? && b[2].turn == Turn(i, Base) && !b[2].forced)
          && (!ok ==> |b| == if b[0].outcome.Missing? then 3 else 2)
        else
          && (|b| > 1 ==> b[1].turn == Turn(i, DashOne) && !b[1].forced)
          && (|b| > 2 ==> b[1].outcome.Missing? && !b[0].outcome.TimedOut? && b[2].turn == Turn(i, Base) && b[2].forced)
          && (!ok ==> |b| > 1 && |b| == if b[1].outcome.Missing? && !b[0].outcome.TimedOut? then 3 else 2))
  }

  /** One turn of the walk, with what it queues. */
  lemma TakeTurn(turns: seq<Turn>, late: set<nat>, outcomes: nat -> Outcome, k: nat)
    requires turns != []
    ensures var a := Attempt(turns[0], false, outcomes(k));
      Attempts(None, turns, late, outcomes, k)
      == [a] + (if a.outcome.Connected? then []
                else Attempts(if Retries(a, late) then Some(a.turn.index) else None, turns[1..], Late(late, a),
                              outcomes, k + 1))
  {
  }

  /** A forced attempt, between two turns. */
  lemma TakeForced(i: nat, turns: seq<Turn>, late: set<nat>, outcomes: nat -> Outcome, k: nat)
    ensures var a := Attempt(Turn(i, Base), true, outcomes(k));
      Attempts(Some(i), turns, late, outcomes, k)
      == [a] + (if a.outcome.Connected? then [] else Attempts(None, turns, Late(late, a), outcomes, k + 1))
  {
  }

  /** What is left of the walk behind some attempts. */
  function Then(ok: bool, rest: seq<Turn>, late: set<nat>, outcomes: nat -> Outcome, k: nat): seq<Attempt>
  {
    if ok then [] else Attempts(None, rest, late, outcomes, k)
  }

  /** One turn at a domain that queues nothing. */
  lemma OneTurn(i: nat, record: Record, rest: seq<Turn>, late: set<nat>, outcomes: nat -> Outcome, k: nat)
    returns (b: seq<Attempt>, ok: bool, later: set<nat>)
    requires record.Base? || i in late || outcomes(k) != Missing
    ensures b == [Attempt(Turn(i, record), false, outcomes(k))] && ok == outcomes(k).Connected? && later <= late + {i}
    ensures i in later <==> i in late || (record.Base? && outcomes(k).TimedOut?)
    ensures Attempts(None, [Turn(i, record)] + rest, late, outcomes, k)
      == b + Then(ok, rest, later, outcomes, k + 1)
  {
    var turns := [Turn(i, record)] + rest;
    assert turns[1..] == rest;
    TakeTurn(turns, late, outcomes, k);
    b := [Attempt(Turn(i, record), false, outcomes(k))];
    ok, later := outcomes(k).Connected?, Late(late, b[0]);
  }

  /** And one that queues the base record. */
  lemma TurnRetried(i: nat, rest: seq<Turn>, late: set<nat>, outcomes: nat -> Outcome, k: nat)
    returns (b: seq<Attempt>, ok: bool, later: set<nat>)
    requires i !in late && outcomes(k) == Missing
    ensures b == [Attempt(Turn(i, DashOne), false, Missing), Attempt(Turn(i, Base), true, outcomes(k + 1))]
    ensures ok == outcomes(k + 1).Connected? && later <= late + {i}
    ensures Attempts(None, [Turn(i, DashOne)] + rest, late, outcomes, k)
      == b + Then(ok, rest, later, outcomes, k + 2)
  {
    var turns := [Turn(i, DashOne)] + rest;
    assert turns[1..] == rest;
    TakeTurn(turns, late, outcomes, k);
    TakeForced(i, rest, late, outcomes, k + 1);
    var a, f := Attempt(Turn(i, DashOne), false, Missing), Attempt(Turn(i, Base), true, outcomes(k + 1));
    b, ok, later := [a, f], f.outcome.Connected?, Late(late, f);
    Chained(Attempts(None, turns, late, outcomes, k), [a], Attempts(Some(i), rest, late, outcomes, k + 1), [f],
            Then(ok, rest, later, outcomes, k + 2));
  }

  lemma Chained(whole: seq<Attempt>, a: seq<Attempt>, middle: seq<Attempt>, b: seq<Attempt>, tail: seq<Attempt>)
    requires whole == a + middle && middle == b + tail
    ensures whole == (a + b) + tail
  {
  }

  lemma MediaDomain(i: nat, rest: seq<Turn>, late: set<nat>, outcomes: nat -> Outcome, k: nat)
    returns (b: seq<Attempt>, ok: bool, later: set<nat>)
    requires i !in late
    ensures AtDomain(true, i, b, ok) && later <= late + {i}
    ensures Attempts(None, [Turn(i, DashOne)] + ([Turn(i, Base)] + rest), late, outcomes, k)
      == b + Then(ok, rest, later, outcomes, k + |b|)
  {
    var base := [Turn(i, Base)] + rest;
    var whole := Attempts(None, [Turn(i, DashOne)] + base, late, outcomes, k);
    var a, found, soFar;
    if outcomes(k).Missing? {
      a, found, soFar := TurnRetried(i, base, late, outcomes, k);
    } else {
      a, found, soFar := OneTurn(i, DashOne, base, late, outcomes, k);
    }
    if found {
      return a, true, soFar;
    }
    var c;
    c, ok, later := OneTurn(i, Base, rest, soFar, outcomes, k + |a|);
    Chained(whole, a, Then(found, base, soFar, outcomes, k + |a|), c, Then(ok, rest, later, outcomes, k + |a| + 1));
    b := a + c;
  }

  lemma PlainPieces(i: nat, a: seq<Attempt>, c: seq<Attempt>, ok: bool)
    requires |a| == 1 && a[0].turn == Turn(i, Base) && !a[0].forced && !a[0].outcome.Connected?
    requires 1 <= |c| <= 2 && c[0].turn == Turn(i, DashOne) && !c[0].forced && c[|c| - 1].outcome.Connected? == ok
    requires |c| == 2 ==> !c[0].outcome.Connected? && c[1].turn == Turn(i, Base) && c[1].forced
    requires |c| == 2 <==> c[0].outcome.Missing? && !a[0].outcome.TimedOut?
    ensures AtDomain(false, i, a + c, ok)
  {
    var b := a + c;
    assert b[0] == a[0] && b[1] == c[0] && (|c| == 2 ==> b[2] == c[1]);
  }

  lemma PlainSecond(i: nat, rest: seq<Turn>, late: set<nat>, outcomes: nat -> Outcome, k: nat)
    returns (c: seq<Attempt>, ok: bool, later: set<nat>)
    ensures 1 <= |c| <= 2 && c[0] == Attempt(Turn(i, DashOne), false, outcomes(k)) && later <= late + {i}
    ensures c[|c| - 1].outcome.Connected? == ok
    ensures |c| == 2 ==> !c[0].outcome.Connected? && c[1].turn == Turn(i, Base) && c[1].forced
    ensures |c| == 2 <==> c[0].outcome.Missing? && i !in late
    ensures Attempts(None, [Turn(i, DashOne)] + rest, late, outcomes, k) == c + Then(ok, rest, later, outcomes, k + |c|)
  {
    if outcomes(k).Missing? && i !in late {
      c, ok, later := TurnRetried(i, rest, late, outcomes, k);
    } else {
      c, ok, later := OneTurn(i, DashOne, rest, late, outcomes, k);
    }
  }

  lemma PlainJoined(
      i: nat, a: seq<Attempt>, c: seq<Attempt>, ok: bool, whole: seq<Attempt>, middle: seq<Attempt>, tail: seq<Attempt>)
    requires |a| == 1 && a[0].turn == Turn(i, Base) && !a[0].forced && !a[0].outcome.Connected?
    requires 1 <= |c| <= 2 && c[0].turn == Turn(i, DashOne) && !c[0].forced && c[|c| - 1].outcome.Connected? == ok
    requires |c| == 2 ==> !c[0].outcome.Connected? && c[1].turn == Turn(i, Base) && c[1].forced
    requires |c| == 2 <==> c[0].outcome.Missing? && !a[0].outcome.TimedOut?
    requires whole == a + middle && middle == c + tail
    ensures AtDomain(false, i, a + c, ok) && whole == (a + c) + tail && |a + c| == 1 + |c|
  {
    PlainPieces(i, a, c, ok);
    Chained(whole, a, middle, c, tail);
  }

  /** The turns of a domain whose base record did not connect, put together. */
  lemma PlainBoth(
      i: nat, a: Attempt, dashOne: seq<Turn>, rest: seq<Turn>, late: set<nat>, soFar: set<nat>,
      outcomes: nat -> Outcome, k: nat)
    returns (b: seq<Attempt>, ok: bool, later: set<nat>)
    requires a.turn == Turn(i, Base) && !a.forced && !a.outcome.Connected?
    requires (i in soFar <==> a.outcome.TimedOut?) && soFar <= late + {i} && dashOne == [Turn(i, DashOne)] + rest
    ensures AtDomain(false, i, b, ok) && later <= late + {i}
    ensures [a] + Attempts(None, dashOne, soFar, outcomes, k + 1) == b + Then(ok, rest, later, outcomes, k + |b|)
  {
    var c;
    c, ok, later := PlainSecond(i, rest, soFar, outcomes, k + 1);
    b := [a] + c;
    var middle, tail := Attempts(None, dashOne, soFar, outcomes, k + 1), Then(ok, rest, later, outcomes, k + |b|);
    assert k + |b| == k + 1 + |c|;
    PlainJoined(i, [a], c, ok, [a] + middle, middle, tail);
  }

  lemma PlainDomain(i: nat, rest: seq<Turn>, late: set<nat>, outcomes: nat -> Outcome, k: nat)
    returns (b: seq<Attempt>, ok: bool, later: set<nat>)
    requires i !in late
    ensures AtDomain(false, i, b, ok) && later <= late + {i}
    ensures Attempts(None, [Turn(i, Base)] + ([Turn(i, DashOne)] + rest), late, outcomes, k)
      == b + Then(ok, rest, later, outcomes, k + |b|)
  {
    var dashOne := [Turn(i, DashOne)] + rest;
    var a, found, soFar := OneTurn(i, Base, dashOne, late, outcomes, k);
    if found {
      b, ok, later := a, true, soFar;
    } else {
      b, ok, later := PlainBoth(i, a[0], dashOne, rest, late, soFar, outcomes, k);
    }
  }

  /** The walk, one domain after the other. */
  lemma OneDomain(isMedia: bool, order: seq<nat>, late: set<nat>, outcomes: nat -> Outcome, k: nat)
    returns (b: seq<Attempt>, ok: bool, later: set<nat>)
    requires order != [] && order[0] !in late
    ensures AtDomain(isMedia, order[0], b, ok) && later <= late + {order[0]}
    ensures Walked(isMedia, order, late, outcomes, k)
      == b + (if ok then [] else Walked(isMedia, order[1..], later, outcomes, k + |b|))
  {
    var i, rest := order[0], Turns(isMedia, order[1..]);
    assert Turns(isMedia, order) == [Turn(i, Lead(isMedia))] + ([Turn(i, Second(isMedia))] + rest);
    if isMedia {
      b, ok, later := MediaDomain(i, rest, late, outcomes, k);
    } else {
      b, ok, later := PlainDomain(i, rest, late, outcomes, k);
    }
  }

  // ------------------------------------------------------- what it promises

  /** Every domain comes up once, and none of them has been tried. */
  predicate Untried(order: seq<nat>, late: set<nat>)
  {
    && (forall x :: 0 <= x < |order| ==> order[x] !in late)
    && forall x, y :: 0 <= x < y < |order| ==> order[x] != order[y]
  }

  lemma UntriedRest(order: seq<nat>, late: set<nat>, later: set<nat>)
    requires order != [] && Untried(order, late) && later <= late + {order[0]}
    ensures Untried(order[1..], later)
  {
    forall x | 0 <= x < |order[1..]|
      ensures order[1..][x] !in later
    {
      assert order[1..][x] == order[x + 1] != order[0];
    }
  }

  /** Attempts are made at the domains of the order only. */
  lemma {:induction false} OnlyThere(
      isMedia: bool, order: seq<nat>, late: set<nat>, outcomes: nat -> Outcome, k: nat, x: nat)
    requires Untried(order, late) && x < |Walked(isMedia, order, late, outcomes, k)|
    ensures Walked(isMedia, order, late, outcomes, k)[x].turn.index in order
    decreases |order|
  {
    var b, ok, later := OneDomain(isMedia, order, late, outcomes, k);
    if x >= |b| {
      UntriedRest(order, late, later);
      OnlyThere(isMedia, order[1..], later, outcomes, k + |b|, x - |b|);
    }
  }

  predicate OnceOrForced(t: seq<Attempt>, x: nat, y: nat)
    requires x < y < |t|
  {
    t[x].turn == t[y].turn ==> t[x].turn.record.Base? && t[x].forced != t[y].forced
  }

  /** No record gets a second attempt, but for a base record: one of its two is a forced one. */
  lemma {:induction false} TriedOnce(
      isMedia: bool, order: seq<nat>, late: set<nat>, outcomes: nat -> Outcome, k: nat, x: nat, y: nat)
    requires Untried(order, late) && x < y < |Walked(isMedia, order, late, outcomes, k)|
    ensures OnceOrForced(Walked(isMedia, order, late, outcomes, k), x, y)
    decreases |order|
  {
    var b, ok, later := OneDomain(isMedia, order, late, outcomes, k);
    var rest := if ok then [] else Walked(isMedia, order[1..], later, outcomes, k + |b|);
    UntriedRest(order, late, later);
    if x >= |b| {
      TriedOnce(isMedia, order[1..], later, outcomes, k + |b|, x - |b|, y - |b|);
    } else if y >= |b| {
      OnlyThere(isMedia, order[1..], later, outcomes, k + |b|, y - |b|);
    }
    OnceAtDomain(isMedia, order[0], b, ok, rest, x, y);
  }

  lemma OnceAtDomain(isMedia: bool, i: nat, b: seq<Attempt>, ok: bool, rest: seq<Attempt>, x: nat, y: nat)
    requires AtDomain(isMedia, i, b, ok) && x < y < |b + rest|
    requires x >= |b| ==> OnceOrForced(rest, x - |b|, y - |b|)
    requires x < |b| <= y ==> rest[y - |b|].turn.index != i
    ensures OnceOrForced(b + rest, x, y)
  {
  }

  /** Some attempt after `x` is made at the same record. */
  predicate Again(t: seq<Attempt>, x: nat)
    requires x < |t|
  {
    exists y :: x < y < |t| && t[y].turn == t[x].turn
  }

  lemma AgainInside(b: seq<Attempt>, rest: seq<Attempt>, x: nat)
    requires x < |b| && forall y :: 0 <= y < |rest| ==> rest[y].turn != b[x].turn
    ensures Again(b + rest, x) <==> Again(b, x)
  {
    if Again(b, x) {
      var y :| x < y < |b| && b[y].turn == b[x].turn;
      assert (b + rest)[y].turn == (b + rest)[x].turn;
    }
    if Again(b + rest, x) {
      var y :| x < y < |b + rest| && (b + rest)[y].turn == (b + rest)[x].turn;
      if y < |b| {
        assert b[y].turn == b[x].turn;
      } else {
        assert false;
      }
    }
  }

  lemma AgainLater(b: seq<Attempt>, rest: seq<Attempt>, x: nat)
    requires x < |rest|
    ensures Again(b + rest, |b| + x) <==> Again(rest, x)
  {
    var t := b + rest;
    if Again(rest, x) {
      var y :| x < y < |rest| && rest[y].turn == rest[x].turn;
      assert t[|b| + y].turn == t[|b| + x].turn;
    }
    if Again(t, |b| + x) {
      var y :| |b| + x < y < |t| && t[y].turn == t[|b| + x].turn;
      assert rest[y - |b|].turn == rest[x].turn;
    }
  }

  /** Whatever the domains behind are walked for, it is not this one. */
  lemma NotBehind(
      isMedia: bool, order: seq<nat>, late: set<nat>, outcomes: nat -> Outcome, k: nat, turn: Turn, ok: bool)
    requires Untried(order, late) && turn.index !in order
    ensures var rest := if ok then [] else Walked(isMedia, order, late, outcomes, k);
      forall y :: 0 <= y < |rest| ==> rest[y].turn != turn
  {
    var rest := Walked(isMedia, order, late, outcomes, k);
    forall y | 0 <= y < |rest|
      ensures rest[y].turn != turn
    {
      OnlyThere(isMedia, order, late, outcomes, k, y);
    }
  }

  /**
   * A record that ran out the clock gets another attempt in exactly one case:
   * for a media DC, when it was the forced attempt that ran out the clock.
   */
  lemma {:induction false} LateAgainExactlyWhen(
      isMedia: bool, order: seq<nat>, late: set<nat>, outcomes: nat -> Outcome, k: nat, x: nat)
    requires Untried(order, late) && x < |Walked(isMedia, order, late, outcomes, k)|
    requires Walked(isMedia, order, late, outcomes, k)[x].outcome.TimedOut?
    ensures var t := Walked(isMedia, order, late, outcomes, k); Again(t, x) <==> isMedia && t[x].forced
    decreases |order|
  {
    var t := Walked(isMedia, order, late, outcomes, k);
    var b, ok, later := OneDomain(isMedia, order, late, outcomes, k);
    var rest := if ok then [] else Walked(isMedia, order[1..], later, outcomes, k + |b|);
    UntriedRest(order, late, later);
    if x < |b| {
      NotBehind(isMedia, order[1..], later, outcomes, k + |b|, b[x].turn, ok);
      AgainInside(b, rest, x);
      LateAtDomain(isMedia, order[0], b, ok, x);
    } else {
      LateAgainExactlyWhen(isMedia, order[1..], later, outcomes, k + |b|, x - |b|);
      AgainLater(b, rest, x - |b|);
    }
  }

  lemma LateAtDomain(isMedia: bool, i: nat, b: seq<Attempt>, ok: bool, x: nat)
    requires AtDomain(isMedia, i, b, ok) && x < |b| && b[x].outcome.TimedOut?
    ensures Again(b, x) <==> isMedia && b[x].forced
  {
    if isMedia && b[x].forced {
      assert x == 1 && b[2].turn == b[1].turn;
    }
  }

  ghost predicate NoneAnswered(t: seq<Attempt>)
  {
    forall x :: 0 <= x < |t| ==> !t[x].outcome.Connected?
  }

  lemma BothAtDomain(isMedia: bool, i: nat, b: seq<Attempt>, record: Record) returns (x: nat)
    requires AtDomain(isMedia, i, b, false)
    ensures x < |b| && b[x].turn == Turn(i, record) && !b[x].forced
  {
    x := if record == Lead(isMedia) then 0 else if isMedia then |b| - 1 else 1;
  }

  /** Where nothing answers, both records of every domain have had their turn. */
  lemma {:induction false} BothRecordsTried(
      isMedia: bool, order: seq<nat>, late: set<nat>, outcomes: nat -> Outcome, k: nat, i: nat, record: Record)
    returns (x: nat)
    requires Untried(order, late) && NoneAnswered(Walked(isMedia, order, late, outcomes, k)) && i in order
    ensures var t := Walked(isMedia, order, late, outcomes, k);
      x < |t| && t[x].turn == Turn(i, record) && !t[x].forced
    decreases |order|
  {
    var b, ok, later := OneDomain(isMedia, order, late, outcomes, k);
    var rest := if ok then [] else Walked(isMedia, order[1..], later, outcomes, k + |b|);
    NoneAnsweredIn(b, rest);
    if order[0] == i {
      x := BothAtDomain(isMedia, i, b, record);
      assert (b + rest)[x] == b[x];
    } else {
      UntriedRest(order, late, later);
      var y := BothRecordsTried(isMedia, order[1..], later, outcomes, k + |b|, i, record);
      x := |b| + y;
      assert (b + rest)[x] == rest[y];
    }
  }

  lemma NoneAnsweredIn(b: seq<Attempt>, rest: seq<Attempt>)
    requires NoneAnswered(b + rest)
    ensures NoneAnswered(b) && NoneAnswered(rest)
  {
    assert forall x :: 0 <= x < |b| ==> (b + rest)[x] == b[x];
    assert forall y :: 0 <= y < |rest| ==> (b + rest)[|b| + y] == rest[y];
  }

  /** The base record of `t[x]` ran out the clock before. */
  predicate BaseWasLate(t: seq<Attempt>, x: nat)
    requires x < |t|
  {
    exists z :: 0 <= z < x && t[z].turn == Turn(t[x].turn.index, Base) && t[z].outcome.TimedOut?
  }

  predicate ForcedNext(t: seq<Attempt>, x: nat)
  {
    x + 1 < |t| && t[x + 1].forced
  }

  predicate ForcedWhenDue(t: seq<Attempt>, x: nat)
    requires x < |t|
  {
    && (ForcedNext(t, x) <==> t[x].outcome.Missing? && !BaseWasLate(t, x))
    && (ForcedNext(t, x) ==> t[x + 1].turn == Turn(t[x].turn.index, Base))
  }

  /**
   * A forced attempt follows a `-1` attempt exactly if that record was missing
   * and the base record has not run out the clock before.
   */
  lemma {:induction false} ForcedExactlyWhen(
      isMedia: bool, order: seq<nat>, late: set<nat>, outcomes: nat -> Outcome, k: nat, x: nat)
    requires Untried(order, late) && x < |Walked(isMedia, order, late, outcomes, k)|
    requires Walked(isMedia, order, late, outcomes, k)[x].turn.record.DashOne?
    ensures ForcedWhenDue(Walked(isMedia, order, late, outcomes, k), x)
    decreases |order|
  {
    var b, ok, later := OneDomain(isMedia, order, late, outcomes, k);
    var rest := if ok then [] else Walked(isMedia, order[1..], later, outcomes, k + |b|);
    UntriedRest(order, late, later);
    if x < |b| {
      if rest != [] {
        FirstIsUnforced(isMedia, order[1..], later, outcomes, k + |b|);
      }
      ForcedAtDomain(isMedia, order[0], b, ok, rest, x);
    } else {
      ForcedExactlyWhen(isMedia, order[1..], later, outcomes, k + |b|, x - |b|);
      OnlyThere(isMedia, order[1..], later, outcomes, k + |b|, x - |b|);
      ForcedLater(isMedia, order[0], b, ok, rest, x - |b|);
    }
  }

  lemma FirstIsUnforced(isMedia: bool, order: seq<nat>, late: set<nat>, outcomes: nat -> Outcome, k: nat)
    requires Untried(order, late) && Walked(isMedia, order, late, outcomes, k) != []
    ensures !Walked(isMedia, order, late, outcomes, k)[0].forced
  {
    var b, ok, later := OneDomain(isMedia, order, late, outcomes, k);
  }

  lemma ForcedAtDomain(isMedia: bool, i: nat, b: seq<Attempt>, ok: bool, rest: seq<Attempt>, x: nat)
    requires AtDomain(isMedia, i, b, ok) && x < |b| && b[x].turn.record.DashOne?
    requires rest != [] ==> !ok && !rest[0].forced
    ensures ForcedWhenDue(b + rest, x)
  {
    var t := b + rest;
    assert x == if isMedia then 0 else 1;
    assert !isMedia && b[0].outcome.TimedOut? ==> t[0].turn == Turn(i, Base) && BaseWasLate(t, x);
  }

  lemma ForcedLater(isMedia: bool, i: nat, b: seq<Attempt>, ok: bool, rest: seq<Attempt>, x: nat)
    requires AtDomain(isMedia, i, b, ok) && x < |rest| && rest[x].turn.index != i && ForcedWhenDue(rest, x)
    ensures ForcedWhenDue(b + rest, |b| + x)
  {
    LateShift(b, rest, i, x);
    assert (b + rest)[|b| + x] == rest[x];
    assert x + 1 < |rest| ==> (b + rest)[|b| + x + 1] == rest[x + 1];
  }

  lemma LateShift(b: seq<Attempt>, rest: seq<Attempt>, i: nat, x: nat)
    requires x < |rest| && rest[x].turn.index != i && forall z :: 0 <= z < |b| ==> b[z].turn.index == i
    ensures BaseWasLate(b + rest, |b| + x) <==> BaseWasLate(rest, x)
  {
    var t := b + rest;
    if BaseWasLate(rest, x) {
      var z :| 0 <= z < x && rest[z].turn == Turn(rest[x].turn.index, Base) && rest[z].outcome.TimedOut?;
      assert t[|b| + z] == rest[z];
    }
    if BaseWasLate(t, |b| + x) {
      var z :| 0 <= z < |b| + x && t[z].turn == Turn(t[|b| + x].turn.index, Base) && t[z].outcome.TimedOut?;
      assert z >= |b| && rest[z - |b|] == t[z];
    }
  }

  // ------------------------------------------------------------- host names

  /** `hostname`: `kws{N}` or `kws{N}-1` in front of the domain. */
  function Hostname(dc: nat, domain: string, record: Record): string
  {
    "kws" + ToDecimal(dc) + (if record.Base? then "." else "-1.") + domain
  }

  /** `base_cf_record`: the first "-1." gives way to a dot. */
  function BaseOf(host: string): Option<string>
  {
    if |host| < 3 then None
    else if host[..3] == "-1." then Some("." + host[3..])
    else
      var rest := BaseOf(host[1..]);
      if rest.None? then None else Some([host[0]] + rest.value)
  }

  /** What stands before the first "-1." is kept. */
  lemma {:induction false} BaseAfter(front: string, domain: string)
    requires forall i :: 0 <= i < |front| ==> front[i] != '-'
    ensures BaseOf(front + "-1." + domain) == Some(front + "." + domain)
    decreases |front|
  {
    var host := front + "-1." + domain;
    if front == "" {
      assert host[..3] == "-1." && host[3..] == domain;
      assert "" + "." + domain == "." + domain;
    } else {
      assert host[..3][0] == front[0] != '-';
      assert host[1..] == front[1..] + "-1." + domain;
      BaseAfter(front[1..], domain);
      assert [front[0]] + (front[1..] + "." + domain) == front + "." + domain;
    }
  }

  /** So the base of a `-1` record is the base record of the same domain, whatever the domain is called. */
  lemma BaseOfDashOne(dc: nat, domain: string)
    ensures BaseOf(Hostname(dc, domain, DashOne)) == Some(Hostname(dc, domain, Base))
  {
    BaseAfter("kws" + ToDecimal(dc), domain);
  }

  /** Different records have different names. */
  lemma HostnamesDiffer(dc: nat, a: string, x: Record, b: string, y: Record)
    ensures Hostname(dc, a, x) == Hostname(dc, b, y) ==> a == b && x == y
  {
    var n := |"kws" + ToDecimal(dc)|;
    var h, g := Hostname(dc, a, x), Hostname(dc, b, y);
    assert h[n] == if x.Base? then '.' else '-';
    assert g[n] == if y.Base? then '.' else '-';
    assert h[n + (if x.Base? then 1 else 3)..] == a && g[n + (if y.Base? then 1 else 3)..] == b;
  }

  // ------------------------------------------------------- the order covers

  /** `o` holds names once, and none that the rotation has shown before place `l`. */
  predicate NamesOnce(domains: seq<string>, first: nat, l: nat, o: seq<nat>)
    requires l <= |domains|
  {
    && (forall x :: 0 <= x < |o| ==> o[x] < |domains|)
    && (forall x, m :: 0 <= x < |o| && 0 <= m < l ==>
         domains[o[x]] != domains[At(domains, first, m)])
    && (forall x, y :: 0 <= x < y < |o| ==> domains[o[x]] != domains[o[y]])
  }

  lemma OneName(domains: seq<string>, first: nat, l: nat, more: seq<nat>)
    requires l < |domains| && NamesOnce(domains, first, l + 1, more)
    ensures NamesOnce(domains, first, l, more)
    ensures !Repeated(domains, first, l) ==>
      NamesOnce(domains, first, l, [At(domains, first, l)] + more)
  {
    var i := At(domains, first, l);
    var o := [i] + more;
    forall x | 0 < x < |o|
      ensures o[x] == more[x - 1] < |domains| && domains[more[x - 1]] != domains[i]
    {
    }
  }

  /** No name comes up twice. */
  lemma {:induction false} OrderOnce(domains: seq<string>, first: nat, l: nat)
    requires l <= |domains|
    ensures NamesOnce(domains, first, l, Order(domains, first, l))
    decreases |domains| - l
  {
    if l < |domains| {
      OrderOnce(domains, first, l + 1);
      OneName(domains, first, l, Order(domains, first, l + 1));
    }
  }

  /** And every name does. */
  lemma {:induction false} OrderCovers(domains: seq<string>, first: nat, l: nat, m: nat) returns (i: nat)
    requires first < |domains| && l <= m < |domains|
    requires forall j :: 0 <= j < l ==>
      domains[At(domains, first, j)] != domains[At(domains, first, m)]
    ensures i in Order(domains, first, l)
    ensures i < |domains| && domains[i] == domains[At(domains, first, m)]
    decreases |domains| - l
  {
    var name := domains[At(domains, first, m)];
    if domains[At(domains, first, l)] == name {
      assert !Repeated(domains, first, l);
      i := At(domains, first, l);
    } else {
      i := OrderCovers(domains, first, l + 1, m);
    }
  }

  /** Where a walk starts. */
  function Start(domains: seq<string>, first: nat): nat
  {
    if domains == [] then 0 else first % |domains|
  }

  /** The whole walk over the records of one DC. */
  function Walk(domains: seq<string>, isMedia: bool, first: nat, outcomes: nat -> Outcome): seq<Attempt>
  {
    Walked(isMedia, Order(domains, Start(domains, first), 0), {}, outcomes, 0)
  }

  lemma WalkIsUntried(domains: seq<string>, first: nat)
    ensures Untried(Order(domains, Start(domains, first), 0), {})
    ensures forall i :: i in Order(domains, Start(domains, first), 0) ==> i < |domains|
    ensures var o := Order(domains, Start(domains, first), 0);
      forall i, j :: i in o && j in o && domains[i] == domains[j] ==> i == j
  {
    if domains != [] {
      OrderOnce(domains, Start(domains, first), 0);
    }
  }

  /** The first attempt is at the domain the balancing picks, and every name configured is in the order. */
  lemma WalkStartsAt(domains: seq<string>, isMedia: bool, first: nat, outcomes: nat -> Outcome)
    requires domains != []
    ensures var t := Walk(domains, isMedia, first, outcomes);
      && t != [] && t[0].turn == Turn(first % |domains|, if isMedia then DashOne else Base)
      && t[0].outcome == outcomes(0)
  {
    var start := Start(domains, first);
    RouteHealth.Wraps(start, |domains|);
    assert !Repeated(domains, start, 0);
    assert Order(domains, start, 0) == [start] + Order(domains, start, 1);
    WalkIsUntried(domains, first);
    var b, ok, later := OneDomain(isMedia, Order(domains, start, 0), {}, outcomes, 0);
    BothTurns(isMedia, start, Order(domains, start, 1));
    TakeTurn(Turns(isMedia, Order(domains, start, 0)), {}, outcomes, 0);
  }

  lemma NoRepeat(domains: seq<string>, first: nat, l: nat)
    requires first < |domains| && l < |domains|
    requires forall x, y :: 0 <= x < y < |domains| ==> domains[x] != domains[y]
    ensures !Repeated(domains, first, l)
  {
    forall m | 0 <= m < l
      ensures At(domains, first, m) != At(domains, first, l)
    {
      RouteHealth.RotationOnce(first, m, l, |domains|);
    }
  }

  lemma OrderStep(domains: seq<string>, first: nat, l: nat)
    requires first < |domains| && l < |domains|
    requires forall x, y :: 0 <= x < y < |domains| ==> domains[x] != domains[y]
    ensures Order(domains, first, l) == [At(domains, first, l)] + Order(domains, first, l + 1)
    ensures l + 1 == |domains| ==> Order(domains, first, l + 1) == []
  {
    NoRepeat(domains, first, l);
  }

  /** Where no name comes twice, the order goes once round from the first. */
  lemma {:induction false} OrderRotates(domains: seq<string>, first: nat, l: nat, j: nat)
    requires first < |domains| && l + j < |domains|
    requires forall x, y :: 0 <= x < y < |domains| ==> domains[x] != domains[y]
    ensures |Order(domains, first, l)| == |domains| - l && Order(domains, first, l)[j] == At(domains, first, l + j)
    decreases |domains| - l
  {
    OrderStep(domains, first, l);
    if l + 1 < |domains| {
      OrderRotates(domains, first, l + 1, if j > 0 then j - 1 else 0);
    }
  }

  lemma {:induction false} TurnAtPlace(isMedia: bool, order: seq<nat>, x: nat)
    requires x < 2 * |order|
    ensures |Turns(isMedia, order)| == 2 * |order|
    ensures Turns(isMedia, order)[x] == Turn(order[x / 2], if (x % 2 == 0) == isMedia then DashOne else Base)
    decreases |order|
  {
    if |order| == 1 {
      assert Turns(isMedia, order[1..]) == [];
    } else {
      TurnAtPlace(isMedia, order[1..], if x < 2 then 0 else x - 2);
    }
  }

  lemma {:induction false} QuietAttempts(turns: seq<Turn>, outcomes: nat -> Outcome, k: nat)
    requires forall x :: outcomes(x) == Failed
    ensures var t := Attempts(None, turns, {}, outcomes, k);
      |t| == |turns| && forall x :: 0 <= x < |t| ==> t[x].turn == turns[x] && !t[x].forced
    decreases |turns|
  {
    if turns != [] {
      TakeTurn(turns, {}, outcomes, k);
      QuietAttempts(turns[1..], outcomes, k + 1);
    }
  }

  /**
   * A walk on which every attempt just fails, over names that are all different:
   * once round from the first domain, two attempts for each, the `-1` record
   * first for a media DC and last otherwise.
   */
  lemma QuietWalk(domains: seq<string>, isMedia: bool, first: nat, outcomes: nat -> Outcome, x: nat)
    requires domains != [] && forall i, j :: 0 <= i < j < |domains| ==> domains[i] != domains[j]
    requires (forall y :: outcomes(y) == Failed) && x < 2 * |domains|
    ensures var t := Walk(domains, isMedia, first, outcomes);
      && |t| == 2 * |domains|
      && t[x].turn.index == RouteHealth.Rotated(first % |domains|, x / 2, |domains|)
      && (t[x].turn.record.DashOne? <==> (x % 2 == 0) == isMedia)
  {
    var start := Start(domains, first);
    OrderRotates(domains, start, 0, x / 2);
    TurnAtPlace(isMedia, Order(domains, start, 0), x);
    QuietAttempts(Turns(isMedia, Order(domains, start, 0)), outcomes, 0);
  }

  /** How the names look. */
  lemma HostnameExamples()
    ensures Hostname(2, "x.org", Base) == "kws2.x.org" && Hostname(2, "x.org", DashOne) == "kws2-1.x.org"
  {
    assert ToDecimal(2) == "2";
  }

  /** The host an attempt is made at. */
  function HostOf(dc: nat, domains: seq<string>, turn: Turn): string
    requires turn.index < |domains|
  {
    Hostname(dc, domains[turn.index], turn.record)
  }

  lemma InsideDomains(domains: seq<string>, isMedia: bool, first: nat, outcomes: nat -> Outcome, x: nat)
    requires x < |Walk(domains, isMedia, first, outcomes)|
    ensures Walk(domains, isMedia, first, outcomes)[x].turn.index < |domains|
  {
    WalkIsUntried(domains, first);
    OnlyThere(isMedia, Order(domains, Start(domains, first), 0), {}, outcomes, 0, x);
  }

  /** Two attempts at one host are two attempts at one record of one domain, however often it is configured. */
  lemma SameHost(
      dc: nat, domains: seq<string>, isMedia: bool, first: nat, outcomes: nat -> Outcome, x: nat, y: nat)
    requires x < |Walk(domains, isMedia, first, outcomes)| && y < |Walk(domains, isMedia, first, outcomes)|
    ensures var t := Walk(domains, isMedia, first, outcomes);
      && t[x].turn.index < |domains| && t[y].turn.index < |domains|
      && (HostOf(dc, domains, t[x].turn) == HostOf(dc, domains, t[y].turn) <==> t[x].turn == t[y].turn)
  {
    var t, order := Walk(domains, isMedia, first, outcomes), Order(domains, Start(domains, first), 0);
    WalkIsUntried(domains, first);
    OnlyThere(isMedia, order, {}, outcomes, 0, x);
    OnlyThere(isMedia, order, {}, outcomes, 0, y);
    HostnamesDiffer(dc, domains[t[x].turn.index], t[x].turn.record, domains[t[y].turn.index], t[y].turn.record);
  }

  /** No host is dialled three times, and none but a base record twice: once in its turn, once forced. */
  lemma NoHostOften(
      dc: nat, domains: seq<string>, isMedia: bool, first: nat, outcomes: nat -> Outcome, x: nat, y: nat)
    requires x < y < |Walk(domains, isMedia, first, outcomes)|
    ensures var t := Walk(domains, isMedia, first, outcomes);
      && t[x].turn.index < |domains| && t[y].turn.index < |domains|
      && (HostOf(dc, domains, t[x].turn) == HostOf(dc, domains, t[y].turn) ==>
          t[x].turn.record.Base? && t[x].forced != t[y].forced)
  {
    WalkIsUntried(domains, first);
    SameHost(dc, domains, isMedia, first, outcomes, x, y);
    TriedOnce(isMedia, Order(domains, Start(domains, first), 0), {}, outcomes, 0, x, y);
    assert OnceOrForced(Walk(domains, isMedia, first, outcomes), x, y);
  }

  /** Where nothing answers, every configured domain has had both its records dialled. */
  lemma EveryHostDialled(
      dc: nat, domains: seq<string>, isMedia: bool, first: nat, outcomes: nat -> Outcome, d: nat, record: Record)
    returns (x: nat)
    requires NoneAnswered(Walk(domains, isMedia, first, outcomes)) && d < |domains|
    ensures var t := Walk(domains, isMedia, first, outcomes);
      && x < |t| && t[x].turn.index < |domains| && !t[x].forced
      && HostOf(dc, domains, t[x].turn) == Hostname(dc, domains[d], record)
  {
    WalkIsUntried(domains, first);
    var m := RouteHealth.RotationFinds(Start(domains, first), d, |domains|);
    var i := OrderCovers(domains, Start(domains, first), 0, m);
    x := BothRecordsTried(isMedia, Order(domains, Start(domains, first), 0), {}, outcomes, 0, i, record);
  }

  /** A base record that is dialled again although it has just run out the clock. */
  lemma LateAgain()
    ensures var outcomes := (k: nat) => if k == 0 then Missing else TimedOut;
      var t := Walk(["a"], true, 0, outcomes);
      && |t| == 3 && t[1].outcome.TimedOut? && t[2].turn == t[1].turn
  {
    var outcomes := (k: nat) => if k == 0 then Missing else TimedOut;
    WalkIsUntried(["a"], 0);
    assert Order(["a"], 0, 0) == [0] + Order(["a"], 0, 1);
    var b, ok, later := OneDomain(true, [0], {}, outcomes, 0);
  }

  // --------------------------------------------------------------- the code

  /** The turns from place `l` of the rotation on, without the first of its two if `half`. */
  function TurnsFrom(domains: seq<string>, isMedia: bool, first: nat, l: nat, half: bool): seq<Turn>
  {
    if l >= |domains| then []
    else if half then
      TurnAt(domains, isMedia, first, l, true) + Turns(isMedia, Order(domains, first, l + 1))
    else Turns(isMedia, Order(domains, first, l))
  }

  /** One of the two turns at place `l`: none for a repeated name. */
  function TurnAt(domains: seq<string>, isMedia: bool, first: nat, l: nat, half: bool): seq<Turn>
    requires l < |domains|
  {
    if Repeated(domains, first, l) then []
    else [Turn(At(domains, first, l), if half then Second(isMedia) else Lead(isMedia))]
  }

  lemma BothTurns(isMedia: bool, i: nat, more: seq<nat>)
    ensures Turns(isMedia, [i] + more)
      == [Turn(i, Lead(isMedia))] + ([Turn(i, Second(isMedia))] + Turns(isMedia, more))
  {
    assert ([i] + more)[1..] == more;
  }

  lemma FirstTurn(domains: seq<string>, isMedia: bool, first: nat, l: nat)
    requires l < |domains|
    ensures TurnsFrom(domains, isMedia, first, l, false)
      == TurnAt(domains, isMedia, first, l, false) + TurnsFrom(domains, isMedia, first, l, true)
  {
    BothTurns(isMedia, At(domains, first, l), Order(domains, first, l + 1));
  }

  lemma SecondTurn(domains: seq<string>, isMedia: bool, first: nat, l: nat)
    requires l < |domains|
    ensures TurnsFrom(domains, isMedia, first, l, true)
      == TurnAt(domains, isMedia, first, l, true) + TurnsFrom(domains, isMedia, first, l + 1, false)
  {
    if l + 1 == |domains| {
      assert Order(domains, first, l + 1) == [];
    }
  }

  /** The place of record number `o`, and that of the next one. */
  lemma Halves(o: nat)
    ensures o % 2 == 0 ==> (o + 1) / 2 == o / 2 && (o + 1) % 2 == 1
    ensures o % 2 == 1 ==> (o + 1) / 2 == o / 2 + 1 && (o + 1) % 2 == 0
  {
  }

  /** What decides how a walk goes on. */
  datatype Ahead = Ahead(forced: Option<nat>, turns: seq<Turn>, late: set<nat>)
  {
    function Left(outcomes: nat -> Outcome, k: nat): seq<Attempt>
    {
      Attempts(forced, turns, late, outcomes, k)
    }

    /** The attempt `a` leads from here to `next`. */
    predicate Steps(a: Attempt, next: Ahead)
    {
      && a.forced == forced.Some?
      && (if forced.Some? then a.turn == Turn(forced.value, Base) && next.turns == turns
          else turns != [] && a.turn == turns[0] && next.turns == turns[1..])
      && (!a.outcome.Connected? ==>
          && next.late == Late(late, a)
          && next.forced == if forced.None? && Retries(a, late) then Some(a.turn.index) else None)
    }
  }

  /** Such a step is the next one of the walk. */
  lemma StepUnrolls(t: seq<Attempt>, s: Ahead, a: Attempt, next: Ahead, outcomes: nat -> Outcome, k: nat)
    requires s.Steps(a, next) && a.outcome == outcomes(k)
    ensures t + s.Left(outcomes, k)
      == (t + [a]) + (if a.outcome.Connected? then [] else next.Left(outcomes, k + 1))
  {
    if s.forced.Some? {
      TakeForced(s.forced.value, s.turns, s.late, outcomes, k);
    } else {
      TakeTurn(s.turns, s.late, outcomes, k);
    }
    Chained(t + s.Left(outcomes, k), t, s.Left(outcomes, k), [a],
            if a.outcome.Connected? then [] else next.Left(outcomes, k + 1));
  }

  class CfAttempts {
    const dc: nat
    const domains: seq<string>
    const isMedia: bool
    const firstDomain: nat
    var nextRecord: nat
    var forcedBase: Option<nat>
    var lastRecord: Option<Turn>
    const timedOut: array<bool>

    constructor WithOffset(dc: nat, domains: seq<string>, isMedia: bool, first: nat)
      ensures this.dc == dc && this.domains == domains && this.isMedia == isMedia
      ensures Valid() && fresh(timedOut) && firstDomain == Start(domains, first)
      ensures forcedBase == None && Late() == {}
      ensures Remaining() == Turns(isMedia, Order(domains, firstDomain, 0))
    {
      this.dc, this.domains, this.isMedia := dc, domains, isMedia;
      firstDomain := if |domains| == 0 then 0 else first % |domains|;
      nextRecord, forcedBase, lastRecord := 0, None, None;
      timedOut := new bool[2 * |domains|](_ => false);
    }

    ghost predicate Valid()
      reads this
    {
      && timedOut.Length == 2 * |domains| && (domains != [] ==> firstDomain < |domains|)
      && (forcedBase.Some? ==> forcedBase.value < |domains|)
      && (lastRecord.Some? ==> lastRecord.value.index < |domains|)
    }

    ghost function Remaining(): seq<Turn>
      reads this
    {
      TurnsFrom(domains, isMedia, firstDomain, nextRecord / 2, nextRecord % 2 == 1)
    }

    /** The base records marked as timed out. */
    ghost function Late(): set<nat>
      requires Valid()
      reads this, timedOut
    {
      set i | 0 <= i < |domains| && timedOut[2 * i]
    }

    ghost function View(): Ahead
      requires Valid()
      reads this, timedOut
    {
      Ahead(forcedBase, Remaining(), Late())
    }

    /** The record numbered `nextRecord` is passed. */
    method PassRecord() returns (l: nat, half: bool)
      requires nextRecord < 2 * |domains|
      modifies this`nextRecord
      ensures nextRecord == old(nextRecord) + 1 && l < |domains|
      ensures old(Remaining()) == TurnAt(domains, isMedia, firstDomain, l, half) + Remaining()
    {
      l, half := nextRecord / 2, nextRecord % 2 == 1;
      Halves(nextRecord);
      nextRecord := nextRecord + 1;
      if half {
        SecondTurn(domains, isMedia, firstDomain, l);
      } else {
        FirstTurn(domains, isMedia, firstDomain, l);
      }
    }

    /** The next turn of a name not seen before. */
    method NextTurn() returns (r: Option<Turn>)
      requires Valid()
      modifies this`nextRecord
      ensures r.None? ==> old(Remaining()) == [] && Remaining() == []
      ensures r.Some? ==> r.value.index < |domains| && [r.value] + Remaining() == old(Remaining())
    {
      while nextRecord < 2 * |domains|
        invariant Remaining() == old(Remaining())
        decreases 2 * |domains| - nextRecord
      {
        var l, half := PassRecord();
        if !Repeated(domains, firstDomain, l) {
          var record := if isMedia == half then Base else DashOne;
          return Some(Turn(At(domains, firstDomain, l), record));
        }
      }
      return None;
    }

    /** `next_domain`: a queued base record first. */
    method NextDomain() returns (r: Option<string>)
      requires Valid()
      modifies this`nextRecord, this`forcedBase, this`lastRecord
      ensures Valid() && forcedBase == None
      ensures r.None? <==> old(forcedBase) == None && old(Remaining()) == []
      ensures r.Some? ==> lastRecord.Some? && r.value == HostOf(dc, domains, lastRecord.value)
      ensures old(forcedBase).Some? ==>
        lastRecord == Some(Turn(old(forcedBase).value, Base)) && Remaining() == old(Remaining())
      ensures old(forcedBase) == None && r.Some? ==> [lastRecord.value] + Remaining() == old(Remaining())
    {
      if forcedBase.Some? {
        lastRecord, forcedBase := Some(Turn(forcedBase.value, Base)), None;
        return Some(HostOf(dc, domains, lastRecord.value));
      }
      var turn := NextTurn();
      if turn.None? {
        return None;
      }
      lastRecord := turn;
      return Some(HostOf(dc, domains, turn.value));
    }

    /** `note_timed_out`. */
    method NoteTimedOut()
      requires Valid()
      modifies timedOut
      ensures Late() == old(Late())
        + (if lastRecord.Some? && lastRecord.value.record.Base? then {lastRecord.value.index} else {})
    {
      if lastRecord.Some? {
        var index := 2 * lastRecord.value.index + (if lastRecord.value.record.DashOne? then 1 else 0);
        timedOut[index] := true;
      }
    }

    /** `retry_base_of` for the host just tried; what it returns is the base record of the same domain. */
    method RetryBaseOf(host: string) returns (r: Option<string>)
      requires Valid() && lastRecord.Some? && host == HostOf(dc, domains, lastRecord.value)
      modifies this`forcedBase
      ensures Valid()
      ensures r.Some? <==> lastRecord.value.record.DashOne? && lastRecord.value.index !in Late()
      ensures r.Some? ==> r.value == Hostname(dc, domains[lastRecord.value.index], Base)
      ensures forcedBase == if r.Some? then Some(lastRecord.value.index) else old(forcedBase)
    {
      var turn := lastRecord.value;
      if turn.record != DashOne {
        return None;
      }
      BaseOfDashOne(dc, domains[turn.index]);
      var base := BaseOf(host);
      if base.None? || timedOut[2 * turn.index] {
        return None;
      }
      forcedBase := Some(turn.index);
      return base;
    }
  }

  /** An attempt that counts as a redirect: one, or a missing record that was retried. */
  predicate Excused(t: seq<Attempt>, x: nat, queued: bool)
    requires x < |t|
  {
    t[x].outcome.Redirected? || (t[x].outcome.Missing? && (ForcedNext(t, x) || (queued && x == |t| - 1)))
  }

  predicate AllExcused(t: seq<Attempt>, queued: bool)
  {
    forall x :: 0 <= x < |t| ==> Excused(t, x, queued)
  }

  lemma OneMore(t: seq<Attempt>, queued: bool, a: Attempt, later: bool)
    requires a.forced == queued && (later ==> a.outcome.Missing?)
    ensures NoneAnswered(t + [a]) <==> NoneAnswered(t) && !a.outcome.Connected?
    ensures AllExcused(t + [a], later) <==> AllExcused(t, queued) && (a.outcome.Redirected? || later)
  {
    var u := t + [a];
    assert u[|t|] == a;
    forall x | 0 <= x < |t|
      ensures Excused(u, x, later) <==> Excused(t, x, queued)
    {
      assert u[x] == t[x] && (x + 1 < |t| ==> u[x + 1] == t[x + 1]);
    }
    assert NoneAnswered(u) ==> forall x :: 0 <= x < |t| ==> t[x] == u[x];
    assert Excused(u, |t|, later) <==> a.outcome.Redirected? || later;
  }

  /** One turn of the connect loop: the next record, its outcome and what that leads to. */
  method OneAttempt(attempts: CfAttempts, outcome: Outcome)
    returns (r: Option<string>, ghost a: Attempt, excused: bool)
    requires attempts.Valid()
    modifies attempts, attempts.timedOut
    ensures attempts.Valid()
    ensures r.None? ==> old(attempts.View()).forced == None && old(attempts.View()).turns == []
    ensures r.Some? ==>
      && a.outcome == outcome && old(attempts.View()).Steps(a, attempts.View())
      && a.turn.index < |attempts.domains| && r.value == HostOf(attempts.dc, attempts.domains, a.turn)
      && (attempts.forcedBase.Some? ==> outcome.Missing?)
      && (excused <==> outcome.Redirected? || attempts.forcedBase.Some?)
  {
    excused := false;
    ghost var s := attempts.View();
    a := Attempt(Turn(0, Base), false, outcome);
    r := attempts.NextDomain();
    if r.None? {
      return;
    }
    a := Attempt(attempts.lastRecord.value, s.forced.Some?, outcome);
    assert s.forced.None? ==> s.turns[0] == a.turn && s.turns[1..] == attempts.Remaining();
    match outcome
    case Connected =>
    case Redirected => excused := true;
    case Missing =>
      var base := attempts.RetryBaseOf(r.value);
      excused := base.Some?;
    case Failed =>
    case TimedOut =>
      attempts.NoteTimedOut();
      assert attempts.Late() == Late(s.late, a);
  }

  /** The hosts of the attempts, in order. */
  ghost predicate HostsOf(dc: nat, domains: seq<string>, t: seq<Attempt>, hosts: seq<string>)
  {
    && |hosts| == |t|
    && forall x :: 0 <= x < |t| ==> t[x].turn.index < |domains| && hosts[x] == HostOf(dc, domains, t[x].turn)
  }

  /** What the connect loop has to go by: its attempts so far, how it goes on, and the whole walk they begin. */
  datatype Course = Course(t: seq<Attempt>, ahead: Ahead, whole: seq<Attempt>, outcomes: nat -> Outcome)
  {
    ghost predicate Holds(dc: nat, domains: seq<string>, dialled: seq<string>, allRedirects: bool)
    {
      && NoneAnswered(t) && t + ahead.Left(outcomes, |t|) == whole
      && (allRedirects <==> AllExcused(t, ahead.forced.Some?)) && HostsOf(dc, domains, t, dialled)
    }
  }

  /** What the walk comes to. */
  ghost predicate Comes(
    dc: nat, domains: seq<string>, t: seq<Attempt>, found: Option<string>, allRedirects: bool, dialled: seq<string>)
  {
    && HostsOf(dc, domains, t, dialled)
    && (found.None? <==> NoneAnswered(t))
    && (found.Some? ==>
        dialled != [] && t[|t| - 1].outcome.Connected? && found.value == dialled[|dialled| - 1])
    && (allRedirects <==> found.None? && AllExcused(t, false))
  }

  lemma WalkBegins(dc: nat, domains: seq<string>, isMedia: bool, first: nat, outcomes: nat -> Outcome)
    ensures var s := Ahead(None, Turns(isMedia, Order(domains, Start(domains, first), 0)), {});
      Course([], s, Walk(domains, isMedia, first, outcomes), outcomes).Holds(dc, domains, [], true)
  {
  }

  lemma WalkGoesOn(
      dc: nat, domains: seq<string>, c: Course, a: Attempt, next: Ahead, dialled: seq<string>, allRedirects: bool,
      excused: bool)
    requires c.Holds(dc, domains, dialled, allRedirects) && c.ahead.Steps(a, next) && a.outcome == c.outcomes(|c.t|)
    requires a.turn.index < |domains|
    requires next.forced.Some? ==> a.outcome.Missing?
    requires excused <==> a.outcome.Redirected? || next.forced.Some?
    ensures var host := HostOf(dc, domains, a.turn);
      if a.outcome.Connected? then Comes(dc, domains, c.whole, Some(host), false, dialled + [host])
      else Course(c.t + [a], next, c.whole, c.outcomes).Holds(dc, domains, dialled + [host], allRedirects && excused)
  {
    OneMore(c.t, c.ahead.forced.Some?, a, next.forced.Some?);
    StepUnrolls(c.t, c.ahead, a, next, c.outcomes, |c.t|);
    OneMoreHost(dc, domains, c.t, dialled, a);
    assert c.t + [a] + [] == c.t + [a];
  }

  lemma OneMoreHost(dc: nat, domains: seq<string>, t: seq<Attempt>, hosts: seq<string>, a: Attempt)
    requires HostsOf(dc, domains, t, hosts) && a.turn.index < |domains|
    ensures HostsOf(dc, domains, t + [a], hosts + [HostOf(dc, domains, a.turn)])
  {
  }

  lemma WalkEnds(dc: nat, domains: seq<string>, c: Course, dialled: seq<string>, allRedirects: bool)
    requires c.Holds(dc, domains, dialled, allRedirects) && c.ahead.forced.None? && c.ahead.turns == []
    ensures Comes(dc, domains, c.whole, None, allRedirects, dialled)
  {
    assert c.t + [] == c.t;
  }

  /** `connect_cf_ws_for_dc_with_outbound_ordered`: what it returns is what the walk over the outcomes comes to. */
  method Connect(dc: nat, domains: seq<string>, isMedia: bool, first: nat, outcomes: nat -> Outcome)
    returns (found: Option<string>, allRedirects: bool, dialled: seq<string>)
    ensures Comes(dc, domains, Walk(domains, isMedia, first, outcomes), found, allRedirects, dialled)
  {
    var attempts := new CfAttempts.WithOffset(dc, domains, isMedia, first);
    WalkBegins(dc, domains, isMedia, first, outcomes);
    ghost var t, whole := [], Walk(domains, isMedia, first, outcomes);
    var made := 0;
    allRedirects, dialled := true, [];
    while true
      invariant attempts.Valid() && fresh(attempts.timedOut) && made == |t|
      invariant Course(t, attempts.View(), whole, outcomes).Holds(dc, domains, dialled, allRedirects)
      decreases |attempts.Remaining()|, if attempts.forcedBase.Some? then 1 else 0
    {
      ghost var c := Course(t, attempts.View(), whole, outcomes);
      var outcome := outcomes(made);
      var host, a, excused := OneAttempt(attempts, outcome);
      if host.None? {
        WalkEnds(dc, domains, c, dialled, allRedirects);
        return None, allRedirects, dialled;
      }
      WalkGoesOn(dc, domains, c, a, attempts.View(), dialled, allRedirects, excused);
      t, dialled := t + [a], dialled + [host.value];
      if outcome.Connected? {
        return host, false, dialled;
      }
      made, allRedirects := made + 1, allRedirects && excused;
    }
  }
}
