/**
 * The descriptor budget over all runs of the pool: what the cap of limits.rs
 * covers, and exactly when the process stays within its limit.
 */
module Budget {
  import opened Buckets
  import opened Interleaving
  import opened Limits
  import PoolProtocol
  import CfProtocol

  type Actions = seq<Action<Key, PoolProtocol.Step>>

  type CfActions = seq<Action<CfKey, CfProtocol.Step>>

  /** Spare Cloudflare connections per bucket. */
  function CfBudget(poolSize: nat): nat { Min(CF_MAX, poolSize) }

  /** What a server is configured with: its DC buckets, its Cloudflare buckets, its pool size. */
  datatype Setup = Setup(keys: set<Key>, cfKeys: set<CfKey>, poolSize: usize)

  /** The histories of both sides of the pool, on the buckets there are. */
  ghost predicate Possible(u: Setup, actions: Actions, cfActions: CfActions)
  {
    && PoolProtocol.IsRun(actions, u.poolSize) && KeysIn(actions, u.keys)
    && CfProtocol.IsRun(cfActions, CfBudget(u.poolSize)) && KeysIn(cfActions, u.cfKeys)
  }

  /** Everything the process holds at once: listener, both pools, runtime reserve, two per connection. */
  ghost function Held(u: Setup, actions: Actions, cfActions: CfActions, connections: nat): nat
    requires Possible(u, actions, cfActions)
  {
    1 + PoolProtocol.TotalFds(actions, u.keys, u.poolSize)
    + CfProtocol.TotalFds(cfActions, u.cfKeys, CfBudget(u.poolSize))
    + RUNTIME_RESERVED_FDS + FDS_PER_CONNECTION * connections
  }

  ghost predicate StaysWithin(u: Setup, limit: nat, cap: nat)
  {
    forall actions, cfActions, connections: nat ::
      Possible(u, actions, cfActions) && connections <= cap ==> Held(u, actions, cfActions, connections) <= limit
  }

  /** The most the process can hold, and that it can. */
  lemma MostHeld(u: Setup, connections: nat) returns (actions: Actions, cfActions: CfActions)
    ensures Possible(u, actions, cfActions)
    ensures Held(u, actions, cfActions, connections)
      == WorstCase(u.poolSize, |u.keys|, connections) + Product(CfBudget(u.poolSize), |u.cfKeys|)
  {
    actions := PoolProtocol.BoundIsReached(u.keys, u.poolSize);
    cfActions := CfProtocol.CfBoundIsReached(u.cfKeys, CfBudget(u.poolSize));
    PoolProtocol.PoolBound(actions, u.keys, u.poolSize);
    CfProtocol.CfPoolBound(cfActions, u.cfKeys, CfBudget(u.poolSize));
  }

  lemma NeverMore(u: Setup, actions: Actions, cfActions: CfActions, connections: nat)
    requires Possible(u, actions, cfActions)
    ensures Held(u, actions, cfActions, connections)
      <= WorstCase(u.poolSize, |u.keys|, connections) + Product(CfBudget(u.poolSize), |u.cfKeys|)
  {
    PoolProtocol.PoolBound(actions, u.keys, u.poolSize);
    CfProtocol.CfPoolBound(cfActions, u.cfKeys, CfBudget(u.poolSize));
  }

  lemma StaysWithinIff(u: Setup, limit: nat, cap: nat)
    ensures StaysWithin(u, limit, cap) <==>
      WorstCase(u.poolSize, |u.keys|, cap) + Product(CfBudget(u.poolSize), |u.cfKeys|) <= limit
  {
    var most := WorstCase(u.poolSize, |u.keys|, cap) + Product(CfBudget(u.poolSize), |u.cfKeys|);
    if most <= limit {
      forall actions, cfActions, connections: nat | Possible(u, actions, cfActions) && connections <= cap
        ensures Held(u, actions, cfActions, connections) <= limit
      {
        NeverMore(u, actions, cfActions, connections);
      }
    } else {
      var actions, cfActions := MostHeld(u, cap);
      assert Held(u, actions, cfActions, cap) > limit;
    }
  }

  /** What halving may leave over: at most one descriptor. */
  function Slack(limit: nat, base: nat): nat
  {
    if limit < base then 0 else (limit - base) % FDS_PER_CONNECTION
  }

  /**
   * The descriptor budget. For a finite limit with room for four connections,
   * every run of both sides of the pool with every number of connections up to
   * `auto_max_connections` stays within the limit exactly when the spare
   * Cloudflare connections fit into the one descriptor that halving may leave
   * over.
   */
  lemma BudgetHoldsIff(u: Setup, fdLimit: usize)
    requires fdLimit < USIZE_MAX && |u.keys| <= USIZE_MAX
    requires WorstCase(u.poolSize, |u.keys|, MIN_MAX_CONNECTIONS) <= fdLimit
    ensures StaysWithin(u, fdLimit, AutoMaxConnections(fdLimit, u.poolSize, |u.keys|)) <==>
      Product(CfBudget(u.poolSize), |u.cfKeys|) <= Slack(fdLimit, WorstCase(u.poolSize, |u.keys|, 0))
  {
    var cap := CapIsLargest(u, fdLimit);
    StaysWithinIff(u, fdLimit, cap);
    LeftOver(fdLimit, WorstCase(u.poolSize, |u.keys|, 0), cap, WorstCase(u.poolSize, |u.keys|, cap),
             Product(CfBudget(u.poolSize), |u.cfKeys|));
  }

  /** Without Cloudflare buckets the computed cap is always safe. */
  lemma BudgetHolds(u: Setup, fdLimit: usize)
    requires fdLimit < USIZE_MAX && |u.keys| <= USIZE_MAX && u.cfKeys == {}
    requires WorstCase(u.poolSize, |u.keys|, MIN_MAX_CONNECTIONS) <= fdLimit
    ensures StaysWithin(u, fdLimit, AutoMaxConnections(fdLimit, u.poolSize, |u.keys|))
  {
    BudgetHoldsIff(u, fdLimit);
    NoProduct(CfBudget(u.poolSize));
  }

  lemma NoProduct(a: nat)
    ensures Product(a, 0) == 0
  {
  }

  lemma CapIsLargest(u: Setup, fdLimit: usize) returns (cap: nat)
    requires fdLimit < USIZE_MAX && |u.keys| <= USIZE_MAX
    requires WorstCase(u.poolSize, |u.keys|, MIN_MAX_CONNECTIONS) <= fdLimit
    ensures cap == AutoMaxConnections(fdLimit, u.poolSize, |u.keys|)
    ensures var base := WorstCase(u.poolSize, |u.keys|, 0);
      base + 2 * cap <= fdLimit < base + 2 * (cap + 1) && WorstCase(u.poolSize, |u.keys|, cap) == base + 2 * cap
  {
    cap := AutoMaxConnections(fdLimit, u.poolSize, |u.keys|);
    CapFitsBudget(fdLimit, u.poolSize, |u.keys|);
    PerConnections(u.poolSize, |u.keys|, cap);
    PerConnections(u.poolSize, |u.keys|, cap + 1);
  }

  lemma PerConnections(poolSize: nat, dcBuckets: nat, connections: nat)
    ensures WorstCase(poolSize, dcBuckets, connections) == WorstCase(poolSize, dcBuckets, 0) + 2 * connections
  {
  }

  lemma LeftOver(limit: nat, base: nat, cap: nat, worst: nat, spares: nat)
    requires worst == base + 2 * cap && base + 2 * cap <= limit < base + 2 * (cap + 1)
    ensures worst + spares <= limit <==> spares <= Slack(limit, base)
  {
  }

  /** A server with one DC, its media bucket and one Cloudflare bucket goes beyond a limit of 45. */
  lemma OvershootHappens(dc: nat, c: CfKey) returns (actions: Actions, cfActions: CfActions)
    ensures var u := Setup({Key(dc, false), Key(dc, true)}, {c}, 1);
      && Possible(u, actions, cfActions)
      && AutoMaxConnections(45, 1, |u.keys|) == 4
      && Held(u, actions, cfActions, 4) == 46
  {
    var u := Setup({Key(dc, false), Key(dc, true)}, {c}, 1);
    assert |u.keys| == 2 && |u.cfKeys| == 1;
    actions, cfActions := MostHeld(u, 4);
  }
}
