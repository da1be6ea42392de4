/**
  Webhook delivery of src/lib/webhooks.ts: what one delivery records, how failed deliveries are retried,
  and when a webhook is switched off. Every database block that follows an `await` is one step; the
  steps of concurrent deliveries and overlapping retry runs interleave in any order.
  */
module Webhooks {
  import opened Wrappers

  /** At most this many rows are picked by one retry run. */
  const RETRY_BATCH := 50

  /** Deliveries kept for each webhook when older ones are pruned. */
  const KEPT_DELIVERIES := 200

  datatype Hook = Hook(enabled: bool, failures: nat)

  /** A row of the table webhook_deliveries, with the columns that retrying and pruning read. */
  datatype Row = Row(webhook: nat, attempt: nat, retryAt: Option<int>, createdAt: int)

  /** A delivery that is under way, or that waits in the retry run that picked its parent. */
  datatype Flight = Flight(webhook: nat, attempt: nat, parent: Option<nat>, allowRetry: bool)

  /** What happened, in order. The row id of a delivery is its position: row ids only grow and are never reused. */
  datatype Event =
    | Recorded(flight: Flight, ok: bool, at: int)
    | Reset(webhook: nat)

  /** The database; `log` is its history, which pruning does not touch. */
  datatype Store = Store(hooks: map<nat, Hook>, rows: map<nat, Row>, log: seq<Event>)

  // ---------------------------------------------------------------------------
  // The delay before a retry

  const BACKOFF_SECONDS: seq<int> := [30, 300, 1800, 7200, 28800]

  function Base(attempt: nat): int {
    BACKOFF_SECONDS[if attempt < |BACKOFF_SECONDS| - 1 then attempt else |BACKOFF_SECONDS| - 1]
  }

  /** What Math.random returns. */
  type Random = r: real | 0.0 <= r < 1.0

  /** Math.round rounds halves up. */
  function NextRetryDelay(attempt: nat, random: Random): (seconds: int)
    ensures Base(attempt) as real * 0.8 - 0.5 <= seconds as real <= Base(attempt) as real * 1.2 + 0.5
  {
    var base := Base(attempt) as real;
    var jitter := base * 0.2 * (2.0 * random - 1.0);
    assert -1.0 <= 2.0 * random - 1.0 < 1.0;
    (base + jitter + 0.5).Floor
  }

  /** Jitter never lets a later attempt come as soon as an earlier one, until the schedule is used up. */
  lemma BackoffGrows(attempt: nat, random: Random, random': Random)
    ensures attempt < |BACKOFF_SECONDS| - 1 ==> NextRetryDelay(attempt, random) < NextRetryDelay(attempt + 1, random')
    ensures attempt >= |BACKOFF_SECONDS| - 1 ==> Base(attempt) == Base(attempt + 1)
  {
    if attempt < |BACKOFF_SECONDS| - 1 {
      assert Base(attempt + 1) as real * 0.8 > Base(attempt) as real * 1.2 + 1.0;
    }
  }

  /** The delay grows with the random number, from four fifths of the schedule's delay through that delay itself. */
  lemma JitterFollowsRandom(attempt: nat, random: Random, random': Random)
    ensures random <= random' ==> NextRetryDelay(attempt, random) <= NextRetryDelay(attempt, random')
    ensures var schedule := [30, 300, 1800, 7200, 28800]; var delay := if attempt < 4 then schedule[attempt] else 28800;
      NextRetryDelay(attempt, 0.0) * 5 == delay * 4 && NextRetryDelay(attempt, 0.5) == delay
  {
    var base := Base(attempt) as real;
    assert random <= random' ==> base * 0.2 * (2.0 * random - 1.0) <= base * 0.2 * (2.0 * random' - 1.0);
  }

  // ---------------------------------------------------------------------------
  // The database block at the end of a delivery

  function WithoutRetry(row: Row): Row {
    row.(retryAt := None)
  }

  function Prune(rows: map<nat, Row>, webhook: nat, kept: set<nat>): map<nat, Row> {
    map id | id in rows && (rows[id].webhook == webhook ==> id in kept) :: rows[id]
  }

  /** A possible answer of the query for the newest deliveries of a webhook; equal times are cut anywhere. */
  ghost predicate Newest(rows: map<nat, Row>, webhook: nat, kept: set<nat>) {
    && kept <= rows.Keys
    && (forall id <- kept :: rows[id].webhook == webhook)
    && |kept| <= KEPT_DELIVERIES
    && (|kept| < KEPT_DELIVERIES ==> forall id <- rows :: rows[id].webhook == webhook ==> id in kept)
    && (forall id <- kept, other <- rows :: rows[other].webhook == webhook && other !in kept ==>
          rows[other].createdAt <= rows[id].createdAt)
  }

  /** The `n` newest of the given rows. */
  lemma {:induction false} TakeNewest(rows: map<nat, Row>, ids: set<nat>, n: nat) returns (kept: set<nat>)
    requires ids <= rows.Keys
    ensures kept <= ids && |kept| <= n && (|kept| < n ==> kept == ids)
    ensures forall id <- kept, other <- ids :: other !in kept ==> rows[other].createdAt <= rows[id].createdAt
    decreases n
  {
    kept := {};
    if ids != {} && n > 0 {
      var id := NewestOf(rows, ids);
      kept := TakeNewest(rows, ids - {id}, n - 1);
      kept := kept + {id};
    }
  }

  lemma {:induction false} NewestOf(rows: map<nat, Row>, ids: set<nat>) returns (id: nat)
    requires ids != {} && ids <= rows.Keys
    ensures id in ids && forall other <- ids :: rows[other].createdAt <= rows[id].createdAt
  {
    id :| id in ids;
    if ids != {id} {
      var best := NewestOf(rows, ids - {id});
      id := if rows[best].createdAt > rows[id].createdAt then best else id;
    }
  }

  /** The query for the newest deliveries always has an answer. */
  lemma NewestExists(rows: map<nat, Row>, webhook: nat) returns (kept: set<nat>)
    ensures Newest(rows, webhook, kept)
  {
    var ids := set id | id in rows && rows[id].webhook == webhook;
    kept := TakeNewest(rows, ids, KEPT_DELIVERIES);
  }

  /** The row, the failure counter and the switch after a delivery whose webhook still exists. */
  function Logged(maxRetries: int, db: Store, f: Flight, ok: bool, now: int, random: Random, kept: set<nat>): Store
    requires f.webhook in db.hooks
  {
    var hook := db.hooks[f.webhook];
    var exhausted := f.attempt >= maxRetries - 1;
    var retryAt := if f.allowRetry && !ok && !exhausted then Some(now + NextRetryDelay(f.attempt, random)) else None;
    var hook' :=
      if !f.allowRetry then hook
      else if ok then hook.(failures := 0)
      else Hook(hook.enabled && !(exhausted && hook.failures + 1 >= maxRetries), hook.failures + 1);
    Store(db.hooks[f.webhook := hook'],
          Prune(db.rows[|db.log| := Row(f.webhook, f.attempt, retryAt, now)], f.webhook, kept),
          db.log + [Recorded(f, ok, now)])
  }

  // ---------------------------------------------------------------------------
  // The beginning of a retry run

  predicate Due(db: Store, now: int, id: nat) {
    && id in db.rows
    && db.rows[id].retryAt.Some? && db.rows[id].retryAt.value <= now
    && db.rows[id].webhook in db.hooks && db.hooks[db.rows[id].webhook].enabled
  }

  /** A possible answer of the pending-retries query: due rows, none twice, all of them unless the limit cuts. */
  ghost predicate Pending(db: Store, now: int, picked: seq<nat>) {
    && (forall id <- picked :: Due(db, now, id))
    && (forall i, j :: 0 <= i < j < |picked| ==> picked[i] != picked[j])
    && |picked| <= RETRY_BATCH
    && (|picked| < RETRY_BATCH ==> forall id <- db.rows :: Due(db, now, id) ==> id in picked)
  }

  function ClearRetries(rows: map<nat, Row>, picked: seq<nat>): map<nat, Row> {
    map id | id in rows :: if id in picked then WithoutRetry(rows[id]) else rows[id]
  }

  function RetryFlights(rows: map<nat, Row>, picked: seq<nat>): (flights: seq<Flight>)
    requires forall id <- picked :: id in rows
    ensures |flights| == |picked|
    ensures forall i :: 0 <= i < |picked| ==>
      flights[i] == Flight(rows[picked[i]].webhook, rows[picked[i]].attempt + 1, Some(picked[i]), true)
  {
    seq(|picked|, i requires 0 <= i < |picked| =>
      Flight(rows[picked[i]].webhook, rows[picked[i]].attempt + 1, Some(picked[i]), true))
  }

  /** The database as an object, with the updates in the order of the source. */
  class Database {
    var hooks: map<nat, Hook>
    var rows: map<nat, Row>
    ghost var log: seq<Event>
    var nextId: nat

    ghost predicate Valid()
      reads this
    {
      nextId == |log|
    }

    ghost function Contents(): Store
      reads this
    {
      Store(hooks, rows, log)
    }

    /**
      `newest` answers the query for the newest deliveries of the webhook. The foreign key of the delivery row
      makes the insertion fail when the webhook is gone; the failure is caught and nothing else is done.
      */
    method LogDelivery(maxRetries: int, f: Flight, ok: bool, now: int, random: Random, newest: set<nat>)
      requires Valid()
      modifies this
      ensures Valid()
      ensures Contents() == if f.webhook in old(hooks) then Logged(maxRetries, old(Contents()), f, ok, now, random, newest)
                            else old(Contents())
    {
      hide Prune;
      if f.webhook !in hooks {
        return;
      }
      var id := nextId;
      rows := rows[id := Row(f.webhook, f.attempt, None, now)];
      nextId := nextId + 1;
      log := log + [Recorded(f, ok, now)];

      if f.allowRetry {
        if ok {
          hooks := hooks[f.webhook := hooks[f.webhook].(failures := 0)];
        } else {
          hooks := hooks[f.webhook := hooks[f.webhook].(failures := hooks[f.webhook].failures + 1)];
          if f.attempt < maxRetries - 1 {
            rows := rows[id := rows[id].(retryAt := Some(now + NextRetryDelay(f.attempt, random)))];
          } else if hooks[f.webhook].failures >= maxRetries {
            hooks := hooks[f.webhook := hooks[f.webhook].(enabled := false)];
          }
        }
      }

      assert rows == old(rows)[id := Row(f.webhook, f.attempt, rows[id].retryAt, now)];
      rows := Prune(rows, f.webhook, newest);
    }

    /** Picks the pending rows and clears their schedule before anything is delivered. */
    method PickRetries(now: int, pending: seq<nat>) returns (queue: seq<Flight>)
      requires Valid() && Pending(Contents(), now, pending)
      modifies this`rows
      ensures Valid()
      ensures rows == ClearRetries(old(rows), pending)
      ensures queue == RetryFlights(old(rows), pending)
    {
      queue := RetryFlights(rows, pending);
      for i := 0 to |pending|
        invariant rows == ClearRetries(old(rows), pending[..i])
      {
        assert pending[..i + 1] == pending[..i] + [pending[i]];
        rows := rows[pending[i] := rows[pending[i]].(retryAt := None)];
      }
      assert pending[..|pending|] == pending;
    }
  }

  // ---------------------------------------------------------------------------
  // The system: any number of deliveries and retry runs under way at once

  /** `queues` has one queue for every delivery call and every retry run; each is worked off from its head. */
  datatype System = System(maxRetries: nat, db: Store, nextHook: nat, queues: seq<seq<Flight>>)

  datatype Step =
    | CreateHook
    | DeleteHook(webhook: nat)
    | UpdateHook(webhook: nat, enabled: Option<bool>, resetCircuit: bool)
    | Fire(webhook: nat)
    | TestDelivery(webhook: nat)
    | ManualRetry(delivery: nat)
    | BeginRetries(now: int, pending: seq<nat>)
    | Finish(queue: nat, ok: bool, now: int, random: Random, newest: set<nat>)

  function Start(maxRetries: nat): System {
    System(maxRetries, Store(map[], map[], []), 0, [])
  }

  ghost predicate Possible(s: System, step: Step) {
    match step
    case CreateHook => true
    case DeleteHook(w) => w in s.db.hooks
    case UpdateHook(w, _, _) => w in s.db.hooks
    case Fire(w) => w in s.db.hooks && s.db.hooks[w].enabled
    case TestDelivery(w) => w in s.db.hooks
    case ManualRetry(id) => id in s.db.rows && s.db.rows[id].webhook in s.db.hooks
    case BeginRetries(now, pending) => Pending(s.db, now, pending)
    case Finish(q, ok, now, random, newest) =>
      && q < |s.queues| && s.queues[q] != []
      && var f := s.queues[q][0];
         f.webhook in s.db.hooks ==>
           Newest(s.db.rows[|s.db.log| := Row(f.webhook, f.attempt, None, now)], f.webhook, newest)
  }

  function Launch(s: System, queue: seq<Flight>): System {
    s.(queues := s.queues + [queue])
  }

  function Updated(db: Store, w: nat, enabled: Option<bool>, resetCircuit: bool): Store
    requires w in db.hooks
  {
    var hook := if enabled.Some? then db.hooks[w].(enabled := enabled.value) else db.hooks[w];
    if resetCircuit then Store(db.hooks[w := Hook(true, 0)], db.rows, db.log + [Reset(w)])
    else db.(hooks := db.hooks[w := hook])
  }

  /** When the webhook was deleted meanwhile, inserting the delivery row fails and nothing is recorded. */
  function Finished(s: System, q: nat, ok: bool, now: int, random: Random, newest: set<nat>): System
    requires q < |s.queues| && s.queues[q] != []
  {
    var f := s.queues[q][0];
    var s' := s.(queues := s.queues[q := s.queues[q][1..]]);
    if f.webhook in s.db.hooks then s'.(db := Logged(s.maxRetries, s.db, f, ok, now, random, newest)) else s'
  }

  ghost function Next(s: System, step: Step): System
    requires Possible(s, step)
  {
    match step
    case CreateHook => s.(db := s.db.(hooks := s.db.hooks[s.nextHook := Hook(true, 0)]), nextHook := s.nextHook + 1)
    case DeleteHook(w) =>
      s.(db := Store(s.db.hooks - {w}, map id | id in s.db.rows && s.db.rows[id].webhook != w :: s.db.rows[id], s.db.log))
    case UpdateHook(w, enabled, resetCircuit) => s.(db := Updated(s.db, w, enabled, resetCircuit))
    case Fire(w) => Launch(s, [Flight(w, 0, None, true)])
    case TestDelivery(w) => Launch(s, [Flight(w, 0, None, false)])
    case ManualRetry(id) => Launch(s, [Flight(s.db.rows[id].webhook, s.db.rows[id].attempt + 1, Some(id), false)])
    case BeginRetries(now, pending) =>
      Launch(s.(db := s.db.(rows := ClearRetries(s.db.rows, pending))), RetryFlights(s.db.rows, pending))
    case Finish(q, ok, now, random, newest) => Finished(s, q, ok, now, random, newest)
  }

  /** The system after a run; a step that cannot happen is skipped. */
  ghost function Exec(maxRetries: nat, steps: seq<Step>): System {
    if steps == [] then Start(maxRetries)
    else
      var s := Exec(maxRetries, steps[..|steps| - 1]);
      var step := steps[|steps| - 1];
      if Possible(s, step) then Next(s, step) else s
  }

  // ---------------------------------------------------------------------------
  // Retry chains

  /** Position `i` of the log is a delivery that takes part in retrying and in the circuit breaker. */
  predicate Auto(log: seq<Event>, i: int) {
    0 <= i < |log| && log[i].Recorded? && log[i].flight.allowRetry
  }

  predicate ChildOf(log: seq<Event>, i: int, p: int) {
    Auto(log, i) && log[i].flight.parent.Some? && log[i].flight.parent.value == p
  }

  /** A delivery that may be tried again: recorded, failed, with an attempt to spare. */
  predicate Retryable(maxRetries: nat, log: seq<Event>, p: int) {
    Auto(log, p) && !log[p].ok && log[p].flight.attempt < maxRetries - 1
  }

  /** `f` is a first attempt, or the next attempt after the delivery it names. */
  predicate Links(maxRetries: nat, log: seq<Event>, f: Flight) {
    match f.parent
    case None => f.attempt == 0
    case Some(p) =>
      && Retryable(maxRetries, log, p)
      && f.webhook == log[p].flight.webhook
      && f.attempt == log[p].flight.attempt + 1
  }

  ghost predicate LogLinked(maxRetries: nat, log: seq<Event>) {
    forall i :: Auto(log, i) ==>
      Links(maxRetries, log, log[i].flight) && (log[i].flight.parent.Some? ==> log[i].flight.parent.value < i)
  }

  ghost predicate OneChild(log: seq<Event>) {
    forall i, j, p :: ChildOf(log, i, p) && ChildOf(log, j, p) ==> i == j
  }

  /** The flight at place `i` of queue `q` is an automatic retry of delivery `p`. */
  predicate Retries(queues: seq<seq<Flight>>, q: int, i: int, p: int) {
    0 <= q < |queues| && 0 <= i < |queues[q]| && queues[q][i].allowRetry && queues[q][i].parent.Some? && queues[q][i].parent.value == p
  }

  /** No retry of `p` is recorded or under way. */
  ghost predicate Unclaimed(s: System, p: int) {
    (forall i :: !ChildOf(s.db.log, i, p)) && (forall q, i :: !Retries(s.queues, q, i, p))
  }

  ghost predicate RowsAgree(s: System) {
    forall id <- s.db.rows ::
      && id < |s.db.log| && s.db.log[id].Recorded? && s.db.rows[id].webhook in s.db.hooks
      && s.db.rows[id].webhook == s.db.log[id].flight.webhook
      && s.db.rows[id].attempt == s.db.log[id].flight.attempt
      && (s.db.rows[id].retryAt.Some? <==> Retryable(s.maxRetries, s.db.log, id) && Unclaimed(s, id))
  }

  ghost predicate FlightsLinked(s: System) {
    && (forall q, i :: 0 <= q < |s.queues| && 0 <= i < |s.queues[q]| ==> s.queues[q][i].allowRetry ==>
          Links(s.maxRetries, s.db.log, s.queues[q][i]))
    && (forall q, i, p, j :: Retries(s.queues, q, i, p) ==> !ChildOf(s.db.log, j, p))
    && (forall q, i, q', i', p :: Retries(s.queues, q, i, p) && Retries(s.queues, q', i', p) ==> q == q' && i == i')
  }

  ghost predicate ChainInv(s: System) {
    LogLinked(s.maxRetries, s.db.log) && OneChild(s.db.log) && RowsAgree(s) && FlightsLinked(s)
  }

  lemma ChainInvLaunch(s: System, f: Flight)
    requires ChainInv(s) && (f.allowRetry ==> f.parent == None && f.attempt == 0)
    ensures ChainInv(Launch(s, [f]))
  {
    var s' := Launch(s, [f]);
    assert forall q, i, p :: Retries(s'.queues, q, i, p) <==> Retries(s.queues, q, i, p);
    assert forall id :: Unclaimed(s, id) <==> Unclaimed(s', id);
  }

  lemma ChainInvBeginRetries(s: System, now: int, pending: seq<nat>)
    requires ChainInv(s) && Pending(s.db, now, pending)
    ensures ChainInv(Next(s, BeginRetries(now, pending)))
  {
    var s' := Next(s, BeginRetries(now, pending));
    var n := |s.queues|;
    forall q, i, p | Retries(s'.queues, q, i, p)
      ensures Retries(s.queues, q, i, p) || (q == n && i < |pending| && pending[i] == p && p in s.db.rows && s.db.rows[p].retryAt.Some?)
    {
      if q == n {
        assert pending[i] in pending;
      }
    }
    forall i | 0 <= i < |pending|
      ensures Links(s.maxRetries, s.db.log, s'.queues[n][i])
    {
      assert pending[i] in pending && Due(s.db, now, pending[i]);
    }
    assert forall q, i, p :: Retries(s.queues, q, i, p) ==> Retries(s'.queues, q, i, p);
    forall id <- s'.db.rows
      ensures Unclaimed(s', id) <==> Unclaimed(s, id) && id !in pending
    {
      if i :| 0 <= i < |pending| && pending[i] == id {
        assert Retries(s'.queues, n, i, id);
      }
    }
  }

  /** Finishing moves the flight from the head of its queue to the end of the log, and touches no other claim. */
  lemma FinishMovesClaim(s: System, q: nat, ok: bool, now: int, random: Random, newest: set<nat>)
    requires FlightsLinked(s) && Possible(s, Finish(q, ok, now, random, newest))
    ensures var s' := Finished(s, q, ok, now, random, newest);
      && (forall q', i, p :: Retries(s'.queues, q', i, p) ==>
            Retries(s.queues, q', if q' == q then i + 1 else i, p) && !Retries(s.queues, q, 0, p))
      && (forall i, p :: ChildOf(s'.db.log, i, p) ==>
            ChildOf(s.db.log, i, p) || (i == |s.db.log| && Retries(s.queues, q, 0, p)))
      && (forall i :: Retryable(s.maxRetries, s.db.log, i) ==> Retryable(s.maxRetries, s'.db.log, i))
  {
    var s' := Finished(s, q, ok, now, random, newest);
    forall q', i, p | Retries(s'.queues, q', i, p)
      ensures Retries(s.queues, q', if q' == q then i + 1 else i, p) && !Retries(s.queues, q, 0, p)
    {
      var j := if q' == q then i + 1 else i;
      assert Retries(s.queues, q', j, p);
    }
  }

  lemma FinishKeepsLog(s: System, q: nat, ok: bool, now: int, random: Random, newest: set<nat>)
    requires ChainInv(s) && Possible(s, Finish(q, ok, now, random, newest))
    ensures var log := Finished(s, q, ok, now, random, newest).db.log;
      LogLinked(s.maxRetries, log) && OneChild(log)
  {
    FinishMovesClaim(s, q, ok, now, random, newest);
  }

  lemma FinishKeepsFlights(s: System, q: nat, ok: bool, now: int, random: Random, newest: set<nat>)
    requires ChainInv(s) && Possible(s, Finish(q, ok, now, random, newest))
    ensures FlightsLinked(Finished(s, q, ok, now, random, newest))
  {
    FinishMovesClaim(s, q, ok, now, random, newest);
  }

  /** A delivery whose row is kept is claimed after the step exactly if it was before. */
  lemma ClaimPersists(s: System, q: nat, ok: bool, now: int, random: Random, newest: set<nat>, id: nat)
    requires ChainInv(s) && Possible(s, Finish(q, ok, now, random, newest))
    requires id in s.db.rows
    ensures Unclaimed(Finished(s, q, ok, now, random, newest), id) <==> Unclaimed(s, id)
  {
    FinishMovesClaim(s, q, ok, now, random, newest);
    var s', n := Finished(s, q, ok, now, random, newest), |s.db.log|;
    if i :| ChildOf(s.db.log, i, id) {
      assert ChildOf(s'.db.log, i, id);
    } else if q', i :| Retries(s.queues, q', i, id) {
      if q' == q && i == 0 {
        assert s.queues[q][0].webhook == s.db.rows[id].webhook;
        assert ChildOf(s'.db.log, n, id);
      } else {
        assert Retries(s'.queues, q', if q' == q then i - 1 else i, id);
      }
    }
  }

  lemma FinishKeepsRows(s: System, q: nat, ok: bool, now: int, random: Random, newest: set<nat>)
    requires ChainInv(s) && Possible(s, Finish(q, ok, now, random, newest))
    ensures RowsAgree(Finished(s, q, ok, now, random, newest))
  {
    FinishMovesClaim(s, q, ok, now, random, newest);
    var s', n := Finished(s, q, ok, now, random, newest), |s.db.log|;
    var f := s.queues[q][0];
    if f.webhook in s.db.hooks {
      assert Unclaimed(s', n) by {
        assert forall q', i :: Retries(s'.queues, q', i, n) ==> Retries(s.queues, q', if q' == q then i + 1 else i, n);
      }
      forall id <- s'.db.rows | id != n
        ensures Unclaimed(s', id) <==> Unclaimed(s, id)
      {
        ClaimPersists(s, q, ok, now, random, newest, id);
      }
    } else {
      forall id <- s'.db.rows
        ensures Unclaimed(s', id) <==> Unclaimed(s, id)
      {
        ClaimPersists(s, q, ok, now, random, newest, id);
      }
    }
  }

  lemma ChainInvFinish(s: System, q: nat, ok: bool, now: int, random: Random, newest: set<nat>)
    requires ChainInv(s) && Possible(s, Finish(q, ok, now, random, newest))
    ensures ChainInv(Finished(s, q, ok, now, random, newest))
  {
    FinishKeepsLog(s, q, ok, now, random, newest);
    FinishKeepsFlights(s, q, ok, now, random, newest);
    FinishKeepsRows(s, q, ok, now, random, newest);
  }

  lemma ChainInvAdmin(s: System, step: Step)
    requires ChainInv(s) && Possible(s, step) && (step.CreateHook? || step.DeleteHook? || step.UpdateHook?)
    ensures ChainInv(Next(s, step))
  {
    var s' := Next(s, step);
    LogGrowthKeepsChains(s.maxRetries, s.db.log, s'.db.log);
    assert forall i, p :: ChildOf(s.db.log, i, p) ==> ChildOf(s'.db.log, i, p);
    forall id <- s'.db.rows
      ensures Unclaimed(s', id) <==> Unclaimed(s, id)
    {
    }
  }

  /** A reset at the end of the log leaves every delivery in it as it was. */
  lemma LogGrowthKeepsChains(maxRetries: nat, log: seq<Event>, log': seq<Event>)
    requires LogLinked(maxRetries, log) && OneChild(log)
    requires log' == log || exists w :: log' == log + [Reset(w)]
    ensures LogLinked(maxRetries, log') && OneChild(log')
    ensures forall i, p :: ChildOf(log', i, p) ==> ChildOf(log, i, p)
    ensures forall p :: Retryable(maxRetries, log, p) <==> Retryable(maxRetries, log', p)
    ensures forall f :: Links(maxRetries, log, f) ==> Links(maxRetries, log', f)
  {
    assert forall i :: Auto(log', i) <==> Auto(log, i);
    assert forall i, p :: ChildOf(log', i, p) ==> ChildOf(log, i, p);
  }

  lemma ChainInvNext(s: System, step: Step)
    requires ChainInv(s) && Possible(s, step)
    ensures ChainInv(Next(s, step))
  {
    var s' := Next(s, step);
    match step
    case BeginRetries(now, pending) => ChainInvBeginRetries(s, now, pending);
    case Finish(q, ok, now, random, newest) => ChainInvFinish(s, q, ok, now, random, newest);
    case Fire(w) => ChainInvLaunch(s, s'.queues[|s.queues|][0]);
    case TestDelivery(w) => ChainInvLaunch(s, s'.queues[|s.queues|][0]);
    case ManualRetry(id) => ChainInvLaunch(s, s'.queues[|s.queues|][0]);
    case _ => ChainInvAdmin(s, step);
  }

  lemma {:induction false} ChainInvExec(maxRetries: nat, steps: seq<Step>)
    ensures ChainInv(Exec(maxRetries, steps)) && Exec(maxRetries, steps).maxRetries == maxRetries
  {
    if steps != [] {
      var before, step := steps[..|steps| - 1], steps[|steps| - 1];
      ChainInvExec(maxRetries, before);
      if Possible(Exec(maxRetries, before), step) {
        ChainInvNext(Exec(maxRetries, before), step);
      }
    }
  }

  /** In every run, retried deliveries form chains: one retry each at most, made after a failure, one attempt higher. */
  lemma RetriesFormChains(maxRetries: nat, steps: seq<Step>)
    ensures var log := Exec(maxRetries, steps).db.log;
      && (forall i :: Auto(log, i) && log[i].flight.parent == None ==> log[i].flight.attempt == 0)
      && (forall i, p :: ChildOf(log, i, p) ==>
            && p < i && Auto(log, p) && !log[p].ok
            && log[i].flight.webhook == log[p].flight.webhook
            && log[i].flight.attempt == log[p].flight.attempt + 1 < maxRetries)
      && (forall i, j, p :: ChildOf(log, i, p) && ChildOf(log, j, p) ==> i == j)
  {
    ChainInvExec(maxRetries, steps);
  }

  /**
    In every run, a delivery still in the table waits for a retry exactly when it may be retried and no retry
    of it is recorded or under way: only pruning and deleting the webhook can lose a retry.
    */
  lemma NoRetryLostUnlessPruned(maxRetries: nat, steps: seq<Step>, id: nat)
    requires id in Exec(maxRetries, steps).db.rows
    ensures var s := Exec(maxRetries, steps);
      s.db.rows[id].retryAt.Some? <==>
        && Retryable(maxRetries, s.db.log, id)
        && !(exists i :: ChildOf(s.db.log, i, id))
        && !(exists q, i :: Retries(s.queues, q, i, id))
  {
    ChainInvExec(maxRetries, steps);
  }

  // ---------------------------------------------------------------------------
  // What pruning removes

  function RowsOf(rows: map<nat, Row>, w: nat): set<nat> {
    set id | id in rows && rows[id].webhook == w
  }

  function Min(a: int, b: int): int {
    if a < b then a else b
  }

  lemma PruneKeepsRows(before: map<nat, Row>, n: nat, row: Row, asked: Row, newest: set<nat>)
    requires n !in before && asked == WithoutRetry(row) && Newest(before[n := asked], row.webhook, newest)
    ensures var after := Prune(before[n := row], row.webhook, newest);
      && (forall id <- after :: id != n ==> id in before && after[id] == before[id])
      && (n in after ==> after[n] == row)
      && (forall id <- before :: before[id].webhook != row.webhook ==> id in after)
      && (forall id <- RowsOf(before, row.webhook) + {n} :: id in after <==> id in newest)
      && RowsOf(after, row.webhook) == newest
      && RowsOf(before[n := asked], row.webhook) == RowsOf(before, row.webhook) + {n}
  {
  }

  lemma PruneKeepsNewest(before: map<nat, Row>, n: nat, row: Row, asked: Row, newest: set<nat>)
    requires n !in before && asked == WithoutRetry(row) && Newest(before[n := asked], row.webhook, newest)
    ensures var after := Prune(before[n := row], row.webhook, newest);
      && (forall id <- RowsOf(after, row.webhook), gone <- RowsOf(before, row.webhook) ::
            gone !in after ==> before[gone].createdAt <= after[id].createdAt)
      && (forall id <- RowsOf(after, row.webhook) :: n !in after ==> row.createdAt <= after[id].createdAt)
  {
    PruneKeepsRows(before, n, row, asked, newest);
    var all := before[n := asked];
    var after := Prune(before[n := row], row.webhook, newest);
    assert forall id <- after :: after[id].createdAt == all[id].createdAt;
    assert n !in after ==> n !in newest && all[n].createdAt == row.createdAt;
  }

  lemma PruneKeepsEnough(before: map<nat, Row>, n: nat, row: Row, asked: Row, newest: set<nat>)
    requires n !in before && asked == WithoutRetry(row) && Newest(before[n := asked], row.webhook, newest)
    ensures var after := Prune(before[n := row], row.webhook, newest);
      && |RowsOf(after, row.webhook)| == Min(|RowsOf(before, row.webhook)| + 1, 200)
      && (|RowsOf(before, row.webhook)| < 200 ==> n in after && before.Keys <= after.Keys)
  {
    PruneKeepsRows(before, n, row, asked, newest);
    var all := before[n := asked];
    var old_ := RowsOf(before, row.webhook);
    assert n !in old_ && |old_ + {n}| == |old_| + 1;
    if |newest| < 200 {
      assert newest == RowsOf(all, row.webhook);
    } else {
      SubsetSize(newest, old_ + {n});
    }
    if |old_| < 200 {
      EqualSize(newest, old_ + {n});
    }
  }

  /**
    The end of a delivery, whatever the state: rows of other webhooks stay; of its own webhook's rows, the new one
    included, exactly those stay that the query returned. They are the newest, 200 at most and all if there are no
    more than 200.
    */
  lemma FinishKeepsNewest(s: System, q: nat, ok: bool, now: int, random: Random, newest: set<nat>)
    requires Possible(s, Finish(q, ok, now, random, newest))
    requires s.queues[q][0].webhook in s.db.hooks && forall id <- s.db.rows :: id < |s.db.log|
    ensures
      var f, n := s.queues[q][0], |s.db.log|;
      var w, before, after := f.webhook, s.db.rows, Next(s, Finish(q, ok, now, random, newest)).db.rows;
      && (forall id <- after :: id != n ==> id in before && after[id] == before[id])
      && (n in after ==> after[n].webhook == w && after[n].attempt == f.attempt && after[n].createdAt == now)
      && (forall id <- before :: before[id].webhook != w ==> id in after)
      && (forall id <- RowsOf(before, w) + {n} :: id in after <==> id in newest)
      && (forall id <- RowsOf(after, w), gone <- RowsOf(before, w) :: gone !in after ==> before[gone].createdAt <= after[id].createdAt)
      && (forall id <- RowsOf(after, w) :: n !in after ==> now <= after[id].createdAt)
      && |RowsOf(after, w)| == Min(|RowsOf(before, w)| + 1, 200)
      && (|RowsOf(before, w)| < 200 ==> n in after && before.Keys <= after.Keys)
  {
    var f, n := s.queues[q][0], |s.db.log|;
    var after := Next(s, Finish(q, ok, now, random, newest)).db.rows;
    var retryAt := if f.allowRetry && !ok && f.attempt < s.maxRetries - 1 then Some(now + NextRetryDelay(f.attempt, random)) else None;
    var row := Row(f.webhook, f.attempt, retryAt, now);
    assert after == Prune(s.db.rows[n := row], f.webhook, newest);
    hide Prune, Newest, RowsOf, Next, NextRetryDelay;
    var asked := Row(f.webhook, f.attempt, None, now);
    PruneKeepsRows(s.db.rows, n, row, asked, newest);
    PruneKeepsNewest(s.db.rows, n, row, asked, newest);
    PruneKeepsEnough(s.db.rows, n, row, asked, newest);
  }

  lemma {:induction false} SubsetSize(a: set<nat>, b: set<nat>)
    requires a <= b
    ensures |a| <= |b|
  {
    InjectionBound(a, b, x => x);
  }

  lemma EqualSize(a: set<nat>, b: set<nat>)
    requires a <= b && |a| >= |b|
    ensures a == b
  {
    if x :| x in b && x !in a {
      SubsetSize(a, b - {x});
    }
  }

  /** A recorded delivery of a webhook that still exists, without its row. */
  predicate Gone(s: System, id: int) {
    0 <= id < |s.db.log| && s.db.log[id].Recorded? && s.db.log[id].flight.webhook in s.db.hooks && id !in s.db.rows
  }

  /** The table is full for the webhook, with rows that are no older than the delivery. */
  predicate Outnumbered(s: System, id: int)
    requires 0 <= id < |s.db.log| && s.db.log[id].Recorded?
  {
    var others := RowsOf(s.db.rows, s.db.log[id].flight.webhook);
    |others| == 200 && forall other <- others :: s.db.log[id].at <= s.db.rows[other].createdAt
  }

  ghost predicate RowsLogged(s: System) {
    forall id <- s.db.rows ::
      && id < |s.db.log| && s.db.log[id].Recorded?
      && s.db.log[id].flight.webhook == s.db.rows[id].webhook && s.db.log[id].at == s.db.rows[id].createdAt
  }

  ghost predicate KeptInv(s: System) {
    && RowsLogged(s)
    && (forall w :: |RowsOf(s.db.rows, w)| <= 200)
    && (forall id :: Gone(s, id) ==> Outnumbered(s, id))
  }

  lemma KeptInvFinish(s: System, q: nat, ok: bool, now: int, random: Random, newest: set<nat>)
    requires KeptInv(s) && Possible(s, Finish(q, ok, now, random, newest)) && s.queues[q][0].webhook in s.db.hooks
    ensures KeptInv(Next(s, Finish(q, ok, now, random, newest)))
  {
    hide Next, Newest, Outnumbered, RowsOf;
    FinishKeepsNewest(s, q, ok, now, random, newest);
    FinishLogs(s, q, ok, now, random, newest);
    var s', w, n := Next(s, Finish(q, ok, now, random, newest)), s.queues[q][0].webhook, |s.db.log|;
    OtherRowsStay(s.db.rows, s'.db.rows, w, n);
    forall id | Gone(s', id)
      ensures Outnumbered(s', id)
    {
      GoneAfterFinish(s, s', w, n, id);
    }
  }

  lemma OtherRowsStay(before: map<nat, Row>, after: map<nat, Row>, w: nat, n: nat)
    requires n !in before
    requires forall id <- after :: id != n ==> id in before && after[id] == before[id]
    requires n in after ==> after[n].webhook == w
    requires forall id <- before :: before[id].webhook != w ==> id in after
    ensures forall v :: v != w ==> RowsOf(after, v) == RowsOf(before, v)
  {
    forall v | v != w
      ensures RowsOf(after, v) == RowsOf(before, v)
    {
    }
  }

  lemma FinishLogs(s: System, q: nat, ok: bool, now: int, random: Random, newest: set<nat>)
    requires Possible(s, Finish(q, ok, now, random, newest)) && s.queues[q][0].webhook in s.db.hooks
    ensures var s' := Next(s, Finish(q, ok, now, random, newest));
      s'.db.log == s.db.log + [Recorded(s.queues[q][0], ok, now)] && s'.db.hooks.Keys == s.db.hooks.Keys
  {
  }

  lemma GoneAfterFinish(s: System, s': System, w: nat, n: nat, id: int)
    requires KeptInv(s) && Gone(s', id) && n == |s.db.log|
    requires exists e :: s'.db.log == s.db.log + [e] && e.Recorded? && e.flight.webhook == w
                         && forall other <- RowsOf(s'.db.rows, w) :: n !in s'.db.rows ==> e.at <= s'.db.rows[other].createdAt
    requires s'.db.hooks.Keys == s.db.hooks.Keys
    requires forall other <- s'.db.rows :: other != n ==> other in s.db.rows && s'.db.rows[other] == s.db.rows[other]
    requires n in s'.db.rows ==> s'.db.rows[n].webhook == w && s'.db.rows[n].createdAt == s'.db.log[n].at
    requires forall v :: v != w ==> RowsOf(s'.db.rows, v) == RowsOf(s.db.rows, v)
    requires forall other <- RowsOf(s'.db.rows, w), gone <- RowsOf(s.db.rows, w) ::
      gone !in s'.db.rows ==> s.db.rows[gone].createdAt <= s'.db.rows[other].createdAt
    requires |RowsOf(s'.db.rows, w)| == Min(|RowsOf(s.db.rows, w)| + 1, 200)
    requires |RowsOf(s.db.rows, w)| < 200 ==> n in s'.db.rows && s.db.rows.Keys <= s'.db.rows.Keys
    ensures Outnumbered(s', id)
  {
    var e := s'.db.log[n];
    var v := s'.db.log[id].flight.webhook;
    var before, after := RowsOf(s.db.rows, w), RowsOf(s'.db.rows, w);
    assert |before| <= 200;
    if id != n {
      assert s'.db.log[id] == s.db.log[id];
      if id in s.db.rows {
        assert id in RowsOf(s.db.rows, v);
        assert v == w;
      } else {
        assert Gone(s, id) && Outnumbered(s, id);
        if v == w && n in after {
          var gone := Displaced(before, after, n);
          assert s.db.log[id].at <= s.db.rows[gone].createdAt <= s'.db.rows[n].createdAt;
        }
      }
    }
  }

  lemma Displaced(before: set<nat>, after: set<nat>, n: nat) returns (gone: nat)
    requires |before| == |after| && n in after && n !in before
    ensures gone in before && gone !in after
  {
    if before <= after {
      SubsetSize(before + {n}, after);
    }
    gone :| gone in before && gone !in after;
  }

  /** A step after which the webhooks' rows are those from before, as far as pruning is concerned. */
  lemma KeptInvSame(s: System, s': System)
    requires KeptInv(s)
    requires forall w <- s'.db.hooks :: w in s.db.hooks || forall e <- s.db.log :: WebhookOf(e) != w
    requires s'.db.log == s.db.log || exists w :: s'.db.log == s.db.log + [Reset(w)]
    requires forall id <- s'.db.rows ::
      id in s.db.rows && s'.db.rows[id].webhook == s.db.rows[id].webhook && s'.db.rows[id].createdAt == s.db.rows[id].createdAt
    requires forall id <- s.db.rows :: s.db.rows[id].webhook in s'.db.hooks ==> id in s'.db.rows
    ensures KeptInv(s')
  {
    forall w
      ensures RowsOf(s'.db.rows, w) <= RowsOf(s.db.rows, w)
      ensures w in s'.db.hooks ==> RowsOf(s'.db.rows, w) == RowsOf(s.db.rows, w)
      ensures |RowsOf(s'.db.rows, w)| <= 200
    {
      SubsetSize(RowsOf(s'.db.rows, w), RowsOf(s.db.rows, w));
    }
    forall id | Gone(s', id)
      ensures Outnumbered(s', id)
    {
      assert s'.db.log[id] == s.db.log[id] && s.db.log[id] in s.db.log;
      assert Gone(s, id);
    }
  }

  lemma KeptInvNext(s: System, step: Step)
    requires KeptInv(s) && CounterInv(s) && Possible(s, step)
    ensures KeptInv(Next(s, step))
  {
    match step
    case Finish(q, ok, now, random, newest) =>
      if s.queues[q][0].webhook in s.db.hooks {
        KeptInvFinish(s, q, ok, now, random, newest);
      } else {
        KeptInvSame(s, Next(s, step));
      }
    case _ =>
      KeptInvSame(s, Next(s, step));
  }

  lemma {:induction false} KeptInvExec(maxRetries: nat, steps: seq<Step>)
    ensures KeptInv(Exec(maxRetries, steps))
  {
    if steps != [] {
      var before, step := steps[..|steps| - 1], steps[|steps| - 1];
      KeptInvExec(maxRetries, before);
      CounterIsFailureRun(maxRetries, before);
      if Possible(Exec(maxRetries, before), step) {
        KeptInvNext(Exec(maxRetries, before), step);
      }
    }
  }

  /**
    In every run a webhook has at most 200 rows, and a recorded delivery of a webhook that was never deleted is
    missing only if 200 rows of that webhook are there, none older than the delivery.
    */
  lemma OnlyOutnumberedRowsAreGone(maxRetries: nat, steps: seq<Step>, w: nat, id: nat)
    ensures var s := Exec(maxRetries, steps);
      && |RowsOf(s.db.rows, w)| <= 200
      && (id < |s.db.log| && s.db.log[id].Recorded? && s.db.log[id].flight.webhook == w && w in s.db.hooks && id !in s.db.rows ==>
            && |RowsOf(s.db.rows, w)| == 200
            && forall other <- RowsOf(s.db.rows, w) :: s.db.log[id].at <= s.db.rows[other].createdAt)
  {
    KeptInvExec(maxRetries, steps);
    var s := Exec(maxRetries, steps);
    assert Gone(s, id) ==> Outnumbered(s, id);
  }

  /**
    In every run, a failed delivery with an attempt to spare, whose webhook was never deleted, waits for its retry,
    or the retry is recorded or under way, or 200 rows that are no older have displaced it.
    */
  lemma RetriesComeUnlessOutnumbered(maxRetries: nat, steps: seq<Step>, id: nat)
    requires var s := Exec(maxRetries, steps); Retryable(maxRetries, s.db.log, id) && s.db.log[id].flight.webhook in s.db.hooks
    ensures var s := Exec(maxRetries, steps);
      || (id in s.db.rows && s.db.rows[id].retryAt.Some?)
      || (exists i :: ChildOf(s.db.log, i, id))
      || (exists q, i :: Retries(s.queues, q, i, id))
      || (id !in s.db.rows && Outnumbered(s, id))
  {
    KeptInvExec(maxRetries, steps);
    var s := Exec(maxRetries, steps);
    assert Gone(s, id) ==> Outnumbered(s, id);
    if id in s.db.rows {
      NoRetryLostUnlessPruned(maxRetries, steps, id);
    }
  }

  // ---------------------------------------------------------------------------
  // When retries begin

  /** `seconds` after the delivery is within the jitter of its backoff. */
  predicate WithinJitter(attempt: nat, seconds: int) {
    Base(attempt) as real * 0.8 - 0.5 <= seconds as real <= Base(attempt) as real * 1.2 + 0.5
  }

  predicate Delayed(rows: map<nat, Row>) {
    forall id <- rows :: rows[id].retryAt.Some? ==> WithinJitter(rows[id].attempt, rows[id].retryAt.value - rows[id].createdAt)
  }

  lemma DelayedNext(s: System, step: Step)
    requires Delayed(s.db.rows) && Possible(s, step)
    ensures Delayed(Next(s, step).db.rows)
  {
    hide WithinJitter, NextRetryDelay;
    if step.Finish? {
      var f, now, random := s.queues[step.queue][0], step.now, step.random;
      assert WithinJitter(f.attempt, now + NextRetryDelay(f.attempt, random) - now) by {
        DelayIsWithinJitter(f.attempt, random);
      }
    }
  }

  lemma DelayIsWithinJitter(attempt: nat, random: Random)
    ensures WithinJitter(attempt, NextRetryDelay(attempt, random))
  {
  }

  lemma {:induction false} DelayedExec(maxRetries: nat, steps: seq<Step>)
    ensures Delayed(Exec(maxRetries, steps).db.rows)
  {
    if steps != [] {
      var before, step := steps[..|steps| - 1], steps[|steps| - 1];
      DelayedExec(maxRetries, before);
      if Possible(Exec(maxRetries, before), step) {
        DelayedNext(Exec(maxRetries, before), step);
      }
    }
  }

  /**
    A retry run takes scheduled rows of enabled webhooks whose time has come, 50 at most; it leaves such a row behind
    only after taking 50. What it takes becomes the next attempts, and nothing but the schedule of those rows changes.
    */
  lemma RetryRunTakesWhatIsDue(s: System, now: int, pending: seq<nat>)
    requires Possible(s, BeginRetries(now, pending))
    ensures
      var s' := Next(s, BeginRetries(now, pending));
      && |pending| <= 50 && s'.db.hooks == s.db.hooks && s'.db.log == s.db.log && s'.db.rows.Keys == s.db.rows.Keys
      && (forall i :: 0 <= i < |pending| ==>
            var id := pending[i];
            && id in s.db.rows && s.db.rows[id].retryAt.Some? && s.db.rows[id].retryAt.value <= now
            && s.db.rows[id].webhook in s.db.hooks && s.db.hooks[s.db.rows[id].webhook].enabled
            && s'.db.rows[id] == s.db.rows[id].(retryAt := None))
      && (forall id <- s.db.rows :: id !in pending ==> s'.db.rows[id] == s.db.rows[id])
      && (forall id <- s'.db.rows ::
            (var row := s'.db.rows[id];
             row.retryAt.Some? && row.retryAt.value <= now && row.webhook in s'.db.hooks && s'.db.hooks[row.webhook].enabled)
            ==> |pending| == 50)
      && |s'.queues| == |s.queues| + 1 && s'.queues[..|s.queues|] == s.queues && |s'.queues[|s.queues|]| == |pending|
      && (forall i :: 0 <= i < |pending| ==>
            var row := s.db.rows[pending[i]];
            s'.queues[|s.queues|][i] == Flight(row.webhook, row.attempt + 1, Some(pending[i]), true))
  {
    forall i | 0 <= i < |pending|
      ensures Due(s.db, now, pending[i])
    {
      assert pending[i] in pending;
    }
  }

  /** No retry run picks a delivery before its backoff, less the jitter, is over. */
  lemma RetriesWaitForBackoff(maxRetries: nat, steps: seq<Step>, now: int, pending: seq<nat>, id: nat)
    requires Possible(Exec(maxRetries, steps), BeginRetries(now, pending)) && id in pending
    ensures var row := Exec(maxRetries, steps).db.rows[id];
      row.createdAt as real + Base(row.attempt) as real * 0.8 - 0.5 <= now as real
  {
    DelayedExec(maxRetries, steps);
  }

  // ---------------------------------------------------------------------------
  // How many deliveries retrying can add

  ghost function AtAttempt(log: seq<Event>, attempt: nat): set<int> {
    set i | 0 <= i < |log| && Auto(log, i) && log[i].flight.attempt == attempt
  }

  ghost function AutoDeliveries(log: seq<Event>): set<int> {
    set i | 0 <= i < |log| && Auto(log, i)
  }

  ghost function FirstDeliveries(log: seq<Event>): set<int> {
    set i | 0 <= i < |log| && Auto(log, i) && log[i].flight.parent == None
  }

  ghost function BelowAttempt(log: seq<Event>, attempt: nat): set<int> {
    set i | 0 <= i < |log| && Auto(log, i) && log[i].flight.attempt < attempt
  }

  /** An injective image inside `b` makes `a` no larger than `b`. */
  lemma {:induction false} InjectionBound<X, Y>(a: set<X>, b: set<Y>, f: X -> Y)
    requires forall x <- a :: f(x) in b
    requires forall x, y :: x in a && y in a && x != y ==> f(x) != f(y)
    ensures |a| <= |b|
  {
    if a != {} {
      var x :| x in a;
      InjectionBound(a - {x}, b - {f(x)}, f);
    }
  }

  lemma {:induction false} AttemptsShrink(maxRetries: nat, log: seq<Event>, attempt: nat)
    requires LogLinked(maxRetries, log) && OneChild(log)
    ensures |AtAttempt(log, attempt)| <= |FirstDeliveries(log)|
  {
    if attempt == 0 {
      assert AtAttempt(log, 0) <= FirstDeliveries(log);
      InjectionBound(AtAttempt(log, 0), FirstDeliveries(log), x => x);
    } else {
      AttemptsShrink(maxRetries, log, attempt - 1);
      var parent := i => if 0 <= i < |log| && Auto(log, i) && log[i].flight.parent.Some? then log[i].flight.parent.value as int else -1;
      forall x <- AtAttempt(log, attempt)
        ensures ChildOf(log, x, parent(x)) && parent(x) in AtAttempt(log, attempt - 1)
      {
      }
      InjectionBound(AtAttempt(log, attempt), AtAttempt(log, attempt - 1), parent);
    }
  }

  lemma {:induction false} DeliveriesBelow(maxRetries: nat, log: seq<Event>, attempt: nat)
    requires LogLinked(maxRetries, log) && OneChild(log)
    ensures |BelowAttempt(log, attempt)| <= attempt * |FirstDeliveries(log)|
  {
    hide LogLinked, OneChild;
    if attempt == 0 {
      assert BelowAttempt(log, 0) == {};
    } else {
      var n := |FirstDeliveries(log)|;
      DeliveriesBelow(maxRetries, log, attempt - 1);
      AttemptsShrink(maxRetries, log, attempt - 1);
      assert BelowAttempt(log, attempt) == BelowAttempt(log, attempt - 1) + AtAttempt(log, attempt - 1);
      assert attempt * n == (attempt - 1) * n + n;
    }
  }

  /** Retrying multiplies the first deliveries by MAX_RETRIES at most, in every run. */
  lemma RetriesAreBounded(maxRetries: nat, steps: seq<Step>)
    requires maxRetries >= 1
    ensures var log := Exec(maxRetries, steps).db.log;
      |AutoDeliveries(log)| <= maxRetries * |FirstDeliveries(log)|
  {
    var log := Exec(maxRetries, steps).db.log;
    ChainInvExec(maxRetries, steps);
    assert AutoDeliveries(log) == BelowAttempt(log, maxRetries);
    DeliveriesBelow(maxRetries, log, maxRetries);
  }

  /** `k` attempts of one chain of webhook 0 have failed, and nothing else has happened. */
  ghost predicate OneFailingChain(s: System, m: nat, k: nat) {
    && s.maxRetries == m && 1 <= k <= m
    && s.db.hooks == map[0 := Hook(k < m, k)]
    && |s.queues| == k && (forall q :: 0 <= q < k ==> s.queues[q] == [])
    && |s.db.log| == k
    && (forall i :: 0 <= i < k ==> Auto(s.db.log, i) && (s.db.log[i].flight.parent == None <==> i == 0))
    && k - 1 in s.db.rows && s.db.rows[k - 1].webhook == 0 && s.db.rows[k - 1].attempt == k - 1
    && (k < m ==> s.db.rows[k - 1].retryAt.Some? && s.db.rows[k - 1].retryAt.value > s.db.rows[k - 1].createdAt)
    && (forall id <- s.db.rows :: id < k && s.db.rows[id].createdAt <= s.db.rows[k - 1].createdAt)
    && (forall id <- s.db.rows :: id != k - 1 ==> s.db.rows[id].retryAt == None)
  }

  ghost function After(s: System, step: Step): System {
    if Possible(s, step) then Next(s, step) else s
  }

  lemma ExecSnoc(m: nat, steps: seq<Step>, step: Step)
    ensures Exec(m, steps + [step]) == After(Exec(m, steps), step)
  {
    assert (steps + [step])[..|steps|] == steps;
  }

  lemma FirstFailure(m: nat) returns (steps: seq<Step>)
    requires m >= 1
    ensures OneFailingChain(Exec(m, steps), m, 1)
  {
    hide NextRetryDelay, Exec;
    EmptyRun(m);
    var created, fired := Start(m).(db := Store(map[0 := Hook(true, 0)], map[], []), nextHook := 1), Flight(0, 0, None, true);
    ExecSnoc(m, [], CreateHook);
    assert map[][0 := Hook(true, 0)] == map[0 := Hook(true, 0)];
    assert Exec(m, [] + [CreateHook]) == created;
    ExecSnoc(m, [] + [CreateHook], Fire(0));
    var s := created.(queues := [[fired]]);
    assert Exec(m, [] + [CreateHook] + [Fire(0)]) == s;
    steps := NextFailure(m, [] + [CreateHook] + [Fire(0)], s, 0, 0);
  }

  lemma EmptyRun(m: nat)
    ensures Exec(m, []) == Start(m)
  {
  }

  /** The `k`-th retry of the chain, or its first attempt, is under way in the last queue; now it fails. */
  lemma NextFailure(m: nat, before: seq<Step>, s: System, k: nat, now: int) returns (steps: seq<Step>)
    requires Exec(m, before) == s && s.maxRetries == m && k < m
    requires s.db.hooks == map[0 := Hook(true, k)]
    requires |s.queues| == k + 1 && (forall q :: 0 <= q < k ==> s.queues[q] == [])
    requires s.queues[k] == [Flight(0, k, if k == 0 then None else Some(k - 1), true)]
    requires |s.db.log| == k
    requires forall i :: 0 <= i < k ==> Auto(s.db.log, i) && (s.db.log[i].flight.parent == None <==> i == 0)
    requires forall id <- s.db.rows :: id < k && s.db.rows[id].createdAt < now && s.db.rows[id].retryAt == None
    ensures OneFailingChain(Exec(m, steps), m, k + 1)
  {
    hide Exec;
    var f := s.queues[k][0];
    var rows := s.db.rows[k := Row(0, k, None, now)];
    var newest := NewestExists(rows, 0);
    LatestIsNewest(rows, k, newest);
    var step := Finish(k, false, now, 0.0, newest);
    steps := before + [step];
    ExecSnoc(m, before, step);
    var s' := Finished(s, k, false, now, 0.0, newest);
    assert Exec(m, steps) == s';
    DelayIsPositive(k);
    hide NextRetryDelay, Newest;
    assert s'.db.hooks == map[0 := Hook(k + 1 < m, k + 1)];
    assert s'.db.rows[k].createdAt == now;
  }

  lemma LatestIsNewest(rows: map<nat, Row>, k: nat, kept: set<nat>)
    requires k in rows && Newest(rows, rows[k].webhook, kept)
    requires forall id <- rows :: id != k ==> rows[id].createdAt < rows[k].createdAt
    ensures k in kept
  {
    if |kept| >= KEPT_DELIVERIES {
      var id :| id in kept;
    }
  }

  lemma DelayIsPositive(attempt: nat)
    ensures NextRetryDelay(attempt, 0.0) > 0
  {
    JitterFollowsRandom(attempt, 0.0, 0.0);
  }

  lemma {:induction false} FailingRun(m: nat, k: nat) returns (steps: seq<Step>)
    requires 1 <= k <= m
    ensures OneFailingChain(Exec(m, steps), m, k)
  {
    if k == 1 {
      steps := FirstFailure(m);
    } else {
      var before := FailingRun(m, k - 1);
      hide Exec;
      var s := Exec(m, before);
      var now := s.db.rows[k - 2].retryAt.value;
      var step := BeginRetries(now, [k - 2]);
      ExecSnoc(m, before, step);
      assert Due(s.db, now, k - 2);
      assert Possible(s, step);
      var s' := Next(s, step);
      assert s'.queues[k - 1] == [Flight(0, k - 1, Some(k - 2), true)];
      steps := NextFailure(m, before + [step], s', k - 1, now);
    }
  }

  /**
    For every MAX_RETRIES there is a run in which one first delivery leads to MAX_RETRIES deliveries, all failed, and
    to the webhook being switched off.
    */
  lemma RetryBoundIsReached(maxRetries: nat) returns (steps: seq<Step>)
    requires maxRetries >= 1
    ensures var s := Exec(maxRetries, steps);
      && |FirstDeliveries(s.db.log)| == 1 && |AutoDeliveries(s.db.log)| == maxRetries
      && 0 in s.db.hooks && !s.db.hooks[0].enabled
  {
    steps := FailingRun(maxRetries, maxRetries);
    hide Exec;
    var log := Exec(maxRetries, steps).db.log;
    assert FirstDeliveries(log) == {0};
    AllCounted(log);
  }

  lemma {:induction false} AllCounted(log: seq<Event>)
    requires forall i :: 0 <= i < |log| ==> Auto(log, i)
    ensures |AutoDeliveries(log)| == |log|
  {
    if log != [] {
      var n := |log| - 1;
      assert forall i :: 0 <= i < n ==> Auto(log, i) && Auto(log[..n], i);
      AllCounted(log[..n]);
      assert AutoDeliveries(log) == AutoDeliveries(log[..n]) + {n};
    } else {
      assert AutoDeliveries(log) == {};
    }
  }

  // ---------------------------------------------------------------------------
  // Deliveries outside the breaker, and resets

  /** Test deliveries and manual retries are recorded, but schedule nothing and leave every webhook's counter and switch. */
  lemma ManualDeliveriesDoNotCount(s: System, step: Step, ok: bool, now: int, random: Random, newest: set<nat>)
    requires (step.TestDelivery? || step.ManualRetry?) && Possible(s, step) && forall id <- s.db.rows :: id < |s.db.log|
    requires Possible(Next(s, step), Finish(|s.queues|, ok, now, random, newest))
    ensures var s', n := Next(Next(s, step), Finish(|s.queues|, ok, now, random, newest)), |s.db.log|;
      && s'.db.hooks == s.db.hooks && |s'.db.log| == n + 1 && !Auto(s'.db.log, n)
      && (n in s'.db.rows ==>
            && s'.db.rows[n].retryAt == None
            && (step.TestDelivery? ==> s'.db.rows[n].webhook == step.webhook && s'.db.rows[n].attempt == 0)
            && (step.ManualRetry? ==>
                  s'.db.rows[n].webhook == s.db.rows[step.delivery].webhook && s'.db.rows[n].attempt == s.db.rows[step.delivery].attempt + 1))
  {
  }

  /** A new webhook, and one whose circuit was reset, is on and has no failures behind it. */
  lemma ResetStartsAnew(maxRetries: nat, steps: seq<Step>, step: Step, w: nat)
    requires var s := Exec(maxRetries, steps);
      Possible(s, step) && ((step.UpdateHook? && step.resetCircuit && w == step.webhook) || (step.CreateHook? && w == s.nextHook))
    ensures var s' := Next(Exec(maxRetries, steps), step);
      && w in s'.db.hooks && s'.db.hooks[w].enabled && FailureRun(s'.db.log, w) == 0
      && (step.CreateHook? ==> w !in Exec(maxRetries, steps).db.hooks)
  {
    CounterIsFailureRun(maxRetries, steps);
    CounterInvNext(Exec(maxRetries, steps), step);
  }

  // ---------------------------------------------------------------------------
  // The circuit breaker

  /** The length of the run of failed deliveries of `w` that ends the log; a success or a reset starts a new run. */
  function FailureRun(log: seq<Event>, w: nat): nat {
    if log == [] then 0
    else
      var before := log[..|log| - 1];
      match log[|log| - 1]
      case Recorded(f, ok, _) =>
        if f.webhook != w || !f.allowRetry then FailureRun(before, w)
        else if ok then 0
        else FailureRun(before, w) + 1
      case Reset(v) => if v == w then 0 else FailureRun(before, w)
  }

  function WebhookOf(e: Event): nat {
    match e
    case Recorded(f, _, _) => f.webhook
    case Reset(w) => w
  }

  ghost predicate CounterInv(s: System) {
    && (forall w <- s.db.hooks :: w < s.nextHook && s.db.hooks[w].failures == FailureRun(s.db.log, w))
    && (forall e <- s.db.log :: WebhookOf(e) < s.nextHook)
  }

  lemma {:induction false} NoRunForNewWebhook(log: seq<Event>, w: nat)
    requires forall e <- log :: WebhookOf(e) != w
    ensures FailureRun(log, w) == 0
  {
    if log != [] {
      assert log[|log| - 1] in log;
      NoRunForNewWebhook(log[..|log| - 1], w);
    }
  }

  lemma FailureRunAppend(log: seq<Event>, e: Event, w: nat)
    ensures FailureRun(log + [e], w) ==
      if e == Reset(w) then 0
      else if e.Reset? || e.flight.webhook != w || !e.flight.allowRetry then FailureRun(log, w)
      else if e.ok then 0 else FailureRun(log, w) + 1
  {
    assert (log + [e])[..|log|] == log;
  }

  lemma CounterInvNext(s: System, step: Step)
    requires CounterInv(s) && Possible(s, step)
    ensures CounterInv(Next(s, step))
  {
    var s' := Next(s, step);
    var n := |s.db.log|;
    if s'.db.log == s.db.log {
      if step.CreateHook? {
        NoRunForNewWebhook(s.db.log, s.nextHook);
      }
    } else {
      assert |s'.db.log| == n + 1 && s'.db.log[..n] == s.db.log;
      forall w <- s'.db.hooks {
        FailureRunAppend(s.db.log, s'.db.log[n], w);
      }
    }
  }

  /** In every run, `consecutive_failures` is the length of the current run of failures. */
  lemma {:induction false} CounterIsFailureRun(maxRetries: nat, steps: seq<Step>)
    ensures CounterInv(Exec(maxRetries, steps))
  {
    if steps != [] {
      var before, step := steps[..|steps| - 1], steps[|steps| - 1];
      CounterIsFailureRun(maxRetries, before);
      if Possible(Exec(maxRetries, before), step) {
        CounterInvNext(Exec(maxRetries, before), step);
      }
    }
  }

  /**
    A finished delivery switches its webhook off exactly when it failed, was the last attempt allowed,
    and the run of failures it ends has reached MAX_RETRIES. Other webhooks keep their switch.
    */
  lemma TripsExactlyAfterRun(maxRetries: nat, steps: seq<Step>, q: nat, ok: bool, now: int, random: Random, newest: set<nat>, w: nat)
    requires Possible(Exec(maxRetries, steps), Finish(q, ok, now, random, newest))
    requires w in Exec(maxRetries, steps).db.hooks && Exec(maxRetries, steps).db.hooks[w].enabled
    ensures
      var s := Exec(maxRetries, steps);
      var f, s' := s.queues[q][0], Finished(s, q, ok, now, random, newest);
      w in s'.db.hooks &&
      (!s'.db.hooks[w].enabled <==>
        f.webhook == w && f.allowRetry && !ok && f.attempt >= maxRetries - 1 && FailureRun(s'.db.log, w) >= maxRetries)
  {
    CounterIsFailureRun(maxRetries, steps);
    ChainInvExec(maxRetries, steps);
    var s := Exec(maxRetries, steps);
    var s' := Finished(s, q, ok, now, random, newest);
    CounterInvNext(s, Finish(q, ok, now, random, newest));
  }

  /** The first delivery of the chain that delivery `i` belongs to. */
  function ChainStart(log: seq<Event>, i: nat): (r: nat)
    requires i < |log|
    ensures r <= i
  {
    if Auto(log, i) && log[i].flight.parent.Some? && log[i].flight.parent.value < i
    then ChainStart(log, log[i].flight.parent.value) else i
  }

  /** No success and no reset of `w` at the positions from `lo` up to but not including `hi`. */
  predicate Quiet(log: seq<Event>, w: nat, lo: int, hi: int) {
    forall k :: 0 <= lo <= k < hi && k < |log| ==>
      match log[k]
      case Recorded(f, ok, _) => !(f.webhook == w && f.allowRetry && ok)
      case Reset(v) => v != w
  }

  lemma {:induction false} QuietKeepsRun(log: seq<Event>, w: nat, lo: nat, hi: nat)
    requires lo <= hi <= |log| && Quiet(log, w, lo, hi)
    ensures FailureRun(log[..hi], w) >= FailureRun(log[..lo], w)
    decreases hi
  {
    if lo < hi {
      QuietKeepsRun(log, w, lo, hi - 1);
      assert log[..hi][..hi - 1] == log[..hi - 1];
      assert log[..hi][hi - 1] == log[hi - 1];
    }
  }

  lemma {:induction false} ChainCounts(maxRetries: nat, log: seq<Event>, i: nat)
    requires LogLinked(maxRetries, log)
    requires Auto(log, i) && !log[i].ok
    requires Quiet(log, log[i].flight.webhook, ChainStart(log, i), i)
    ensures FailureRun(log[..i + 1], log[i].flight.webhook) >= log[i].flight.attempt + 1
    decreases i
  {
    var f := log[i].flight;
    assert log[..i + 1][..i] == log[..i];
    if f.parent.Some? {
      var p := f.parent.value;
      ChainCounts(maxRetries, log, p);
      QuietKeepsRun(log, f.webhook, p + 1, i);
    }
  }

  /** Before a retry is recorded, the run of failures has at least as many deliveries as the chain so far. */
  lemma PendingChainCounts(maxRetries: nat, log: seq<Event>, f: Flight)
    requires LogLinked(maxRetries, log) && Links(maxRetries, log, f)
    requires f.parent.Some? ==> Quiet(log, f.webhook, ChainStart(log, f.parent.value), |log|)
    ensures FailureRun(log, f.webhook) >= f.attempt
  {
    if f.parent.Some? {
      var p := f.parent.value;
      ChainCounts(maxRetries, log, p);
      QuietKeepsRun(log, f.webhook, p + 1, |log|);
      assert log[..|log|] == log;
    }
  }

  /**
    A chain that used up its attempts, all failed, with no success and no reset of the webhook since its
    first attempt: the webhook is off when the last attempt has been recorded.
    */
  lemma ExhaustedChainSwitchesOff(maxRetries: nat, steps: seq<Step>, q: nat, now: int, random: Random, newest: set<nat>)
    requires maxRetries >= 1
    requires Possible(Exec(maxRetries, steps), Finish(q, false, now, random, newest))
    requires var s := Exec(maxRetries, steps);
      var f, log := s.queues[q][0], s.db.log;
      && f.allowRetry && f.attempt == maxRetries - 1 && f.webhook in s.db.hooks
      && (f.parent.Some? && f.parent.value < |log| ==> Quiet(log, f.webhook, ChainStart(log, f.parent.value), |log|))
    ensures var s := Exec(maxRetries, steps);
      !Finished(s, q, false, now, random, newest).db.hooks[s.queues[q][0].webhook].enabled
  {
    var s := Exec(maxRetries, steps);
    var f := s.queues[q][0];
    ChainInvExec(maxRetries, steps);
    CounterIsFailureRun(maxRetries, steps);
    PendingChainCounts(maxRetries, s.db.log, f);
  }
}
