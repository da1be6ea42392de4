/** The fixed-window rate limiter of src/lib/rate-limit.ts, with the sweep that runs beside it. */
module RateLimit {
  import opened Wrappers

  datatype Entry = Entry(count: nat, resetAt: int)

  datatype Options = Options(windowMs: nat, maxRequests: int)

  type Table = map<string, Entry>

  /** The entry that still counts at time `now`. */
  function Live(store: Table, ip: string, now: int): Option<Entry> {
    if ip in store && now <= store[ip].resetAt then Some(store[ip]) else None
  }

  /** The entry that a request at time `now` leaves behind. */
  function After(options: Options, live: Option<Entry>, now: int): Entry {
    match live
    case None => Entry(1, now + options.windowMs)
    case Some(e) => Entry(e.count + 1, e.resetAt)
  }

  predicate Admitted(options: Options, live: Option<Entry>) {
    live == None || live.value.count + 1 <= options.maxRequests
  }

  function Swept(store: Table, now: int): Table {
    map ip | ip in store && now <= store[ip].resetAt :: store[ip]
  }

  class RateLimiter {
    const options: Options
    const critical: bool
    var store: Table

    constructor (options: Options, critical: bool)
      ensures this.options == options && this.critical == critical && store == map[]
    {
      this.options, this.critical, store := options, critical, map[];
    }

    /** `disabled` is the environment switch that only limiters which are not critical obey. */
    method Check(ip: string, now: int, disabled: bool) returns (admitted: bool)
      modifies this
      ensures disabled && !critical ==> admitted && store == old(store)
      ensures !(disabled && !critical) ==>
        var live := Live(old(store), ip, now);
        admitted == Admitted(options, live) && store == old(store)[ip := After(options, live, now)]
    {
      if disabled && !critical {
        return true;
      }
      if ip !in store || now > store[ip].resetAt {
        store := store[ip := Entry(1, now + options.windowMs)];
        return true;
      }
      store := store[ip := store[ip].(count := store[ip].count + 1)];
      return store[ip].count <= options.maxRequests;
    }

    method Sweep(now: int)
      modifies this
      ensures store == Swept(old(store), now)
    {
      var keys := store.Keys;
      while keys != {}
        invariant keys <= old(store).Keys
        invariant store == map ip | ip in old(store) && (ip in keys || now <= old(store)[ip].resetAt) :: old(store)[ip]
      {
        var key :| key in keys;
        if now > store[key].resetAt {
          store := store - {key};
        }
        keys := keys - {key};
      }
    }
  }

  // ---------------------------------------------------------------------------
  // Runs

  datatype Event = Request(ip: string, now: int) | Sweep(now: int)

  datatype Decision = Decision(ip: string, now: int, admitted: bool)

  function Decisions(options: Options, store: Table, events: seq<Event>): seq<Decision>
    decreases |events|
  {
    if events == [] then []
    else
      match events[0]
      case Sweep(now) => Decisions(options, Swept(store, now), events[1..])
      case Request(ip, now) =>
        var live := Live(store, ip, now);
        [Decision(ip, now, Admitted(options, live))] +
        Decisions(options, store[ip := After(options, live, now)], events[1..])
  }

  /** The clock never goes back. */
  predicate Monotone(events: seq<Event>) {
    |events| < 2 || (events[0].now <= events[1].now && Monotone(events[1..]))
  }

  function Requests(events: seq<Event>): seq<Event> {
    if events == [] then []
    else if events[0].Sweep? then Requests(events[1..])
    else [events[0]] + Requests(events[1..])
  }

  function RequestsOf(events: seq<Event>, ip: string): seq<Event> {
    if events == [] then []
    else if events[0].Request? && events[0].ip == ip then [events[0]] + RequestsOf(events[1..], ip)
    else RequestsOf(events[1..], ip)
  }

  function DecisionsOf(ds: seq<Decision>, ip: string): seq<Decision> {
    if ds == [] then []
    else if ds[0].ip == ip then [ds[0]] + DecisionsOf(ds[1..], ip)
    else DecisionsOf(ds[1..], ip)
  }

  /** From time `now` on, two tables are as good as equal for a client. */
  predicate Same(a: Table, b: Table, ip: string, now: int) {
    Live(a, ip, now) == Live(b, ip, now)
  }

  lemma {:induction false} SweepInvisibleFrom(options: Options, swept: Table, unswept: Table, events: seq<Event>)
    requires Monotone(events)
    requires events != [] ==> forall ip :: Same(swept, unswept, ip, events[0].now)
    ensures Decisions(options, swept, events) == Decisions(options, unswept, Requests(events))
    decreases |events|
  {
    if events != [] {
      var now, rest := events[0].now, events[1..];
      var swept' := if events[0].Sweep? then Swept(swept, now) else
        swept[events[0].ip := After(options, Live(swept, events[0].ip, now), now)];
      var unswept' := if events[0].Sweep? then unswept else
        unswept[events[0].ip := After(options, Live(unswept, events[0].ip, now), now)];
      if rest != [] {
        forall ip ensures Same(swept', unswept', ip, rest[0].now) {
          assert Same(swept, unswept, ip, now);
        }
      }
      SweepInvisibleFrom(options, swept', unswept', rest);
      if events[0].Request? {
        assert Same(swept, unswept, events[0].ip, now);
        assert Requests(events)[1..] == Requests(rest);
      }
    }
  }

  /** Sweeping, at whatever times, changes no decision. */
  lemma SweepIsInvisible(options: Options, events: seq<Event>)
    requires Monotone(events)
    ensures Decisions(options, map[], events) == Decisions(options, map[], Requests(events))
  {
    SweepInvisibleFrom(options, map[], map[], events);
  }

  lemma {:induction false} IndependentFrom(options: Options, all: Table, own: Table, events: seq<Event>, ip: string)
    requires Monotone(events)
    requires events != [] ==> Same(all, own, ip, events[0].now)
    ensures DecisionsOf(Decisions(options, all, events), ip) == Decisions(options, own, RequestsOf(events, ip))
    decreases |events|
  {
    if events != [] {
      var now, rest := events[0].now, events[1..];
      match events[0]
      case Sweep(_) =>
        IndependentFrom(options, Swept(all, now), own, rest, ip);
      case Request(client, _) =>
        var live := Live(all, client, now);
        var all' := all[client := After(options, live, now)];
        if client == ip {
          var own' := own[ip := After(options, live, now)];
          IndependentFrom(options, all', own', rest, ip);
          assert RequestsOf(events, ip)[1..] == RequestsOf(rest, ip);
        } else {
          IndependentFrom(options, all', own, rest, ip);
        }
        var d := Decision(client, now, Admitted(options, live));
        assert ([d] + Decisions(options, all', rest))[1..] == Decisions(options, all', rest);
    }
  }

  /** What a client is answered depends on its own requests alone, not on other clients or on the sweep. */
  lemma ClientsAreIndependent(options: Options, events: seq<Event>, ip: string)
    requires Monotone(events)
    ensures DecisionsOf(Decisions(options, map[], events), ip) == Decisions(options, map[], RequestsOf(events, ip))
  {
    IndependentFrom(options, map[], map[], events, ip);
  }

  // ---------------------------------------------------------------------------
  // How many requests get through

  /** Admitted requests with a time from `from` to `to`, both included. */
  function AdmittedBetween(ds: seq<Decision>, from: int, to: int): nat {
    if ds == [] then 0
    else (if ds[0].admitted && from <= ds[0].now <= to then 1 else 0) + AdmittedBetween(ds[1..], from, to)
  }

  /** The first request of a window is admitted whatever the limit is. */
  function PerWindow(options: Options): nat {
    if options.maxRequests < 1 then 1 else options.maxRequests
  }

  function Min(a: int, b: int): int {
    if a < b then a else b
  }

  /**
    After `n` admissions in [from, from + windowMs], with the client's entry as given: a window that began before
    `from` has its first request outside; one that began inside can follow only one such window.
    */
  predicate Budget(options: Options, entry: Option<Entry>, from: int, n: nat) {
    var m := PerWindow(options);
    match entry
    case None => n == 0
    case Some(e) =>
      var start := e.resetAt - options.windowMs;
      e.count >= 1 &&
      if start < from then n <= Min(e.count, m) - 1
      else if start <= from + options.windowMs then n <= m - 1 + Min(e.count, m)
      else n <= 2 * m - 1
  }

  lemma CountRequest(options: Options, store: Table, events: seq<Event>, from: int, to: int)
    requires events != [] && events[0].Request?
    ensures var Request(ip, now) := events[0];
      var live := Live(store, ip, now);
      AdmittedBetween(Decisions(options, store, events), from, to) ==
      (if Admitted(options, live) && from <= now <= to then 1 else 0) +
      AdmittedBetween(Decisions(options, store[ip := After(options, live, now)], events[1..]), from, to)
  {
    var ds := Decisions(options, store, events);
    assert ds[1..] == Decisions(options, store[ds[0].ip := After(options, Live(store, ds[0].ip, ds[0].now), ds[0].now)], events[1..]);
  }

  lemma {:induction false} AdmissionsFrom(options: Options, store: Table, events: seq<Event>, ip: string, from: int, n: nat, last: int)
    requires Monotone(events) && (forall e <- events :: e.Request? && e.ip == ip)
    requires events != [] ==> last <= events[0].now
    requires Budget(options, if ip in store then Some(store[ip]) else None, from, n)
    requires ip in store ==> store[ip].resetAt - options.windowMs <= last
    requires n > 0 ==> from <= last
    ensures n + AdmittedBetween(Decisions(options, store, events), from, from + options.windowMs) <= 2 * PerWindow(options) - 1
    decreases |events|
  {
    if events != [] {
      var now, rest := events[0].now, events[1..];
      assert events[0] in events;
      var live := Live(store, ip, now);
      var store' := store[ip := After(options, live, now)];
      var d := Decision(ip, now, Admitted(options, live));
      var n' := n + if d.admitted && from <= now <= from + options.windowMs then 1 else 0;
      AdmissionsFrom(options, store', rest, ip, from, n', now);
      CountRequest(options, store, events, from, from + options.windowMs);
    }
  }

  lemma {:induction false} RequestsOfAreOwn(events: seq<Event>, ip: string)
    requires Monotone(events)
    ensures Monotone(RequestsOf(events, ip))
    ensures forall e <- RequestsOf(events, ip) :: e.Request? && e.ip == ip
    ensures RequestsOf(events, ip) != [] ==> events[0].now <= RequestsOf(events, ip)[0].now
  {
    if events != [] {
      RequestsOfAreOwn(events[1..], ip);
      if events[0].Request? && events[0].ip == ip {
        assert RequestsOf(events, ip)[1..] == RequestsOf(events[1..], ip);
      }
    }
  }

  /** In any closed interval of the window's length, a client gets at most 2 * maxRequests - 1 requests through. */
  lemma AdmissionsAreBounded(options: Options, events: seq<Event>, ip: string, from: int)
    requires Monotone(events)
    ensures AdmittedBetween(DecisionsOf(Decisions(options, map[], events), ip), from, from + options.windowMs)
            <= 2 * PerWindow(options) - 1
  {
    ClientsAreIndependent(options, events, ip);
    RequestsOfAreOwn(events, ip);
    var own := RequestsOf(events, ip);
    AdmissionsFrom(options, map[], own, ip, from, 0, if own == [] then 0 else own[0].now);
  }

  // ---------------------------------------------------------------------------
  // No request is turned away before the limit is used up

  /** How many requests of a client were admitted between two times, both included. */
  function AdmittedOf(ds: seq<Decision>, ip: string, from: int, to: int): nat {
    AdmittedBetween(DecisionsOf(ds, ip), from, to)
  }

  lemma {:induction false} AdmittedSnoc(ds: seq<Decision>, d: Decision, ip: string, from: int, to: int)
    ensures AdmittedOf(ds + [d], ip, from, to) ==
      AdmittedOf(ds, ip, from, to) + if d.ip == ip && d.admitted && from <= d.now <= to then 1 else 0
  {
    if ds == [] {
      assert ds + [d] == [d] && [d][1..] == [];
      assert DecisionsOf([], ip) == [];
      assert d.ip == ip ==> DecisionsOf([d], ip) == [d];
    } else {
      assert (ds + [d])[1..] == ds[1..] + [d];
      AdmittedSnoc(ds[1..], d, ip, from, to);
      if ds[0].ip == ip {
        assert DecisionsOf(ds, ip)[1..] == DecisionsOf(ds[1..], ip);
        assert DecisionsOf(ds + [d], ip)[1..] == DecisionsOf(ds[1..] + [d], ip);
      }
    }
  }

  lemma {:induction false} AdmittedGrows(ds: seq<Decision>, from: int, to: int, from': int, to': int)
    requires from' <= from && to <= to'
    ensures AdmittedBetween(ds, from, to) <= AdmittedBetween(ds, from', to')
  {
    if ds != [] {
      AdmittedGrows(ds[1..], from, to, from', to');
    }
  }

  /** Every entry was opened by time `now`, and what it counts was admitted in its window, up to the limit. */
  ghost predicate CountsAdmitted(options: Options, store: Table, past: seq<Decision>, now: int) {
    forall ip :: ip in store ==>
      && 1 <= store[ip].count
      && store[ip].resetAt - options.windowMs <= now
      && AdmittedOf(past, ip, store[ip].resetAt - options.windowMs, now) >= Min(store[ip].count, PerWindow(options))
  }

  lemma CountsRequest(options: Options, store: Table, past: seq<Decision>, now: int, ip: string, now': int)
    requires CountsAdmitted(options, store, past, now) && now <= now'
    ensures var live := Live(store, ip, now');
      CountsAdmitted(options, store[ip := After(options, live, now')], past + [Decision(ip, now', Admitted(options, live))], now')
  {
    var live := Live(store, ip, now');
    var d, store' := Decision(ip, now', Admitted(options, live)), store[ip := After(options, live, now')];
    forall client | client in store'
      ensures AdmittedOf(past + [d], client, store'[client].resetAt - options.windowMs, now') >= Min(store'[client].count, PerWindow(options))
    {
      var from := store'[client].resetAt - options.windowMs;
      AdmittedSnoc(past, d, client, from, now');
      if client in store {
        AdmittedGrows(DecisionsOf(past, client), from, now, from, now');
      }
    }
  }

  lemma CountsSweep(options: Options, store: Table, past: seq<Decision>, now: int, now': int)
    requires CountsAdmitted(options, store, past, now) && now <= now'
    ensures CountsAdmitted(options, Swept(store, now'), past, now')
  {
    forall client | client in Swept(store, now')
      ensures AdmittedOf(past, client, store[client].resetAt - options.windowMs, now') >= Min(store[client].count, PerWindow(options))
    {
      var from := store[client].resetAt - options.windowMs;
      AdmittedGrows(DecisionsOf(past, client), from, now, from, now');
    }
  }

  lemma {:induction false} RejectedFrom(options: Options, store: Table, events: seq<Event>, past: seq<Decision>, last: int, i: nat)
    requires Monotone(events) && (events != [] ==> last <= events[0].now)
    requires CountsAdmitted(options, store, past, last)
    requires i < |Decisions(options, store, events)| && !Decisions(options, store, events)[i].admitted
    ensures var ds := Decisions(options, store, events);
      AdmittedOf(past + ds[..i], ds[i].ip, ds[i].now - options.windowMs, ds[i].now) >= PerWindow(options)
    decreases |events|
  {
    hide DecisionsOf, AdmittedBetween;
    var ds, rest := Decisions(options, store, events), events[1..];
    match events[0]
    case Sweep(now) =>
      CountsSweep(options, store, past, last, now);
      RejectedFrom(options, Swept(store, now), rest, past, now, i);
    case Request(ip, now) =>
      var live := Live(store, ip, now);
      var store' := store[ip := After(options, live, now)];
      var d := Decision(ip, now, Admitted(options, live));
      assert ds == [d] + Decisions(options, store', rest);
      if i == 0 {
        assert past + ds[..0] == past;
        AdmittedGrows(DecisionsOf(past, ip), store[ip].resetAt - options.windowMs, last, now - options.windowMs, now);
      } else {
        CountsRequest(options, store, past, last, ip, now);
        RejectedFrom(options, store', rest, past + [d], now, i - 1);
        assert past + [d] + Decisions(options, store', rest)[..i - 1] == past + ds[..i];
      }
  }

  /**
    In every run, a request is turned away only after the whole limit of its client's requests was admitted within
    the window's length before it.
    */
  lemma RejectedOnlyWhenUsedUp(options: Options, events: seq<Event>, i: nat)
    requires Monotone(events)
    requires i < |Decisions(options, map[], events)| && !Decisions(options, map[], events)[i].admitted
    ensures var ds := Decisions(options, map[], events);
      AdmittedBetween(DecisionsOf(ds[..i], ds[i].ip), ds[i].now - options.windowMs, ds[i].now)
      >= if options.maxRequests < 1 then 1 else options.maxRequests
  {
    var ds := Decisions(options, map[], events);
    RejectedFrom(options, map[], events, [], events[0].now, i);
    assert [] + ds[..i] == ds[..i];
  }

  // ---------------------------------------------------------------------------
  // The bound is reached

  function Burst(ip: string, now: int, n: nat): (events: seq<Event>)
    ensures |events| == n && forall i :: 0 <= i < n ==> events[i] == Request(ip, now)
  {
    seq(n, i => Request(ip, now))
  }

  /** One request, the rest of its window's allowance at the last moment, and the next window's at once after it. */
  function WorstCase(options: Options, ip: string): seq<Event>
    requires options.maxRequests >= 1
  {
    [Request(ip, 0)] + Burst(ip, options.windowMs, options.maxRequests - 1) +
    Burst(ip, options.windowMs + 1, options.maxRequests)
  }

  /** A burst within the allowance of the running window is admitted as a whole. */
  lemma {:induction false} BurstIsAdmitted(options: Options, store: Table, ip: string, now: int, n: nat, rest: seq<Event>, from: int, to: int)
    requires ip in store && now <= store[ip].resetAt && store[ip].count + n <= options.maxRequests
    requires from <= now <= to
    ensures AdmittedBetween(Decisions(options, store, Burst(ip, now, n) + rest), from, to) ==
      n + AdmittedBetween(Decisions(options, store[ip := Entry(store[ip].count + n, store[ip].resetAt)], rest), from, to)
    decreases n
  {
    var events := Burst(ip, now, n) + rest;
    if n == 0 {
      assert events == rest && store[ip := store[ip]] == store;
    } else {
      assert events[1..] == Burst(ip, now, n - 1) + rest;
      var e := Entry(store[ip].count + 1, store[ip].resetAt);
      BurstIsAdmitted(options, store[ip := e], ip, now, n - 1, rest, from, to);
      assert store[ip := e][ip := Entry(e.count + (n - 1), e.resetAt)] == store[ip := Entry(store[ip].count + n, e.resetAt)];
      CountRequest(options, store, events, from, to);
    }
  }

  lemma {:induction false} MonotoneBySteps(events: seq<Event>)
    requires forall i :: 0 <= i < |events| - 1 ==> events[i].now <= events[i + 1].now
    ensures Monotone(events)
  {
    if |events| >= 2 {
      MonotoneBySteps(events[1..]);
    }
  }

  /** No smaller bound holds: some run of one client has 2 * maxRequests - 1 admissions within the window's length. */
  lemma BoundIsReached(options: Options, ip: string)
    requires options.maxRequests >= 1 && options.windowMs >= 1
    ensures Monotone(WorstCase(options, ip))
    ensures AdmittedBetween(Decisions(options, map[], WorstCase(options, ip)), 1, 1 + options.windowMs) == 2 * options.maxRequests - 1
  {
    hide Decisions, AdmittedBetween;
    var w, m, events := options.windowMs, options.maxRequests, WorstCase(options, ip);
    MonotoneBySteps(events);
    var later := Burst(ip, w + 1, m);
    assert events[1..] == Burst(ip, w, m - 1) + later;
    CountRequest(options, map[], events, 1, 1 + w);
    BurstIsAdmitted(options, map[ip := Entry(1, w)], ip, w, m - 1, later, 1, 1 + w);

    var full := map[ip := Entry(1, w)][ip := Entry(m, w)];
    var second := full[ip := Entry(1, 2 * w + 1)];
    assert later[1..] == Burst(ip, w + 1, m - 1) + [];
    CountRequest(options, full, later, 1, 1 + w);
    BurstIsAdmitted(options, second, ip, w + 1, m - 1, [], 1, 1 + w);
    NoneAdmitted(options, second[ip := Entry(m, 2 * w + 1)], 1, 1 + w);
  }

  lemma NoneAdmitted(options: Options, store: Table, from: int, to: int)
    ensures AdmittedBetween(Decisions(options, store, []), from, to) == 0
  {
  }
}
