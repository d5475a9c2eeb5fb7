/** The gateway's per-address connection limiter: a fixed window of 60 seconds
    and 10 connections, and what it guarantees for every sliding window. */
module RateLimiter {

  type Ip = string

  const MAX_CONN_PER_MINUTE := 10

  /** 60 seconds; times are nanoseconds of a monotonic clock. */
  const RATE_LIMIT_WINDOW := 60_000_000_000

  datatype Entry = Entry(count: int, start: int)

  type Table = map<Ip, Entry>

  datatype Attempt = Attempt(ip: Ip, at: int)

  /** `Instant::duration_since` never goes below zero. */
  function DurationSince(now: int, earlier: int): (d: nat)
  {
    if now >= earlier then now - earlier else 0
  }

  predicate Limited(t: Table, a: Attempt)
  {
    && a.ip in t
    && DurationSince(a.at, t[a.ip].start) < RATE_LIMIT_WINDOW
    && t[a.ip].count >= MAX_CONN_PER_MINUTE
  }

  function Next(t: Table, a: Attempt): Table
  {
    if Limited(t, a) then t
    else if a.ip in t && DurationSince(a.at, t[a.ip].start) < RATE_LIMIT_WINDOW
    then t[a.ip := Entry(t[a.ip].count + 1, t[a.ip].start)]
    else t[a.ip := Entry(1, a.at)]
  }

  class Limiter {
    var table: Table

    constructor ()
      ensures table == map[]
    {
      table := map[];
    }

    method Check(ip: Ip, now: int) returns (limited: bool)
      modifies this`table
      ensures limited == Limited(old(table), Attempt(ip, now))
      ensures table == Next(old(table), Attempt(ip, now))
      ensures limited ==> table == old(table)
      ensures ip in old(table) && now >= old(table)[ip].start + RATE_LIMIT_WINDOW ==> !limited
      ensures limited <==>
        ip in old(table) && now - old(table)[ip].start < 60_000_000_000 && old(table)[ip].count >= 10
      ensures !limited ==>
        table == old(table)[ip :=
          if ip in old(table) && now - old(table)[ip].start < 60_000_000_000
          then Entry(old(table)[ip].count + 1, old(table)[ip].start) else Entry(1, now)]
    {
      if ip in table {
        var e := table[ip];
        if DurationSince(now, e.start) < RATE_LIMIT_WINDOW && e.count >= MAX_CONN_PER_MINUTE {
          limited := true;
        } else if DurationSince(now, e.start) >= RATE_LIMIT_WINDOW {
          table := table[ip := Entry(1, now)];
          limited := false;
        } else {
          table := table[ip := Entry(e.count + 1, e.start)];
          limited := false;
        }
      } else {
        table := table[ip := Entry(1, now)];
        limited := false;
      }
    }
  }

  // ----- traces ------------------------------------------------------------

  function After(trace: seq<Attempt>): Table
    decreases |trace|
  {
    if trace == [] then map[] else Next(After(trace[..|trace| - 1]), trace[|trace| - 1])
  }

  ghost predicate NonDecreasing(trace: seq<Attempt>)
  {
    forall i, j :: 0 <= i < j < |trace| ==> trace[i].at <= trace[j].at
  }

  /** How many attempts of `ip` at times in [from, from + 60 s) were let through. */
  function Passed(trace: seq<Attempt>, ip: Ip, from: int): (n: nat)
    decreases |trace|
  {
    if trace == [] then 0
    else
      var init, a := trace[..|trace| - 1], trace[|trace| - 1];
      Passed(init, ip, from) +
      if a.ip == ip && from <= a.at < from + 60_000_000_000 && !Limited(After(init), a) then 1 else 0
  }

  /** The counter never exceeds the limit, the window never starts in the
      future, and together they bound what has passed since `from`. */
  ghost predicate Inv(trace: seq<Attempt>, ip: Ip, from: int)
  {
    var t, n := After(trace), Passed(trace, ip, from);
    if ip !in t then n == 0
    else
      var e := t[ip];
      && 1 <= e.count <= MAX_CONN_PER_MINUTE
      && trace != [] && e.start <= trace[|trace| - 1].at
      && (trace[|trace| - 1].at < from ==> n == 0)
      && (e.start < from ==> n <= e.count - 1)
      && (from <= e.start < from + RATE_LIMIT_WINDOW ==> n <= MAX_CONN_PER_MINUTE - 1 + e.count)
      && n <= 2 * MAX_CONN_PER_MINUTE - 1
  }

  lemma {:induction false} InvHolds(trace: seq<Attempt>, ip: Ip, from: int)
    requires NonDecreasing(trace)
    ensures Inv(trace, ip, from)
    decreases |trace|
  {
    if trace != [] {
      var init, a := trace[..|trace| - 1], trace[|trace| - 1];
      assert forall i :: 0 <= i < |init| ==> init[i] == trace[i];
      InvHolds(init, ip, from);
      assert init != [] ==> init[|init| - 1].at <= a.at;
      assert After(trace) == Next(After(init), a);
    }
  }

  /** Any 60-second interval lets at most 19 connections of one address through,
      whatever the other addresses do. */
  lemma SlidingWindowBound(trace: seq<Attempt>, ip: Ip, from: int)
    requires NonDecreasing(trace)
    ensures Passed(trace, ip, from) <= 19
  {
    InvHolds(trace, ip, from);
  }

  // ----- the bound is reached ----------------------------------------------

  function Burst(a: Attempt, n: nat): (s: seq<Attempt>)
    ensures |s| == n && forall i :: 0 <= i < n ==> s[i] == a
  {
    seq(n, _ => a)
  }

  lemma OneMore(trace: seq<Attempt>, a: Attempt, from: int)
    ensures After(trace + [a]) == Next(After(trace), a)
    ensures Passed(trace + [a], a.ip, from) == Passed(trace, a.ip, from) +
      if from <= a.at < from + RATE_LIMIT_WINDOW && !Limited(After(trace), a) then 1 else 0
  {
    assert (trace + [a])[..|trace|] == trace;
  }

  /** `n` attempts at one instant pass together while the window has room. */
  lemma {:induction false} BurstPasses(trace: seq<Attempt>, a: Attempt, n: nat, from: int)
    requires a.ip in After(trace)
    requires DurationSince(a.at, After(trace)[a.ip].start) < RATE_LIMIT_WINDOW
    requires After(trace)[a.ip].count + n <= MAX_CONN_PER_MINUTE
    ensures After(trace + Burst(a, n)) ==
            After(trace)[a.ip := Entry(After(trace)[a.ip].count + n, After(trace)[a.ip].start)]
    ensures Passed(trace + Burst(a, n), a.ip, from) ==
            Passed(trace, a.ip, from) + if from <= a.at < from + RATE_LIMIT_WINDOW then n else 0
    decreases n
  {
    hide After, Passed, Burst;
    if n == 0 {
      assert trace + Burst(a, n) == trace;
    } else {
      var shorter := trace + Burst(a, n - 1);
      assert trace + Burst(a, n) == shorter + [a];
      BurstPasses(trace, a, n - 1, from);
      OneMore(shorter, a, from);
    }
  }

  lemma Nothing(ip: Ip, from: int)
    ensures After([]) == map[] && Passed([], ip, from) == 0
  {
  }

  /** One connection, nine more just before the window closes, ten just after. */
  function WorstTrace(ip: Ip): seq<Attempt>
  {
    [Attempt(ip, 0)] + Burst(Attempt(ip, RATE_LIMIT_WINDOW - 1), MAX_CONN_PER_MINUTE - 1)
      + [Attempt(ip, RATE_LIMIT_WINDOW)] + Burst(Attempt(ip, RATE_LIMIT_WINDOW), MAX_CONN_PER_MINUTE - 1)
  }

  lemma BoundIsReached(ip: Ip)
    ensures NonDecreasing(WorstTrace(ip))
    ensures Passed(WorstTrace(ip), ip, 59_999_999_999) == 19
  {
    hide After, Passed, Burst;
    var from := RATE_LIMIT_WINDOW - 1;
    var first := [Attempt(ip, 0)];
    OneMore([], Attempt(ip, 0), from);
    Nothing(ip, from);
    assert [] + first == first;
    BurstPasses(first, Attempt(ip, from), 9, from);
    var second := first + Burst(Attempt(ip, from), 9);
    var third := second + [Attempt(ip, RATE_LIMIT_WINDOW)];
    OneMore(second, Attempt(ip, RATE_LIMIT_WINDOW), from);
    assert ip in After(third) && After(third)[ip] == Entry(1, RATE_LIMIT_WINDOW);
    BurstPasses(third, Attempt(ip, RATE_LIMIT_WINDOW), 9, from);
  }

  // ----- addresses do not disturb each other -------------------------------

  function Only(trace: seq<Attempt>, ip: Ip): (r: seq<Attempt>)
    decreases |trace|
  {
    if trace == [] then []
    else Only(trace[..|trace| - 1], ip) + if trace[|trace| - 1].ip == ip then [trace[|trace| - 1]] else []
  }

  /** The decision for an address depends on that address's own attempts alone. */
  lemma {:induction false} AddressesAreIndependent(trace: seq<Attempt>, ip: Ip, now: int)
    ensures ip in After(trace) <==> ip in After(Only(trace, ip))
    ensures ip in After(trace) ==> After(trace)[ip] == After(Only(trace, ip))[ip]
    ensures Limited(After(trace), Attempt(ip, now)) <==> Limited(After(Only(trace, ip)), Attempt(ip, now))
    decreases |trace|
  {
    if trace != [] {
      var init, a := trace[..|trace| - 1], trace[|trace| - 1];
      AddressesAreIndependent(init, ip, now);
      var own := Only(trace, ip);
      if a.ip == ip {
        assert own[..|own| - 1] == Only(init, ip);
      } else {
        assert own == Only(init, ip);
      }
    }
  }
}
