/** The API gateway's load balancer: a sorted service set, and a round-robin
    counter that lives in a machine word. */
module LoadBalancer {
  import opened Text
  import opened Wrappers

  /** `AtomicUsize::fetch_add` wraps here. */
  const WORD := 0x1_0000_0000_0000_0000

  /** A set iterated in ascending order, without repeats. */
  ghost predicate Ascending(s: seq<string>)
  {
    forall i, j :: 0 <= i < j < |s| ==> Less(s[i], s[j])
  }

  class Balancer {
    var services: seq<string>
    var counter: nat

    ghost predicate Valid()
      reads this
    {
      Ascending(services) && counter < WORD
    }

    constructor ()
      ensures Valid() && services == [] && counter == 0
    {
      services, counter := [], 0;
    }

    /** `RoundRobin::index`. */
    method Index(count: nat) returns (index: nat)
      requires count > 0 && counter < WORD
      modifies this`counter
      ensures index == old(counter) % count
      ensures counter == (old(counter) + 1) % WORD
    {
      var current := counter;
      counter := if counter + 1 == WORD then 0 else counter + 1;
      index := current % count;
    }

    method GetService() returns (r: Option<string>)
      requires Valid()
      modifies this`counter
      ensures Valid()
      ensures r.None? <==> services == []
      ensures r.Some? ==> r.value == services[old(counter) % |services|] && counter == (old(counter) + 1) % WORD
      ensures r.None? ==> counter == old(counter)
    {
      if |services| == 0 { return None; }
      var c := Index(|services|);
      DivIs(c, |services|, 0);
      r := Some(services[c % |services|]);
    }

    /** `k` requests in a row: how often each service was picked. */
    method Serve(k: nat) returns (picks: seq<string>)
      requires Valid() && services != []
      modifies this`counter
      ensures Valid() && |picks| == k
      ensures forall h :: 0 <= h < k ==> picks[h] == services[Pick(old(counter), h, |services|)]
      ensures forall j :: 0 <= j < |services| ==> multiset(picks)[services[j]] == Hits(old(counter), k, |services|, j)
      ensures old(counter) + k <= WORD ==>
        forall j :: 0 <= j < |services| ==> FairShare(multiset(picks)[services[j]], k, |services|)
    {
      hide Hits, FairShare, Ascending, Pick;
      picks := [];
      ghost var c := counter;
      for i := 0 to k
        invariant Valid() && counter == (c + i) % WORD && |picks| == i
        invariant forall h :: 0 <= h < i ==> picks[h] == services[Pick(c, h, |services|)]
      {
        var r := GetService();
        NextCounter(c + i);
        PickIs(c, i, |services|);
        picks := picks + [r.value];
      }
      PicksFair(services, picks, c);
    }

    /** One event of the subscription: the address comes up or goes down. */
    method Apply(addr: string, up: bool)
      requires Valid()
      modifies this`services
      ensures Valid()
      ensures forall s :: s in services <==> (if s == addr then up else s in old(services))
    {
      var i := 0;
      while i < |services| && Less(services[i], addr)
        invariant 0 <= i <= |services|
        invariant forall j :: 0 <= j < i ==> Less(services[j], addr)
      {
        i := i + 1;
      }
      var present := i < |services| && services[i] == addr;
      Position(services, addr, i);
      if up && !present {
        InsertedAscends(services, addr, i);
        services := services[..i] + [addr] + services[i..];
      } else if !up && present {
        services := services[..i] + services[i + 1..];
      }
    }
  }

  lemma AscendingDistinct(s: seq<string>)
    requires Ascending(s)
    ensures forall i, j :: 0 <= i < j < |s| ==> s[i] != s[j]
  {
    forall i, j | 0 <= i < j < |s| ensures s[i] != s[j] { LessIrreflexive(s[i]); }
  }

  /** The scan stops at the address's place: everything after it is greater. */
  lemma Position(s: seq<string>, addr: string, i: nat)
    requires Ascending(s) && i <= |s|
    requires forall j :: 0 <= j < i ==> Less(s[j], addr)
    requires i < |s| ==> !Less(s[i], addr)
    ensures addr in s <==> i < |s| && s[i] == addr
    ensures forall j :: i <= j < |s| && s[i] != addr ==> Less(addr, s[j])
    ensures forall j :: i < j < |s| ==> s[j] != addr
  {
    forall j | 0 <= j < i ensures s[j] != addr { LessIrreflexive(addr); }
    if i < |s| {
      LessTotal(s[i], addr);
      forall j | i < j < |s|
        ensures s[j] != addr && (s[i] != addr ==> Less(addr, s[j]))
      {
        if s[i] != addr {
          LessTransitive(addr, s[i], s[j]);
        }
        LessIrreflexive(addr);
      }
    }
  }

  lemma InsertedAscends(s: seq<string>, addr: string, i: nat)
    requires Ascending(s) && i <= |s|
    requires forall j :: 0 <= j < i ==> Less(s[j], addr)
    requires forall j :: i <= j < |s| ==> Less(addr, s[j])
    ensures Ascending(s[..i] + [addr] + s[i..])
  {
  }

  // ----- fairness ----------------------------------------------------------

  /** The index picked by request number `i` after the counter stood at `c`. */
  function Pick(c: nat, i: nat, n: nat): (p: nat)
    requires n > 0
    ensures p < n
  {
    ((c + i) % WORD) % n
  }

  lemma PickIs(c: nat, i: nat, n: nat)
    requires n > 0
    ensures Pick(c, i, n) == ((c + i) % WORD) % n
  {
  }

  /** How often index `j` is picked in `k` consecutive requests. */
  function Hits(c: nat, k: nat, n: nat, j: nat): nat
    requires n > 0
  {
    if k == 0 then 0 else Hits(c, k - 1, n, j) + if Pick(c, k - 1, n) == j then 1 else 0
  }

  lemma NextCounter(x: nat)
    ensures (x + 1) % WORD == (x % WORD + 1) % WORD
  {
  }

  lemma {:induction false} PicksCount(services: seq<string>, picks: seq<string>, c: nat, j: nat)
    requires Ascending(services) && j < |services|
    requires forall h :: 0 <= h < |picks| ==> picks[h] == services[Pick(c, h, |services|)]
    ensures multiset(picks)[services[j]] == Hits(c, |picks|, |services|, j)
    decreases |picks|
  {
    if picks != [] {
      hide Pick;
      var last := |picks| - 1;
      PicksCount(services, picks[..last], c, j);
      assert picks == picks[..last] + [picks[last]];
      AscendingDistinct(services);
    }
  }

  lemma PicksFair(services: seq<string>, picks: seq<string>, c: nat)
    requires Ascending(services) && services != []
    requires forall h :: 0 <= h < |picks| ==> picks[h] == services[Pick(c, h, |services|)]
    ensures forall j :: 0 <= j < |services| ==> multiset(picks)[services[j]] == Hits(c, |picks|, |services|, j)
    ensures c + |picks| <= WORD ==>
      forall j :: 0 <= j < |services| ==> FairShare(multiset(picks)[services[j]], |picks|, |services|)
  {
    hide Hits, FairShare, Ascending, Pick;
    forall j | 0 <= j < |services|
      ensures multiset(picks)[services[j]] == Hits(c, |picks|, |services|, j)
      ensures c + |picks| <= WORD ==> FairShare(Hits(c, |picks|, |services|, j), |picks|, |services|)
    {
      PicksCount(services, picks, c, j);
      if c + |picks| <= WORD { RoundRobinFair(c, |picks|, |services|, j); }
    }
  }

  predicate FairShare(hits: nat, k: nat, n: nat)
    requires n > 0
  {
    k / n <= hits <= (k + n - 1) / n
  }

  lemma DivIs(a: int, n: int, q: int)
    requires n > 0 && q * n <= a < q * n + n
    ensures a / n == q && a % n == a - q * n
  {
    var d := a / n;
    assert a == d * n + a % n;
    Scaled(q + 1, d, n);
    Scaled(d + 1, q, n);
  }

  lemma Scaled(x: int, y: int, n: int)
    requires n > 0
    ensures x <= y ==> x * n <= y * n
  {
    if x <= y { assert (y - x) * n >= 0; }
  }

  /** How many of 0, ..., x-1 are congruent to `j`. */
  function Below(x: nat, n: nat, j: nat): int
    requires n > 0
  {
    (x + n - 1 - j) / n
  }

  lemma BelowStep(x: nat, n: nat, j: nat)
    requires j < n
    ensures Below(x + 1, n, j) == Below(x, n, j) + if x % n == j then 1 else 0
  {
    var q, r := x / n, x % n;
    assert x == q * n + r;
    assert (q + 1) * n == q * n + n;
    DivIs(x + n - j, n, if r >= j then q + 1 else q);
    DivIs(x + n - 1 - j, n, if r > j then q + 1 else q);
  }

  lemma {:induction false} HitsClosedForm(c: nat, k: nat, n: nat, j: nat)
    requires j < n
    requires forall i :: 0 <= i < k ==> Pick(c, i, n) == (c + i) % n
    ensures Hits(c, k, n, j) == Below(c + k, n, j) - Below(c, n, j)
    decreases k
  {
    if k > 0 {
      HitsClosedForm(c, k - 1, n, j);
      BelowStep(c + k - 1, n, j);
      assert Pick(c, k - 1, n) == (c + (k - 1)) % n;
    }
  }

  lemma QuotientOfSum(a: nat, k: nat, n: nat)
    requires n > 0
    ensures (a + k) / n == a / n + k / n + if a % n + k % n >= n then 1 else 0
  {
    var qa, qk := a / n, k / n;
    assert (qa + qk) * n == qa * n + qk * n && (qa + qk + 1) * n == qa * n + qk * n + n;
    DivIs(a + k, n, if a % n + k % n >= n then qa + qk + 1 else qa + qk);
  }

  lemma DifferenceOfQuotients(a: nat, k: nat, n: nat)
    requires n > 0
    ensures k / n <= (a + k) / n - a / n <= (k + n - 1) / n
  {
    QuotientOfSum(a, k, n);
    QuotientOfSum(k, n - 1, n);
    DivIs(n - 1, n, 0);
  }

  lemma FairWhenPicksAreModular(c: nat, k: nat, n: nat, j: nat)
    requires j < n
    requires forall i :: 0 <= i < k ==> Pick(c, i, n) == (c + i) % n
    ensures FairShare(Hits(c, k, n, j), k, n)
  {
    HitsClosedForm(c, k, n, j);
    DifferenceOfQuotients(c + n - 1 - j, k, n);
    assert c + k + n - 1 - j == c + n - 1 - j + k;
  }

  /** While the counter does not wrap, `k` requests give each of `n` services
      floor(k/n) or ceil(k/n) of them. */
  lemma RoundRobinFair(c: nat, k: nat, n: nat, j: nat)
    requires j < n && c + k <= WORD
    ensures FairShare(Hits(c, k, n, j), k, n)
  {
    FairWhenPicksAreModular(c, k, n, j);
  }

  lemma ModOfMod(x: nat, n: nat)
    requires n > 0 && WORD % n == 0
    ensures (x % WORD) % n == x % n
  {
    var q, t, r := x / WORD, WORD / n, (x % WORD) / n;
    var m := (x % WORD) % n;
    assert WORD == t * n && x == q * WORD + x % WORD && x % WORD == r * n + m;
    assert (q * t + r) * n == q * (t * n) + r * n;
    DivIs(x, n, q * t + r);
  }

  /** Across wraps the balancer stays fair exactly for the service counts that
      divide the word size. */
  lemma FairForeverIff(n: nat)
    requires 0 < n < WORD
    ensures (forall c: nat, k: nat, j: nat :: c < WORD && j < n ==> FairShare(Hits(c, k, n, j), k, n))
       <==> WORD % n == 0
  {
    if WORD % n == 0 {
      forall c: nat, k: nat, j: nat | c < WORD && j < n
        ensures FairShare(Hits(c, k, n, j), k, n)
      {
        forall i | 0 <= i < k ensures Pick(c, i, n) == (c + i) % n { ModOfMod(c + i, n); }
        FairWhenPicksAreModular(c, k, n, j);
      }
    } else {
      UnfairAcrossWrap(n);
    }
  }

  /** Otherwise index 0 comes twice within `n` requests around the wrap. */
  lemma UnfairAcrossWrap(n: nat)
    requires 0 < n < WORD && WORD % n != 0
    ensures var r := WORD % n; !FairShare(Hits(WORD - r, r + 1, n, 0), r + 1, n)
  {
    var q, r := WORD / n, WORD % n;
    var c := WORD - r;
    assert c == q * n;
    DivIs(c, n, q);
    assert Pick(c, 0, n) == 0;
    assert c + r == WORD;
    assert Pick(c, r, n) == 0;
    HitsMonotone(c, 1, r, n, 0);
    assert Hits(c, 1, n, 0) == 1;
    DivIs(r + n, n, 1);
  }

  lemma {:induction false} HitsMonotone(c: nat, k: nat, k': nat, n: nat, j: nat)
    requires n > 0 && k <= k'
    ensures Hits(c, k, n, j) <= Hits(c, k', n, j)
    decreases k'
  {
    if k < k' { HitsMonotone(c, k, k' - 1, n, j); }
  }
}
