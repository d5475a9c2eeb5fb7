/** Service discovery: each round sends the balancer what changed since the last
    fetched set. */
module Discovery {
  import opened Wrappers

  type Addr = string

  datatype Change = Insert(addr: Addr) | Remove(addr: Addr)

  /** The address set of a balancer that has received these changes. */
  function Applied(changes: seq<Change>): set<Addr>
    decreases |changes|
  {
    if changes == [] then {}
    else
      var before := Applied(changes[..|changes| - 1]);
      match changes[|changes| - 1]
      case Insert(a) => before + {a}
      case Remove(a) => before - {a}
  }

  function Build(buildable: Addr -> bool, xs: set<Addr>): set<Addr>
  {
    set a | a in xs && buildable(a)
  }

  /** The addresses a list of changes inserts and removes. */
  ghost predicate Lists(changes: seq<Change>, inserts: set<Addr>, removes: set<Addr>)
  {
    && (forall a :: Insert(a) in changes <==> a in inserts)
    && (forall a :: Remove(a) in changes <==> a in removes)
  }

  /** Applying disjoint inserts and removes, in any order and on any history. */
  lemma {:induction false} AppliedLists(sent: seq<Change>, changes: seq<Change>, inserts: set<Addr>, removes: set<Addr>)
    requires Lists(changes, inserts, removes) && inserts !! removes
    ensures Applied(sent + changes) == Applied(sent) + inserts - removes
  {
    var whole := Applied(sent + changes);
    forall a: Addr
      ensures a in whole <==> a in Applied(sent) + inserts - removes
    {
      AppliedAt(sent, changes, a);
    }
  }

  lemma {:induction false} AppliedAt(sent: seq<Change>, changes: seq<Change>, a: Addr)
    requires Insert(a) in changes ==> Remove(a) !in changes
    ensures a in Applied(sent + changes) <==>
      if Insert(a) in changes then true else if Remove(a) in changes then false else a in Applied(sent)
    decreases |changes|
  {
    if changes == [] {
      assert sent + changes == sent;
    } else {
      var init, last := changes[..|changes| - 1], changes[|changes| - 1];
      assert changes == init + [last];
      AppliedAt(sent, init, a);
      assert (sent + changes)[..|sent + changes| - 1] == sent + init;
    }
  }

  /** A change list from `base` to `toward`: every insert comes before every removal. */
  ghost predicate ChangeList(changes: seq<Change>, buildable: Addr -> bool, base: set<Addr>, toward: set<Addr>)
  {
    && Lists(changes, Build(buildable, toward - base), base - toward)
    && forall i, j :: 0 <= i < j < |changes| && changes[j].Insert? ==> changes[i].Insert?
  }

  /** What a balancer may hold on the way: nothing foreign, every address that
      stays, and all the old addresses or all the new ones. */
  ghost predicate Between(held: set<Addr>, buildable: Addr -> bool, base: set<Addr>, toward: set<Addr>)
  {
    && Build(buildable, base * toward) <= held <= Build(buildable, base + toward)
    && (Build(buildable, base) <= held || Build(buildable, toward) <= held)
  }

  lemma BetweenSame(held: set<Addr>, buildable: Addr -> bool, base: set<Addr>)
    ensures Between(held, buildable, base, base) <==> held == Build(buildable, base)
  {
  }

  /** However early a round stops, the balancer is between the two sets. */
  lemma {:induction false} PartOfRound(sent: seq<Change>, changes: seq<Change>, n: nat, buildable: Addr -> bool,
                                       base: set<Addr>, toward: set<Addr>)
    requires ChangeList(changes, buildable, base, toward) && n <= |changes|
    requires Applied(sent) == Build(buildable, base)
    ensures Between(Applied(sent + changes[..n]), buildable, base, toward)
  {
    var part := changes[..n];
    var held := Applied(sent + part);
    assert forall c :: c in part ==> c in changes;
    forall a: Addr
      ensures a in held <==> Insert(a) in part || (a in Build(buildable, base) && Remove(a) !in part)
    {
      AppliedAt(sent, part, a);
    }
    if c :| c in part && c.Remove? {
      var i :| 0 <= i < n && changes[i] == c;
      forall a | a in Build(buildable, toward)
        ensures a in held
      {
        if a !in base {
          var j :| 0 <= j < |changes| && changes[j] == Insert(a);
          assert j < i;
          assert part[j] == Insert(a);
        }
      }
    }
  }

  /** There is nothing to send exactly when no service vanished and no buildable one came. */
  lemma NothingToSendIff(changes: seq<Change>, buildable: Addr -> bool, base: set<Addr>, toward: set<Addr>)
    requires ChangeList(changes, buildable, base, toward)
    ensures changes == [] <==> base <= toward && Build(buildable, toward) == Build(buildable, base)
  {
    var inserts := Build(buildable, toward - base);
    if changes == [] {
      forall a: Addr
        ensures a in base ==> a in toward
        ensures a in Build(buildable, toward) <==> a in Build(buildable, base)
      {
        assert Insert(a) !in changes && Remove(a) !in changes;
        assert a !in inserts && a !in base - toward;
      }
    } else {
      assert changes[0] in changes;
      var a := changes[0].addr;
      if changes[0].Insert? { assert a in inserts && a in Build(buildable, toward) && a !in Build(buildable, base); }
    }
  }

  /** One round as the outside decides it: the fetched set, `None` for a failed
      fetch, and the number of sends after which the receiver goes away, `None`
      while it stays. A receiver that is gone does not come back. */
  datatype Round = Round(fetched: Option<set<Addr>>, hangUp: Option<nat>)

  class DynamicServiceDiscovery {
    /** Whether an endpoint URL can be built from an address. */
    const buildable: Addr -> bool
    var services: set<Addr>
    /** Everything the balancer's channel accepted. */
    var sent: seq<Change>
    var open: bool

    ghost predicate Valid()
      reads this
    {
      open ==> Applied(sent) == Build(buildable, services)
    }

    constructor (buildable: Addr -> bool)
      ensures Valid() && this.buildable == buildable && services == {} && sent == [] && open
    {
      this.buildable := buildable;
      services, sent, open := {}, [], true;
    }

    method ChangeSet(endpoints: set<Addr>) returns (changes: seq<Change>)
      ensures ChangeList(changes, buildable, services, endpoints)
      ensures forall a :: Insert(a) in changes <==> a in endpoints && a !in services && buildable(a)
      ensures forall a :: Remove(a) in changes <==> a in services && a !in endpoints
    {
      changes := [];
      var todo := endpoints - services;
      while todo != {}
        invariant todo <= endpoints - services
        invariant Lists(changes, Build(buildable, endpoints - services - todo), {})
        decreases todo
      {
        var s :| s in todo;
        todo := todo - {s};
        if buildable(s) {
          changes := changes + [Insert(s)];
        }
      }
      todo := services - endpoints;
      assert forall i :: 0 <= i < |changes| ==> changes[i] in changes && changes[i].Insert?;
      ghost var inserts := |changes|;
      while todo != {}
        invariant todo <= services - endpoints
        invariant Lists(changes, Build(buildable, endpoints - services), services - endpoints - todo)
        invariant inserts <= |changes| && forall i :: 0 <= i < |changes| ==> (changes[i].Insert? <==> i < inserts)
        decreases todo
      {
        var s :| s in todo;
        todo := todo - {s};
        changes := changes + [Remove(s)];
      }
    }

    /** One send to the channel; it fails once the receiver is gone. */
    method Send(change: Change) returns (ok: bool)
      modifies this`sent
      ensures ok == open
      ensures sent == if ok then old(sent) + [change] else old(sent)
    {
      ok := open;
      if ok { sent := sent + [change]; }
    }

    /** One round. On an open channel it ends with the fetched set, or fails with a
        part of one change list sent; on a closed one the balancer and the
        buildable services stay as they are. */
    method Discovery(round: Round) returns (ok: bool)
      requires Valid()
      modifies this`services, this`sent, this`open
      ensures Valid()
      ensures open == (old(open) && round.hangUp.None?)
      ensures old(open) && round.hangUp.None? ==> ok == round.fetched.Some?
      ensures ok ==> round.fetched.Some? && services == round.fetched.value
      ensures !ok ==> services == old(services)
      ensures old(open) && ok ==> Applied(sent) == Build(buildable, services)
      ensures old(open) && ok ==> forall a :: a in Applied(sent) <==> a in round.fetched.value && buildable(a)
      ensures old(open) && !ok && round.fetched.Some? ==>
        && Between(Applied(sent), buildable, services, round.fetched.value)
        && exists changes :: ChangeList(changes, buildable, services, round.fetched.value) &&
             old(sent) <= sent <= old(sent) + changes
      ensures round.fetched.None? || !old(open) ==> sent == old(sent)
      ensures !old(open) ==> Build(buildable, services) == Build(buildable, old(services)) && old(services) <= services
      ensures !old(open) ==>
        ok == (round.fetched.Some? && old(services) <= round.fetched.value
               && Build(buildable, round.fetched.value) == Build(buildable, old(services)))
    {
      if round.fetched.None? {
        open := open && round.hangUp.None?;
        return false;
      }
      var x := round.fetched.value;
      var changes := ChangeSet(x);
      NothingToSendIff(changes, buildable, services, x);
      for i := 0 to |changes|
        invariant services == old(services) && open == old(open) && (open || i == 0)
        invariant sent == old(sent) + changes[..i]
        invariant round.hangUp.Some? ==> i <= round.hangUp.value || !open
      {
        if round.hangUp == Some(i) { open := false; }
        ok := Send(changes[i]);
        if !ok {
          if old(open) { PartOfRound(old(sent), changes, i, buildable, services, x); }
          assert changes[..i] <= changes;
          return;
        }
      }
      assert changes[..|changes|] == changes;
      if open { AppliedLists(old(sent), changes, Build(buildable, x - services), services - x); }
      services, open, ok := x, open && round.hangUp.None?, true;
    }

    /** Any history of rounds. Up to the first hang-up the balancer holds the last
        fetched set; from then on it stays between that set and the one fetched in
        the round of the hang-up. */
    method Run(history: seq<Round>)
      requires Valid() && open
      modifies this`services, this`sent, this`open
      ensures Valid()
      ensures var k := HangUp(history);
        var base := LastFetched(old(services), history[..k]);
        var toward := LastFetched(old(services), history[..if k < |history| then k + 1 else k]);
        && (open <==> k == |history|)
        && Between(Applied(sent), buildable, base, toward)
        && (Build(buildable, services) == Build(buildable, base) ||
          Build(buildable, services) == Build(buildable, toward))
        && (open ==> Applied(sent) == Build(buildable, LastFetched(old(services), history)))
    {
      var k := HangUp(history);
      ghost var base := LastFetched(services, history[..k]);
      ghost var toward := LastFetched(services, history[..if k < |history| then k + 1 else k]);
      for i := 0 to |history|
        invariant Valid() && (open <==> i <= k)
        invariant open ==> services == LastFetched(old(services), history[..i])
        invariant open || Between(Applied(sent), buildable, base, toward)
        invariant open || Build(buildable, services) == Build(buildable, base)
                       || Build(buildable, services) == Build(buildable, toward)
      {
        var _ := Discovery(history[i]);
        assert history[..i + 1][..i] == history[..i];
      }
      assert history[..|history|] == history;
      BetweenSame(Applied(sent), buildable, LastFetched(old(services), history));
    }
  }

  /** The first round in which the receiver goes away. */
  function HangUp(history: seq<Round>): (k: nat)
    ensures k <= |history|
    ensures forall i :: 0 <= i < k ==> history[i].hangUp.None?
    ensures k < |history| ==> history[k].hangUp.Some?
  {
    if history == [] || history[0].hangUp.Some? then 0 else 1 + HangUp(history[1..])
  }

  function LastFetched(start: set<Addr>, history: seq<Round>): set<Addr>
    decreases |history|
  {
    if history == [] then start
    else if history[|history| - 1].fetched.Some? then history[|history| - 1].fetched.value
    else LastFetched(start, history[..|history| - 1])
  }
}
