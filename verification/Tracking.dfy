/** Which collections are tracked over a whole life of the box: started once,
    then maintenance passes and cleaner ticks in any order. */
module Tracking {
  import opened Calendar
  import opened Names
  import opened Documents
  import opened Wrappers
  import opened ShardedStore
  import opened MessageBox

  datatype Tick = Pass(now: int) | Clean(now: int, period: nat)

  function Threshold(t: Tick): int
    requires t.Clean?
  {
    MonthOf(t.now) - (t.period / 30 + 2)
  }

  ghost function Next(active: set<string>, t: Tick, shards: nat): set<string>
  {
    match t
    case Pass(now) => active + Span(MonthOf(now), LOOK_AHEAD, shards)
    case Clean(_, _) => set name | name in active && !Outdated(name, YearMonth(Threshold(t)))
  }

  ghost function After(start: int, ticks: seq<Tick>, shards: nat): set<string>
    decreases |ticks|
  {
    if ticks == [] then Span(MonthOf(start), LOOK_AHEAD, shards)
    else Next(After(start, ticks[..|ticks| - 1], shards), ticks[|ticks| - 1], shards)
  }

  /** The month of the last pass, start-up included. */
  function LastPass(start: int, ticks: seq<Tick>): int
    decreases |ticks|
  {
    if ticks == [] then MonthOf(start)
    else match ticks[|ticks| - 1]
         case Pass(now) => MonthOf(now)
         case Clean(_, _) => LastPass(start, ticks[..|ticks| - 1])
  }

  /** No cleaner tick so far has dropped month `m`. */
  predicate Kept(ticks: seq<Tick>, m: int)
  {
    forall i :: 0 <= i < |ticks| && ticks[i].Clean? ==> Threshold(ticks[i]) <= m
  }

  predicate TickOk(t: Tick)
  {
    ClockOk(t.now)
  }

  /** Passes follow each other before the look-ahead runs out. */
  ghost predicate Regular(start: int, ticks: seq<Tick>)
  {
    && ClockOk(start)
    && (forall i :: 0 <= i < |ticks| ==> TickOk(ticks[i]))
    && (forall i :: 0 <= i < |ticks| && ticks[i].Pass? ==>
      MonthOf(ticks[i].now) <= LastPass(start, ticks[..i]) + LOOK_AHEAD)
  }

  /** From start-up to three months past the last pass, and not dropped. */
  predicate InReach(start: int, ticks: seq<Tick>, m: int)
  {
    MonthOf(start) <= m < LastPass(start, ticks) + LOOK_AHEAD && Kept(ticks, m)
  }

  lemma RegularPrefix(start: int, ticks: seq<Tick>)
    requires Regular(start, ticks) && ticks != []
    ensures Regular(start, ticks[..|ticks| - 1])
    ensures TickOk(ticks[|ticks| - 1])
    ensures ticks[|ticks| - 1].Pass? ==>
      MonthOf(ticks[|ticks| - 1].now) <= LastPass(start, ticks[..|ticks| - 1]) + LOOK_AHEAD
  {
    hide MonthOf;
    var init := ticks[..|ticks| - 1];
    assert forall i :: 0 <= i < |init| ==> init[i] == ticks[i] && init[..i] == ticks[..i];
  }

  lemma {:induction false} ReachIsOrderable(start: int, ticks: seq<Tick>)
    requires Regular(start, ticks)
    ensures 0 <= MonthOf(start) && Orderable(LastPass(start, ticks) + LOOK_AHEAD - 1)
    decreases |ticks|
  {
    hide MonthOf;
    if ticks != [] {
      RegularPrefix(start, ticks);
      ReachIsOrderable(start, ticks[..|ticks| - 1]);
    }
  }

  /** The look-ahead invariant: from start-up to three months past the last pass,
      every month that no cleaner dropped is tracked in every shard. */
  lemma {:induction false} LookAhead(start: int, ticks: seq<Tick>, shards: nat, m: int, r: nat)
    requires Regular(start, ticks) && InReach(start, ticks, m) && r < shards
    ensures CollectionName(m, r) in After(start, ticks, shards)
    decreases |ticks|
  {
    hide MonthOf, CollectionName, Outdated, YearMonth;
    if ticks == [] {
      SpanHas(MonthOf(start), LOOK_AHEAD, shards, m, r);
    } else {
      var init, t := ticks[..|ticks| - 1], ticks[|ticks| - 1];
      RegularPrefix(start, ticks);
      if t.Pass? {
        SpanHas(MonthOf(t.now), LOOK_AHEAD, shards, m, r);
        if m < MonthOf(t.now) { LookAhead(start, init, shards, m, r); }
      } else {
        LookAhead(start, init, shards, m, r);
        ReachIsOrderable(start, ticks);
        OutdatedIsEarlier(m, r, Threshold(t));
      }
    }
  }

  /** So every message of those months can be found by its id. */
  lemma MessageIsTracked(c: Sharding, start: int, ticks: seq<Tick>, d: Msg)
    requires Regular(start, ticks) && InReach(start, ticks, MonthOf(d.sendTime))
    ensures NameOf(c, d) in After(start, ticks, c.shards)
  {
    hide MonthOf, CollectionName;
    LookAhead(start, ticks, c.shards, MonthOf(d.sendTime), Shard(c, d.receiverId));
  }

  /** Two passes leave no month between them untracked exactly when the second
      comes before the first one's look-ahead has run out. */
  lemma GapFreeIff(a: int, b: int, shards: nat)
    requires a <= b && shards > 0
    ensures (forall m :: a <= m < b + LOOK_AHEAD ==>
      CollectionName(m, 0) in Span(a, LOOK_AHEAD, shards) + Span(b, LOOK_AHEAD, shards))
       <==> b <= a + LOOK_AHEAD
  {
    hide CollectionName;
    forall m
      ensures CollectionName(m, 0) in Span(a, LOOK_AHEAD, shards) + Span(b, LOOK_AHEAD, shards)
         <==> a <= m < a + LOOK_AHEAD || b <= m < b + LOOK_AHEAD
    {
      SpanHas(a, LOOK_AHEAD, shards, m, 0);
      SpanHas(b, LOOK_AHEAD, shards, m, 0);
    }
    if b > a + LOOK_AHEAD {
      assert CollectionName(a + LOOK_AHEAD, 0) !in Span(a, LOOK_AHEAD, shards) + Span(b, LOOK_AHEAD, shards);
    }
  }

  /** Excepted types survive, and nothing is added. */
  ghost predicate Cleaned(before: multiset<Msg>, after: multiset<Msg>, types: seq<int>)
  {
    after <= before && forall d :: d in before && d.msgType in types ==> after[d] == before[d]
  }

  /** A box on a database without collections: nothing stored, and ready for
      everything that follows. */
  method OpenEmpty(config: Sharding, start: int) returns (box: HybridShardedMsgBox)
    requires ClockOk(start)
    ensures fresh(box) && box.Valid() && box.config == config && box.flat == multiset{}
    ensures box.active == After(start, [], config.shards)
  {
    EmptyAgrees(config);
    hide MonthOf, CollectionName, NameOf, Agrees, UniqueSlots, Tracked, Span;
    box := new HybridShardedMsgBox(config, map[], multiset{}, start);
  }

  /** The document's time is up at this tick, given the names tracked then. */
  ghost predicate SweptBy(c: Sharding, t: Tick, active: set<string>, types: seq<int>, d: Msg)
  {
    t.Clean? && d.sendTime < t.now - t.period * 86_400 && d.msgType !in types && NameOf(c, d) in active
  }

  /** Some cleaner tick of this life deletes the document. */
  ghost predicate Swept(c: Sharding, start: int, ticks: seq<Tick>, types: seq<int>, d: Msg)
  {
    exists i :: 0 <= i < |ticks| && SweptBy(c, ticks[i], After(start, ticks[..i], c.shards), types, d)
  }

  lemma SweptSnoc(c: Sharding, start: int, ticks: seq<Tick>, t: Tick, types: seq<int>, d: Msg)
    ensures Swept(c, start, ticks + [t], types, d) <==>
      Swept(c, start, ticks, types, d) || SweptBy(c, t, After(start, ticks, c.shards), types, d)
  {
    hide SweptBy, After;
    var longer := ticks + [t];
    assert forall i :: 0 <= i < |ticks| ==> longer[i] == ticks[i];
    assert forall i :: 0 <= i <= |ticks| ==> longer[..i] == ticks[..i];
    assert longer[|ticks|] == t && longer[..|ticks|] == ticks;
  }

  method OneTick(box: HybridShardedMsgBox, t: Tick, types: seq<int>)
    requires box.Valid() && TickOk(t)
    modifies box`store, box`flat, box`active
    ensures box.Valid() && box.active == Next(old(box.active), t, box.config.shards)
    ensures forall d :: box.flat[d] == if SweptBy(box.config, t, old(box.active), types, d) then 0 else old(box.flat)[d]
  {
    hide MonthOf, CollectionName, NameOf, Outdated, YearMonth, Span;
    match t
    case Pass(now) => box.Maintain(now);
    case Clean(now, period) => box.CleanTick(now, period, types);
  }

  /** The box driven through such a life: its tracked set is the one above, and
      exactly the documents whose time was up in a tracked collection are gone. */
  method Drive(box: HybridShardedMsgBox, start: int, ticks: seq<Tick>, types: seq<int>)
    requires box.Valid() && Regular(start, ticks)
    requires box.active == After(start, [], box.config.shards)
    modifies box`store, box`flat, box`active
    ensures box.Valid() && box.active == After(start, ticks, box.config.shards)
    ensures forall d :: box.flat[d] == if Swept(box.config, start, ticks, types, d) then 0 else old(box.flat)[d]
    ensures Cleaned(old(box.flat), box.flat, types)
    ensures forall d: Msg :: Fresh(ticks, d.sendTime) ==> box.flat[d] == old(box.flat)[d]
  {
    hide MonthOf, CollectionName, NameOf, Outdated, YearMonth, Span, Next, Swept, SweptBy;
    assert ticks[..0] == [];
    forall d ensures !Swept(box.config, start, [], types, d) { NothingSwept(box.config, start, types, d); }
    for i := 0 to |ticks|
      invariant box.Valid() && box.active == After(start, ticks[..i], box.config.shards)
      invariant forall d ::
        box.flat[d] == if Swept(box.config, start, ticks[..i], types, d) then 0 else old(box.flat)[d]
    {
      assert ticks[..i + 1][..i] == ticks[..i] && ticks[..i + 1] == ticks[..i] + [ticks[i]];
      forall d
        ensures Swept(box.config, start, ticks[..i + 1], types, d) <==>
          Swept(box.config, start, ticks[..i], types, d) || SweptBy(box.config, ticks[i], box.active, types, d)
      {
        SweptSnoc(box.config, start, ticks[..i], ticks[i], types, d);
      }
      OneTick(box, ticks[i], types);
    }
    assert ticks[..|ticks|] == ticks;
    forall d: Msg
      ensures d.msgType in types || Fresh(ticks, d.sendTime) ==> !Swept(box.config, start, ticks, types, d)
    {
      SweptIsOld(box.config, start, ticks, types, d);
    }
    assert forall d :: box.flat[d] <= old(box.flat)[d];
  }

  /** Not older than the cutoff of any cleaner tick. */
  predicate Fresh(ticks: seq<Tick>, sendTime: int)
  {
    forall i :: 0 <= i < |ticks| && ticks[i].Clean? ==> sendTime >= ticks[i].now - ticks[i].period * 86_400
  }

  lemma NothingSwept(c: Sharding, start: int, types: seq<int>, d: Msg)
    ensures !Swept(c, start, [], types, d)
  {
  }

  lemma SweptIsOld(c: Sharding, start: int, ticks: seq<Tick>, types: seq<int>, d: Msg)
    ensures Swept(c, start, ticks, types, d) ==> d.msgType !in types && !Fresh(ticks, d.sendTime)
  {
    hide NameOf, After;
  }

  /** Afterwards a search by id misses no document of a kept month. */
  method FindAfter(box: HybridShardedMsgBox, start: int, ticks: seq<Tick>, id: string) returns (r: Option<Msg>)
    requires box.Valid() && Regular(start, ticks) && box.active == After(start, ticks, box.config.shards)
    ensures r.Some? ==> r.value in box.flat && r.value.serverId == id
    ensures r.None? ==> forall d :: d in box.flat && InReach(start, ticks, MonthOf(d.sendTime)) ==> d.serverId != id
  {
    hide MonthOf, CollectionName, NameOf, Outdated, YearMonth, Span, After;
    r := box.GetMessage(id);
    forall d: Msg | InReach(start, ticks, MonthOf(d.sendTime))
      ensures NameOf(box.config, d) in box.active
    {
      MessageIsTracked(box.config, start, ticks, d);
    }
  }
}
