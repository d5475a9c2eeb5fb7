/** The hybrid sharded message box. Its operations are stated against one flat
    collection, the ghost field `flat`. */
module MessageBox {
  import opened Calendar
  import opened Names
  import opened Text
  import opened Documents
  import opened Wrappers
  import opened Sorting
  import opened ShardedStore
  import Sequence

  // ----- queries -----------------------------------------------------------

  /** `{"receiver_id": user, "seq": {"$gte": lo, "$lte": hi}}` */
  function Received(user: string, lo: int, hi: int): Msg -> bool
  {
    (d: Msg) => d.receiverId == user && lo <= d.seqNo <= hi
  }

  /** The `$or` of received and sent messages. */
  function SentOrReceived(user: string, sendLo: int, sendHi: int, recLo: int, recHi: int): Msg -> bool
  {
    (d: Msg) => (d.receiverId == user && recLo <= d.seqNo <= recHi)
             || (d.senderId == user && sendLo <= d.sendSeq <= sendHi)
  }

  function NumberedIn(user: string, seqs: seq<int>): Msg -> bool
  {
    (d: Msg) => d.receiverId == user && d.seqNo in seqs
  }

  function Expired(cutoff: int, types: seq<int>): Msg -> bool
  {
    (d: Msg) => d.sendTime < cutoff && d.msgType !in types
  }

  function BySeq(): Msg -> Key { (d: Msg) => Key(d.seqNo, 0) }

  /** Send time, then the user's own send number or the receive number. */
  function ByTime(user: string): Msg -> Key
  {
    (d: Msg) => Key(d.sendTime, if d.senderId == user then d.sendSeq else d.seqNo)
  }

  /** The user's own messages are returned without a receive number. */
  function Shown(user: string, d: Msg): Msg
  {
    if d.senderId == user then d.(seqNo := 0) else d
  }

  function ShownAll(user: string, s: seq<Msg>): (r: seq<Msg>)
    ensures |r| == |s| && forall i :: 0 <= i < |s| ==> r[i] == Shown(user, s[i])
  {
    seq(|s|, i requires 0 <= i < |s| => Shown(user, s[i]))
  }

  lemma ShownKeepsKeys(user: string, s: seq<Msg>)
    ensures forall i :: 0 <= i < |s| ==> ByTime(user)(ShownAll(user, s)[i]) == ByTime(user)(s[i])
    ensures Sorted(s, ByTime(user)) ==> Sorted(ShownAll(user, s), ByTime(user))
  {
  }

  // ----- the copies of a group message -------------------------------------

  /** What the consumer hands over for each member. */
  type Member = Sequence.GroupMemSeq

  function SenderCopy(m: Msg): Msg { Stored(m.(receiverId := m.senderId)) }

  function MemberCopy(m: Msg, mem: Member): Msg
  {
    Stored(m.(sendSeq := 0, seqNo := mem.curSeq, receiverId := mem.memId))
  }

  /** What the sender's own document must be: the message, filed under the sender. */
  predicate IsSenderCopy(d: Msg, m: Msg)
  {
    Carries(d, m) && d.receiverId == m.senderId && d.seqNo == m.seqNo && d.sendSeq == m.sendSeq
  }

  /** What a member's document must be: the message, with the member's number. */
  predicate IsMemberCopy(d: Msg, m: Msg, mem: Member)
  {
    Carries(d, m) && d.receiverId == mem.memId && d.seqNo == mem.curSeq && d.sendSeq == 0
  }

  function Copies(m: Msg, members: seq<Member>): seq<Msg>
  {
    [SenderCopy(m)] + seq(|members|, i requires 0 <= i < |members| => MemberCopy(m, members[i]))
  }

  /** A fresh server id and a member list without repeats and without the sender:
      the unique index accepts every copy. */
  lemma GroupCopiesInsertable(c: Sharding, flat: multiset<Msg>, m: Msg, members: seq<Member>)
    requires forall d :: d in flat ==> d.serverId != m.serverId
    requires forall i, j :: 0 <= i < j < |members| ==> members[i].memId != members[j].memId
    requires forall i :: 0 <= i < |members| ==> members[i].memId != m.senderId
    ensures Insertable(c, flat, multiset(Copies(m, members)))
    ensures forall i, j :: 0 <= i < j < |Copies(m, members)| ==>
      Copies(m, members)[i].receiverId != Copies(m, members)[j].receiverId
  {
    CopiesDiffer(m, members);
    hide NameOf, Copies;
    DistinctReceivers(c, Copies(m, members));
  }

  /** One copy per member with that member's number and no send number, one copy
      for the sender, and nothing else under that server id. */
  lemma GroupSaveLeavesOneCopyEach(flat: multiset<Msg>, m: Msg, members: seq<Member>)
    requires forall d :: d in flat ==> d.serverId != m.serverId
    requires forall i, j :: 0 <= i < j < |members| ==> members[i].memId != members[j].memId
    requires forall i :: 0 <= i < |members| ==> members[i].memId != m.senderId
    ensures var after := flat + multiset(Copies(m, members));
      && after[SenderCopy(m)] == 1 && IsSenderCopy(SenderCopy(m), m)
      && (forall i :: 0 <= i < |members| ==>
            after[MemberCopy(m, members[i])] == 1 && IsMemberCopy(MemberCopy(m, members[i]), m, members[i]))
      && (forall d :: d in after && d.serverId == m.serverId ==>
            d == SenderCopy(m) || exists i :: 0 <= i < |members| && d == MemberCopy(m, members[i]))
  {
    hide Copies, SenderCopy, MemberCopy;
    var copies := Copies(m, members);
    CopyOnce(flat, m, members, 0);
    forall i | 0 <= i < |members|
      ensures (flat + multiset(copies))[MemberCopy(m, members[i])] == 1
      ensures IsMemberCopy(MemberCopy(m, members[i]), m, members[i])
    {
      CopyOnce(flat, m, members, i + 1);
    }
    forall d | d in flat + multiset(copies) && d.serverId == m.serverId
      ensures d == SenderCopy(m) || exists i :: 0 <= i < |members| && d == MemberCopy(m, members[i])
    {
      assert d in multiset(copies);
      var k :| 0 <= k < |copies| && copies[k] == d;
      CopyAt(m, members, k);
    }
  }

  /** The documents of a group message: the sender's, each member's, and no other. */
  lemma CopiesAreCopies(m: Msg, members: seq<Member>)
    ensures exists d :: d in multiset(Copies(m, members)) && IsSenderCopy(d, m)
    ensures forall i :: 0 <= i < |members| ==>
      exists d :: d in multiset(Copies(m, members)) && IsMemberCopy(d, m, members[i])
    ensures forall d :: d in multiset(Copies(m, members)) ==>
      IsSenderCopy(d, m) || exists i :: 0 <= i < |members| && IsMemberCopy(d, m, members[i])
  {
    hide Copies, SenderCopy, MemberCopy, IsSenderCopy, IsMemberCopy;
    var copies := Copies(m, members);
    CopyAt(m, members, 0);
    assert copies[0] in multiset(copies) && IsSenderCopy(copies[0], m);
    forall i | 0 <= i < |members|
      ensures exists d :: d in multiset(copies) && IsMemberCopy(d, m, members[i])
    {
      CopyAt(m, members, i + 1);
      assert copies[i + 1] in multiset(copies);
    }
    forall d | d in multiset(copies)
      ensures IsSenderCopy(d, m) || exists i :: 0 <= i < |members| && IsMemberCopy(d, m, members[i])
    {
      var k :| 0 <= k < |copies| && copies[k] == d;
      CopyAt(m, members, k);
    }
  }

  lemma SavedCopies(flat: multiset<Msg>, flat': multiset<Msg>, m: Msg, members: seq<Member>)
    requires flat' <= flat + multiset(Copies(m, members))
    ensures flat' == flat + multiset(Copies(m, members)) ==> exists d :: d in flat' && IsSenderCopy(d, m)
    ensures flat' == flat + multiset(Copies(m, members)) ==>
      forall i :: 0 <= i < |members| ==> exists d :: d in flat' && IsMemberCopy(d, m, members[i])
    ensures forall d :: d in flat' && d !in flat ==>
      IsSenderCopy(d, m) || exists i :: 0 <= i < |members| && IsMemberCopy(d, m, members[i])
  {
    CopiesAreCopies(m, members);
    hide Copies, IsSenderCopy, IsMemberCopy;
    assert forall d :: d in multiset(Copies(m, members)) ==> d in flat + multiset(Copies(m, members));
    assert forall d :: d in flat' && d !in flat ==> d in multiset(Copies(m, members));
  }

  lemma CopyAt(m: Msg, members: seq<Member>, k: nat)
    ensures |Copies(m, members)| == |members| + 1
    ensures k == 0 ==> Copies(m, members)[k] == SenderCopy(m)
    ensures 0 < k <= |members| ==> Copies(m, members)[k] == MemberCopy(m, members[k - 1])
    ensures IsSenderCopy(SenderCopy(m), m)
    ensures 0 < k <= |members| ==> IsMemberCopy(MemberCopy(m, members[k - 1]), m, members[k - 1])
  {
  }

  lemma CopiesDiffer(m: Msg, members: seq<Member>)
    requires forall i, j :: 0 <= i < j < |members| ==> members[i].memId != members[j].memId
    requires forall i :: 0 <= i < |members| ==> members[i].memId != m.senderId
    ensures forall i :: 0 <= i < |Copies(m, members)| ==> Copies(m, members)[i].serverId == m.serverId
    ensures forall i, j :: 0 <= i < j < |Copies(m, members)| ==>
      Copies(m, members)[i].receiverId != Copies(m, members)[j].receiverId
  {
    var copies := Copies(m, members);
    assert forall i :: 0 <= i < |copies| ==>
      copies[i].serverId == m.serverId && copies[i].receiverId == if i == 0 then m.senderId else members[i - 1].memId;
  }

  lemma CopyOnce(flat: multiset<Msg>, m: Msg, members: seq<Member>, k: nat)
    requires forall d :: d in flat ==> d.serverId != m.serverId
    requires forall i, j :: 0 <= i < j < |members| ==> members[i].memId != members[j].memId
    requires forall i :: 0 <= i < |members| ==> members[i].memId != m.senderId
    requires k <= |members|
    ensures k == 0 ==> (flat + multiset(Copies(m, members)))[SenderCopy(m)] == 1
    ensures IsSenderCopy(SenderCopy(m), m)
    ensures k > 0 ==>
      && (flat + multiset(Copies(m, members)))[MemberCopy(m, members[k - 1])] == 1
      && IsMemberCopy(MemberCopy(m, members[k - 1]), m, members[k - 1])
  {
    hide Copies, SenderCopy, MemberCopy;
    var copies := Copies(m, members);
    CopyAt(m, members, k);
    CopiesDiffer(m, members);
    OnceOnly(copies, k);
    assert copies[k] !in flat;
  }

  /** The list that the consumer builds, from a member set with the sender taken
      out, always meets the index. */
  lemma ConsumerListInsertable(c: Sharding, flat: multiset<Msg>, m: Msg, ids: seq<string>, db: Sequence.Hashes,
                               step: int)
    requires Sequence.NoDup(ids) && forall d :: d in flat ==> d.serverId != m.serverId
    ensures Insertable(c, flat, multiset(Copies(m, Sequence.MemSeqs(db, Sequence.Retain(ids, m.senderId), step))))
  {
    hide Insertable, Copies, Sequence.BumpAll, Sequence.Script;
    var kept := Sequence.Retain(ids, m.senderId);
    var members := Sequence.MemSeqs(db, kept, step);
    assert forall i :: 0 <= i < |members| ==> members[i].memId == kept[i] && kept[i] in kept;
    GroupCopiesInsertable(c, flat, m, members);
  }

  lemma DistinctReceivers(c: Sharding, docs: seq<Msg>)
    requires forall i, j :: 0 <= i < j < |docs| ==> docs[i].receiverId != docs[j].receiverId
    ensures UniqueSlots(c, multiset(docs))
  {
    forall a, b | a in multiset(docs) && b in multiset(docs) && SameSlot(c, a, b)
      ensures a == b && multiset(docs)[a] == 1
    {
      var i :| 0 <= i < |docs| && docs[i] == a;
      var j :| 0 <= j < |docs| && docs[j] == b;
      assert a.receiverId == b.receiverId;
      assert i == j;
      OnceOnly(docs, i);
    }
  }

  lemma {:induction false} OnceOnly(s: seq<Msg>, i: nat)
    requires i < |s| && forall k :: 0 <= k < |s| && k != i ==> s[k] != s[i]
    ensures multiset(s)[s[i]] == 1
  {
    assert s == s[..i] + [s[i]] + s[i + 1..];
    assert s[i] !in s[..i] && s[i] !in s[i + 1..];
  }

  // ----- tracked collections -----------------------------------------------

  /** The months that the name text can order. */
  predicate Orderable(m: int) { 0 <= m < 12 * 10_000 }

  /** A clock in the years 0 to 9999, with the look-ahead still inside them. */
  predicate ClockOk(now: int) { Orderable(MonthOf(now)) && Orderable(MonthOf(now) + 3) }

  lemma ClockBound(now: int)
    requires ClockOk(now)
    ensures MonthOf(now) < 12 * 10_000
  {
    hide MonthOf;
  }

  ghost function MonthNames(m: int, shards: nat): set<string>
  {
    if shards == 0 then {} else MonthNames(m, shards - 1) + {CollectionName(m, shards - 1)}
  }

  lemma {:induction false} MonthNamesHas(m: int, shards: nat, m': int, r: nat)
    ensures CollectionName(m', r) in MonthNames(m, shards) <==> m == m' && r < shards
    decreases shards
  {
    if shards > 0 {
      MonthNamesHas(m, shards - 1, m', r);
      NamesInjective(m', r, m, shards - 1);
    }
  }

  /** The names of `n` months from `m` on. */
  ghost function Span(m: int, n: nat, shards: nat): set<string>
  {
    if n == 0 then {} else Span(m, n - 1, shards) + MonthNames(m + n - 1, shards)
  }

  lemma {:induction false} SpanHas(m: int, n: nat, shards: nat, m': int, r: nat)
    ensures CollectionName(m', r) in Span(m, n, shards) <==> m <= m' < m + n && r < shards
    decreases n
  {
    hide CollectionName;
    if n > 0 {
      SpanHas(m, n - 1, shards, m', r);
      MonthNamesHas(m + n - 1, shards, m', r);
    }
  }

  /** One look-ahead: the month and the next three, in every shard. */
  lemma SpanInWords(now: int, shards: nat)
    ensures forall m, r: nat ::
      CollectionName(m, r) in Span(now, LOOK_AHEAD, shards) <==> now <= m <= now + 3 && r < shards
  {
    hide CollectionName, Span;
    forall m, r: nat
      ensures CollectionName(m, r) in Span(now, LOOK_AHEAD, shards) <==> now <= m <= now + 3 && r < shards
    {
      SpanHas(now, LOOK_AHEAD, shards, m, r);
    }
  }

  /** Every tracked name is the name of some orderable month. */
  ghost predicate Tracked(active: set<string>)
  {
    forall name :: name in active ==> exists m: int, r: nat :: Orderable(m) && name == CollectionName(m, r)
  }

  lemma TrackOneMore(active: set<string>, m: int, r: nat)
    requires Tracked(active) && Orderable(m)
    ensures Tracked(active + {CollectionName(m, r)})
  {
    var name := CollectionName(m, r);
    forall n | n in active + {name}
      ensures exists m': int, r': nat :: Orderable(m') && n == CollectionName(m', r')
    {
      if n == name { assert Orderable(m) && n == CollectionName(m, r); }
    }
  }

  lemma TrackedParts(active: set<string>, name: string)
    requires Tracked(active) && name in active
    ensures |Split(name, '_')| == 5
  {
    var m: int, r: nat :| Orderable(m) && name == CollectionName(m, r);
    NameRoundTrip(m, r);
  }

  /** The cleaner's test on a tracked name. */
  predicate Outdated(name: string, threshold: string)
  {
    var parts := Split(name, '_');
    |parts| >= 4 && Less(parts[2] + "_" + parts[3], threshold)
  }

  /** What the text comparison decides: an earlier month. */
  lemma OutdatedIsEarlier(m: int, r: nat, threshold: int)
    requires Orderable(m) && threshold < 12 * 10_000
    ensures Outdated(CollectionName(m, r), YearMonth(threshold)) <==> m < threshold
  {
    NameRoundTrip(m, r);
    if threshold >= 0 { YearMonthOrder(m, threshold); } else { SignedYearFirst(m, threshold); }
  }

  lemma OutdatedInWords(threshold: int)
    requires threshold < 12 * 10_000
    ensures forall m, r: nat :: Orderable(m) ==>
      (Outdated(CollectionName(m, r), YearMonth(threshold)) <==> m < threshold)
  {
    forall m, r: nat | Orderable(m)
      ensures Outdated(CollectionName(m, r), YearMonth(threshold)) <==> m < threshold
    {
      OutdatedIsEarlier(m, r, threshold);
    }
  }

  /** Retention safety: whatever lies in a name that the cleaner drops is older
      than the cutoff. */
  lemma DroppedAreExpired(c: Sharding, now: int, period: nat, d: Msg, active: set<string>)
    requires ClockOk(now)
    requires Tracked(active) && NameOf(c, d) in active
    requires Outdated(NameOf(c, d), YearMonth(MonthOf(now) - (period / 30 + 2)))
    ensures d.sendTime < now - period * DAY
  {
    hide NameOf, CollectionName, MonthOf, Outdated, YearMonth;
    var m, r := TrackedMonth(c, d, active);
    OutdatedIsEarlier(m, r, MonthOf(now) - (period / 30 + 2));
    RetentionMargin(now, period, d.sendTime);
  }

  lemma TrackedMonth(c: Sharding, d: Msg, active: set<string>) returns (m: int, r: nat)
    requires Tracked(active) && NameOf(c, d) in active
    ensures m == MonthOf(d.sendTime) && Orderable(m) && NameOf(c, d) == CollectionName(m, r)
  {
    hide CollectionName, MonthOf;
    m, r :| Orderable(m) && NameOf(c, d) == CollectionName(m, r);
    NamesInjective(MonthOf(d.sendTime), Shard(c, d.receiverId), m, r);
  }

  // ----- which months a query reads ----------------------------------------

  lemma NameAt(c: Sharding, user: string, m: int, d: Msg)
    ensures NameOf(c, d) == CollectionName(m, Shard(c, user)) <==>
            MonthOf(d.sendTime) == m && Shard(c, d.receiverId) == Shard(c, user)
  {
    NamesInjective(MonthOf(d.sendTime), Shard(c, d.receiverId), m, Shard(c, user));
  }

  /** Sent in the current month or in one of the `n - 1` before it. */
  predicate Recent(now: int, n: nat, d: Msg)
  {
    MonthOf(now) - n < MonthOf(d.sendTime) <= MonthOf(now)
  }

  /** How many months ahead are tracked, the current one included. */
  const LOOK_AHEAD := 4

  /** Lies in the shard of `user`, in the month `back` months ago. */
  predicate SeenBy(c: Sharding, user: string, now: int, back: nat, d: Msg)
  {
    MonthOf(d.sendTime) == MonthOf(now) - back && Shard(c, d.receiverId) == Shard(c, user)
  }

  /** `Vec::with_capacity(n as usize)` of a 64-bit `n`: a negative one wraps to more
      than any vector may hold. */
  predicate CanReserve(n: int) { n >= 0 }

  class HybridShardedMsgBox {
    const config: Sharding
    var store: Store
    var active: set<string>
    ghost var flat: multiset<Msg>

    ghost predicate Valid()
      reads this
    {
      Agrees(config, store, flat) && UniqueSlots(config, flat) && Tracked(active)
    }

    /** Opens a database that earlier boxes left. Month offset -1 does not fit a
        `u32`, so that addition fails and falls back to the current month. */
    constructor (config: Sharding, store: Store, ghost flat: multiset<Msg>, now: int)
      requires Agrees(config, store, flat) && UniqueSlots(config, flat) && ClockOk(now)
      ensures Valid() && this.config == config && this.store == store && this.flat == flat
      ensures active == Span(MonthOf(now), LOOK_AHEAD, config.shards)
      ensures forall m, r: nat :: CollectionName(m, r) in active <==>
        MonthOf(now) <= m <= MonthOf(now) + 3 && r < config.shards
    {
      this.config, this.store, this.flat := config, store, flat;
      active := {};
      new;
      hide NameOf, CollectionName, MonthOf, Agrees, UniqueSlots, MonthNames;
      for offset := -1 to 4
        invariant Valid() && this.store == store && this.flat == flat
        invariant active ==
          if offset == -1 then {} else Span(MonthOf(now), if offset == 0 then 1 else offset, config.shards)
      {
        if offset < 0 {
          TrackMonth(MonthOf(now));
        } else {
          TrackAhead(now, offset);
        }
      }
      SpanInWords(MonthOf(now), config.shards);
    }

    method TrackMonth(m: int)
      requires Valid() && Orderable(m)
      modifies this`active
      ensures Valid()
      ensures active == old(active) + MonthNames(m, config.shards)
    {
      hide NameOf, CollectionName, MonthOf;
      for r := 0 to config.shards
        invariant Tracked(active) && active == old(active) + MonthNames(m, r)
      {
        TrackOneMore(active, m, r);
        active := active + {CollectionName(m, r)};
      }
    }

    /** One pass of the daily look-ahead. */
    method Maintain(now: int)
      requires Valid() && ClockOk(now)
      modifies this`active
      ensures Valid()
      ensures active == old(active) + Span(MonthOf(now), LOOK_AHEAD, config.shards)
      ensures forall m, r: nat :: CollectionName(m, r) in active <==>
        CollectionName(m, r) in old(active) || (MonthOf(now) <= m <= MonthOf(now) + 3 && r < config.shards)
    {
      hide NameOf, CollectionName, MonthOf, Agrees, UniqueSlots, Tracked;
      for offset := 0 to LOOK_AHEAD
        invariant Valid() && active == old(active) + Span(MonthOf(now), offset, config.shards)
      {
        TrackAhead(now, offset);
      }
      SpanInWords(MonthOf(now), config.shards);
    }

    method TrackAhead(now: int, offset: nat)
      requires Valid() && Orderable(MonthOf(now) + offset)
      modifies this`active
      ensures Valid()
      ensures active == old(active) + MonthNames(MonthOf(now) + offset, config.shards)
    {
      hide NameOf, CollectionName, MonthOf, Agrees, UniqueSlots, Tracked;
      var m := MonthAhead(now, offset);
      TrackMonth(m);
    }

    method MonthAhead(now: int, offset: nat) returns (m: int)
      ensures m == MonthOf(now) + offset
    {
      AddMonthsMonth(now, offset);
      m := MonthOf(AddMonths(now, offset));
    }

    // ----- saving ----------------------------------------------------------

    /** `insert_one` into the document's own collection, under the unique index. */
    method InsertOne(d: Msg) returns (ok: bool)
      requires Valid()
      modifies this`store, this`flat
      ensures Valid()
      ensures ok == !Clash(config, old(flat), d)
      ensures flat == if ok then old(flat) + multiset{d} else old(flat)
      ensures ok ==> NameOf(config, d) in store && d in store[NameOf(config, d)]
    {
      hide NameOf, CollectionName, MonthOf;
      var name := NameOf(config, d);
      var docs := if name in store then store[name] else [];
      ok := forall e :: e in docs ==> !(e.serverId == d.serverId && e.receiverId == d.receiverId);
      SlotInCollection(config, store, flat, d);
      if ok {
        InsertAgrees(config, store, flat, d);
        InsertableOneMore(config, flat, multiset{}, d);
        UniqueAfter(config, flat, multiset{} + multiset{d});
        store := store[name := docs + [d]];
        flat := flat + multiset{d};
      }
    }

    method SaveMessage(m: Msg) returns (ok: bool)
      requires Valid()
      modifies this`store, this`flat
      ensures Valid()
      ensures ok == !Clash(config, old(flat), Stored(m))
      ensures flat == if ok then old(flat) + multiset{Stored(m)} else old(flat)
      ensures CarriesAll(Stored(m), m)
      ensures ok ==>
        var name := CollectionName(MonthOf(m.sendTime), config.hash(m.receiverId) % config.shards);
        name in store && Stored(m) in store[name]
    {
      StoredKeeps(m);
      assert NameOf(config, Stored(m))
          == CollectionName(MonthOf(m.sendTime), config.hash(m.receiverId) % config.shards);
      hide NameOf, CollectionName, MonthOf, Stored, Clash, Valid;
      ok := InsertOne(Stored(m));
    }

    /** One copy for the sender, one per member; the inserts run as tasks and
        finish in any order. */
    method SaveGroupMsg(m: Msg, members: seq<Member>) returns (ok: bool)
      requires Valid()
      modifies this`store, this`flat
      ensures Valid()
      ensures ok <==> Insertable(config, old(flat), multiset(Copies(m, members)))
      ensures ok ==> flat == old(flat) + multiset(Copies(m, members))
      ensures old(flat) <= flat <= old(flat) + multiset(Copies(m, members))
      ensures ok ==> exists d :: d in flat && IsSenderCopy(d, m)
      ensures ok ==> forall i :: 0 <= i < |members| ==> exists d :: d in flat && IsMemberCopy(d, m, members[i])
      ensures forall d :: d in flat && d !in old(flat) ==>
        IsSenderCopy(d, m) || exists i :: 0 <= i < |members| && IsMemberCopy(d, m, members[i])
    {
      hide IsSenderCopy, IsMemberCopy, Insertable, Valid;
      ghost var start := flat;
      var messages := [Stored(m.(receiverId := m.senderId))];
      var copy := m.(sendSeq := 0);
      for i := 0 to |members|
        invariant messages == Copies(m, members)[..i + 1]
        invariant copy == m.(sendSeq := 0, seqNo := copy.seqNo, receiverId := copy.receiverId)
      {
        copy := copy.(seqNo := members[i].curSeq);
        copy := copy.(receiverId := members[i].memId);
        messages := messages + [Stored(copy)];
      }
      assert messages == Copies(m, members);
      ok := InsertAll(messages);
      SavedCopies(start, flat, m, members);
    }

    method InsertAll(docs: seq<Msg>) returns (ok: bool)
      requires Valid()
      modifies this`store, this`flat
      ensures Valid()
      ensures ok <==> Insertable(config, old(flat), multiset(docs))
      ensures ok ==> flat == old(flat) + multiset(docs)
      ensures old(flat) <= flat <= old(flat) + multiset(docs)
    {
      hide NameOf, CollectionName, MonthOf, Insertable, Clash, InsertInv, UniqueSlots, Agrees;
      ok := true;
      var pending := docs;
      ghost var start, all, done: multiset<Msg> := flat, multiset(docs), multiset{};
      StartInsert(config, start, all);
      while pending != []
        invariant Valid()
        invariant done + multiset(pending) == all
        invariant InsertInv(config, start, flat, done, all, ok)
        decreases |pending|
      {
        var i :| 0 <= i < |pending|;
        var d := pending[i];
        assert pending == pending[..i] + [d] + pending[i + 1..];
        pending := pending[..i] + pending[i + 1..];
        InsertInvStep(config, start, flat, done, all, ok, d);
        var inserted := InsertOne(d);
        ok := ok && inserted;
        done := done + multiset{d};
      }
      assert done == all;
      EndInsert(config, start, flat, all, ok);
    }

    // ----- reading ---------------------------------------------------------

    /** The collection of `user` in the month `back` months ago. */
    method CollectionBack(user: string, now: int, back: nat) returns (name: string)
      ensures name == CollectionName(MonthOf(now) - back, Shard(config, user))
    {
      hide CollectionName, MonthOf, AddMonths;
      AddMonthsMonth(now, 0 - back);
      name := CollectionName(MonthOf(AddMonths(now, 0 - back)), Shard(config, user));
    }

    /** One query on one collection, sorted by the database; documents with equal
        keys come in no promised order. */
    method Query(name: string, p: Msg -> bool, key: Msg -> Key) returns (r: seq<Msg>)
      requires Valid()
      ensures Sorted(r, key)
      ensures forall d :: multiset(r)[d] == if p(d) && NameOf(config, d) == name then flat[d] else 0
    {
      hide NameOf, CollectionName, MonthOf, Agrees, UniqueSlots, Tracked;
      var found := Find(store, name, p);
      r := StableSort(found, key);
      StableSortIsStable(found, key);
      forall d
        ensures multiset(r)[d] == if p(d) && NameOf(config, d) == name then flat[d] else 0
      {
        FindCount(config, store, flat, name, p, d);
      }
    }

    /** The user's collection `back` months ago, queried. */
    method QueryBack(user: string, now: int, back: nat, p: Msg -> bool, key: Msg -> Key) returns (r: seq<Msg>)
      requires Valid()
      ensures Sorted(r, key)
      ensures forall d :: multiset(r)[d] == if p(d) && SeenBy(config, user, now, back, d) then flat[d] else 0
    {
      hide NameOf, CollectionName, MonthOf, Agrees, UniqueSlots, Tracked, Shard;
      var name := CollectionBack(user, now, back);
      r := Query(name, p, key);
      forall d
        ensures multiset(r)[d] == if p(d) && SeenBy(config, user, now, back, d) then flat[d] else 0
      {
        NameAt(config, user, MonthOf(now) - back, d);
      }
    }

    /** Sharding is transparent: what comes back is the flat collection's matches
        of the current and the two previous months, each once, in number order.
        An inverted range reserves a wrapped capacity and panics. */
    method GetMessages(user: string, lo: int, hi: int, now: int) returns (r: Option<seq<Msg>>)
      requires Valid()
      ensures r.None? <==> hi < lo
      ensures r.Some? ==> IsAnswer(flat, user, lo, hi, now, r.value)
      ensures r.Some? ==> forall i, j :: 0 <= i < j < |r.value| ==> r.value[i].seqNo <= r.value[j].seqNo
      ensures r.Some? ==> forall d ::
        multiset(r.value)[d] ==
          if d.receiverId == user && lo <= d.seqNo <= hi && MonthOf(now) - 3 < MonthOf(d.sendTime) <= MonthOf(now)
          then flat[d] else 0
    {
      hide NameOf, CollectionName, MonthOf, Agrees, UniqueSlots, Tracked, Shard;
      if !CanReserve(hi - lo) { return None; }
      var all: seq<Msg> := [];
      for back := 0 to 3
        invariant forall d ::
          multiset(all)[d] == if Received(user, lo, hi)(d) && Recent(now, back, d) then flat[d] else 0
      {
        var part := QueryBack(user, now, back, Received(user, lo, hi), BySeq());
        all := all + part;
      }
      r := Some(StableSort(all, BySeq()));
      StableSortIsStable(all, BySeq());
      AnswerInWords(flat, user, lo, hi, now, r.value);
    }

    /** Sent and received messages in time order. `parts` are the three monthly
        answers, newest first, before their numbers are hidden: the final sort
        puts the months oldest first and changes nothing within a month. Ranges of
        negative total length panic like an inverted range. */
    method GetMsgs(user: string, sendLo: int, sendHi: int, recLo: int, recHi: int, now: int)
      returns (r: Option<seq<Msg>>, ghost parts: seq<seq<Msg>>)
      requires Valid()
      ensures r.None? <==> sendHi - sendLo + recHi - recLo < 0
      ensures r.Some? ==> |parts| == 3
      ensures r.Some? ==> forall back :: 0 <= back < 3 ==>
        MonthAnswer(config, flat, user, now, back, SentOrReceived(user, sendLo, sendHi, recLo, recHi), parts[back])
      ensures r.Some? ==> r.value == ShownAll(user, parts[2] + parts[1] + parts[0])
      ensures r.Some? ==> Sorted(r.value, ByTime(user))
      ensures r.Some? ==> forall back, d :: 0 <= back < 3 ==>
        multiset(parts[back])[d] ==
          if ((d.receiverId == user && recLo <= d.seqNo <= recHi)
              || (d.senderId == user && sendLo <= d.sendSeq <= sendHi))
             && MonthOf(d.sendTime) == MonthOf(now) - back
             && config.hash(d.receiverId) % config.shards == config.hash(user) % config.shards
          then flat[d] else 0
      ensures r.Some? ==>
        var all := parts[2] + parts[1] + parts[0];
        |r.value| == |all| && forall i :: 0 <= i < |all| ==>
          r.value[i] == if all[i].senderId == user then all[i].(seqNo := 0) else all[i]
      ensures r.Some? ==> forall i, j :: 0 <= i < j < |r.value| ==> InTimeOrder(user, r.value[i], r.value[j])
    {
      var reserved := CanReserve(sendHi - sendLo + (recHi - recLo));
      assert reserved <==> sendHi - sendLo + recHi - recLo >= 0;
      hide *;
      if !reserved { return None, []; }
      var p, key := SentOrReceived(user, sendLo, sendHi, recLo, recHi), ByTime(user);
      var messages: seq<Msg> := [];
      parts := [];
      assert messages == ShownAll(user, Concat(parts)) by { NothingShown(user); }
      for back := 0 to 3
        invariant |parts| == back
        invariant forall b :: 0 <= b < back ==> MonthAnswer(config, flat, user, now, b, p, parts[b])
        invariant messages == ShownAll(user, Concat(parts))
      {
        var part, shown := ShownBack(user, now, back, p);
        ShownSnoc(user, parts, part);
        messages := messages + shown;
        parts := parts + [part];
      }
      MonthsSort(config, flat, user, now, p, parts);
      r := Some(StableSort(messages, key));
      forall back | 0 <= back < 3
        ensures forall d ::
          multiset(parts[back])[d] ==
          if ((d.receiverId == user && recLo <= d.seqNo <= recHi)
              || (d.senderId == user && sendLo <= d.sendSeq <= sendHi))
             && MonthOf(d.sendTime) == MonthOf(now) - back
             && config.hash(d.receiverId) % config.shards == config.hash(user) % config.shards
          then flat[d] else 0
      {
        MonthInWords(config, flat, user, now, back, sendLo, sendHi, recLo, recHi, parts[back]);
      }
      ShownInWords(user, parts[2] + parts[1] + parts[0], r.value);
    }

    /** One month's answer, and the same with the user's own numbers hidden. */
    method ShownBack(user: string, now: int, back: nat, p: Msg -> bool) returns (ghost part: seq<Msg>, shown: seq<Msg>)
      requires Valid()
      ensures MonthAnswer(config, flat, user, now, back, p, part)
      ensures shown == ShownAll(user, part)
    {
      hide NameOf, CollectionName, MonthOf, Shard;
      var found := QueryBack(user, now, back, p, ByTime(user));
      shown := [];
      for i := 0 to |found|
        invariant shown == ShownAll(user, found[..i])
      {
        var msg := found[i];
        if user == msg.senderId { msg := msg.(seqNo := 0); }
        shown := shown + [msg];
      }
      assert found[..|found|] == found;
      part := found;
    }

    // ----- changing --------------------------------------------------------

    method DeleteMany(name: string, p: Msg -> bool)
      requires Valid()
      modifies this`store, this`flat
      ensures Valid()
      ensures forall d :: flat[d] == if p(d) && NameOf(config, d) == name then 0 else old(flat)[d]
    {
      hide NameOf, CollectionName, MonthOf;
      DeleteAgrees(config, store, flat, name, p);
      ghost var flat' := flat - multiset(Find(store, name, p));
      SubsetUnique(config, flat, flat');
      if name in store {
        store := store[name := Filter(store[name], Not(p))];
      }
      flat := flat';
    }

    /** Deletes by number, in the current and the previous month only. */
    method DeleteMessages(user: string, seqs: seq<int>, now: int)
      requires Valid()
      modifies this`store, this`flat
      ensures Valid()
      ensures forall d ::
        flat[d] ==
          if d.receiverId == user && d.seqNo in seqs && MonthOf(now) - 2 < MonthOf(d.sendTime) <= MonthOf(now)
          then 0 else old(flat)[d]
    {
      hide NameOf, CollectionName, MonthOf, Agrees, UniqueSlots, Tracked, Shard;
      if seqs == [] { return; }
      for back := 0 to 2
        invariant Valid()
        invariant forall d :: flat[d] == if NumberedIn(user, seqs)(d) && Recent(now, back, d) then 0 else old(flat)[d]
      {
        var name := CollectionBack(user, now, back);
        DeleteMany(name, NumberedIn(user, seqs));
        forall d ensures NameOf(config, d) == name <==> SeenBy(config, user, now, back, d) {
          NameAt(config, user, MonthOf(now) - back, d);
        }
      }
    }

    method UpdateMany(name: string, p: Msg -> bool)
      requires Valid() && IgnoresRead(p)
      modifies this`store, this`flat
      ensures Valid()
      ensures forall d :: flat[d] == MarkedCount(old(flat), InCollection(config, p, name), d)
    {
      hide NameOf, CollectionName, MonthOf;
      UpdateAgrees(config, store, flat, name, p);
      ghost var flat' := FlatMarked(flat, store, name, p);
      forall d ensures flat'[d] == MarkedCount(flat, InCollection(config, p, name), d) {
        UpdateCount(config, store, flat, name, p, d);
      }
      InCollectionIgnoresRead(config, p, name);
      MarkKeepsUnique(config, flat, flat', InCollection(config, p, name));
      if name in store {
        store := store[name := MarkAll(store[name], p)];
      }
      flat := flat';
    }

    /** Marks as read by number, in the current and the previous month only. */
    method MsgRead(user: string, seqs: seq<int>, now: int)
      requires Valid()
      modifies this`store, this`flat
      ensures Valid()
      ensures forall d :: flat[d] == MarkedCount(old(flat), RecentlyNumbered(user, seqs, now, 2), d)
      ensures forall d ::
        flat[d] ==
          if d.receiverId == user && d.seqNo in seqs && MonthOf(now) - 2 < MonthOf(d.sendTime) <= MonthOf(now)
          then if d.isRead then old(flat)[d] + old(flat)[d.(isRead := false)] else 0
          else old(flat)[d]
    {
      hide NameOf, CollectionName, MonthOf, Agrees, UniqueSlots, Tracked, Shard;
      MarksNothing(user, seqs, now);
      MarksInWords(flat, user, seqs, now);
      if seqs == [] { return; }
      for back := 0 to 2
        invariant Valid()
        invariant forall d :: flat[d] == MarkedCount(old(flat), RecentlyNumbered(user, seqs, now, back), d)
      {
        var name := CollectionBack(user, now, back);
        ghost var before := flat;
        UpdateMany(name, NumberedIn(user, seqs));
        forall d
          ensures flat[d] == MarkedCount(old(flat), RecentlyNumbered(user, seqs, now, back + 1), d)
        {
          MarkTwice(config, user, seqs, now, back, name, old(flat), before, d);
        }
      }
    }

    // ----- by server id ----------------------------------------------------

    /** Searches the tracked collections, in any order. */
    method GetMessage(id: string) returns (r: Option<Msg>)
      requires Valid()
      ensures r.Some? ==> r.value in flat && r.value.serverId == id && NameOf(config, r.value) in active
      ensures r.None? ==> forall d :: d in flat && NameOf(config, d) in active ==> d.serverId != id
    {
      hide NameOf, CollectionName, MonthOf, Agrees, UniqueSlots, Tracked;
      var todo := active;
      while todo != {}
        invariant todo <= active
        invariant forall d :: d in flat && NameOf(config, d) in active - todo ==> d.serverId != id
        decreases todo
      {
        var name :| name in todo;
        todo := todo - {name};
        var docs := if name in store then store[name] else [];
        if i :| 0 <= i < |docs| && docs[i].serverId == id {
          RemoveOneAgrees(config, store, flat, name, i);
          return Some(docs[i]);
        }
        forall d | d in flat && NameOf(config, d) == name ensures d.serverId != id {
          AgreesCount(config, store, flat, name, d);
          assert d in docs;
        }
      }
      r := None;
    }

    /** Deletes one document of that id from the first tracked collection that
        has one; finding none is no error. */
    method DeleteMessage(id: string) returns (ghost gone: Option<Msg>)
      requires Valid()
      modifies this`store, this`flat
      ensures Valid()
      ensures gone.Some? ==>
        && gone.value in old(flat) && gone.value.serverId == id && NameOf(config, gone.value) in active
        && flat == old(flat) - multiset{gone.value}
      ensures gone.None? ==> flat == old(flat)
      ensures gone.None? ==> forall d :: d in flat && NameOf(config, d) in active ==> d.serverId != id
    {
      hide NameOf, CollectionName, MonthOf, Agrees, UniqueSlots, Tracked;
      var todo := active;
      while todo != {}
        invariant todo <= active && Valid() && flat == old(flat)
        invariant forall d :: d in flat && NameOf(config, d) in active - todo ==> d.serverId != id
        decreases todo
      {
        var name :| name in todo;
        todo := todo - {name};
        var docs := if name in store then store[name] else [];
        if i :| 0 <= i < |docs| && docs[i].serverId == id {
          RemoveOneAgrees(config, store, flat, name, i);
          SubsetUnique(config, flat, flat - multiset{docs[i]});
          store := store[name := docs[..i] + docs[i + 1..]];
          flat := flat - multiset{docs[i]};
          return Some(docs[i]);
        }
        forall d | d in flat && NameOf(config, d) == name ensures d.serverId != id {
          AgreesCount(config, store, flat, name, d);
          assert d in docs;
        }
      }
      gone := None;
    }

    // ----- the cleaner -----------------------------------------------------

    /** One daily tick: expired documents go from every tracked collection, then
        the names of outdated months are dropped. What a dropped name still holds
        is of an excepted type. */
    method CleanTick(now: int, period: nat, types: seq<int>)
      requires Valid() && ClockOk(now)
      modifies this`store, this`flat, this`active
      ensures Valid()
      ensures forall d ::
        flat[d] ==
          if d.sendTime < now - period * 86_400 && d.msgType !in types && NameOf(config, d) in old(active)
          then 0 else old(flat)[d]
      ensures forall name :: name in active <==>
        name in old(active) && !Outdated(name, YearMonth(MonthOf(now) - (period / 30 + 2)))
      ensures forall m, r: nat :: Orderable(m) ==>
        (CollectionName(m, r) in active <==>
         CollectionName(m, r) in old(active) && m >= MonthOf(now) - (period / 30 + 2))
      ensures forall d :: d in flat && NameOf(config, d) in old(active) - active ==> d.msgType in types
    {
      hide NameOf, CollectionName, MonthOf, Outdated, YearMonth, Orderable, ClockOk, Agrees, UniqueSlots, Tracked;
      DeleteExpired(now - period * DAY, types);
      ghost var tracked := active;
      DropOutdated(now, period);
      forall d | d in flat && NameOf(config, d) in tracked - active
        ensures d.msgType in types
      {
        DroppedAreExpired(config, now, period, d, tracked);
      }
    }

    /** The second half of a tick: whole months leave the list of tracked names. */
    method DropOutdated(now: int, period: nat)
      requires Valid() && ClockOk(now)
      modifies this`active
      ensures Valid()
      ensures forall name :: name in active <==>
        name in old(active) && !Outdated(name, YearMonth(MonthOf(now) - (period / 30 + 2)))
      ensures forall m, r: nat :: Orderable(m) ==>
        (CollectionName(m, r) in active <==>
         CollectionName(m, r) in old(active) && m >= MonthOf(now) - (period / 30 + 2))
    {
      hide NameOf, CollectionName, MonthOf, Outdated, YearMonth, Orderable, ClockOk, Agrees, UniqueSlots, Tracked;
      var threshold := MonthBack(now, period / 30 + 2);
      Untrack(threshold);
      ClockBound(now);
      OutdatedInWords(MonthOf(now) - (period / 30 + 2));
    }

    method MonthBack(now: int, back: nat) returns (s: string)
      ensures s == YearMonth(MonthOf(now) - back)
    {
      hide YearMonth, MonthOf, AddMonths;
      AddMonthsMonth(now, 0 - back);
      s := YearMonth(MonthOf(AddMonths(now, 0 - back)));
    }

    method DeleteExpired(cutoff: int, types: seq<int>)
      requires Valid()
      modifies this`store, this`flat
      ensures Valid()
      ensures forall d ::
        flat[d] ==
          if d.sendTime < cutoff && d.msgType !in types && NameOf(config, d) in active then 0 else old(flat)[d]
    {
      hide NameOf, CollectionName, MonthOf, Agrees, UniqueSlots, Tracked;
      var todo := active;
      while todo != {}
        invariant Valid() && todo <= active
        invariant forall d :: flat[d] == AfterExpiry(config, old(flat), active - todo, Expired(cutoff, types), d)
        decreases todo
      {
        var name :| name in todo;
        todo := todo - {name};
        if name in store {
          DeleteMany(name, Expired(cutoff, types));
        } else {
          forall d ensures NameOf(config, d) == name ==> flat[d] == 0 {
            AgreesCount(config, store, flat, name, d);
          }
        }
      }
    }

    method Untrack(threshold: string)
      requires Valid()
      modifies this`active
      ensures Valid()
      ensures forall name :: name in active <==> name in old(active) && !Outdated(name, threshold)
    {
      hide NameOf, CollectionName, MonthOf;
      var toRemove: set<string> := {};
      var todo := active;
      while todo != {}
        invariant todo <= active == old(active) && Valid()
        invariant forall name :: name in toRemove <==> name in active - todo && Outdated(name, threshold)
        decreases todo
      {
        var name :| name in todo;
        todo := todo - {name};
        TrackedParts(active, name);
        var parts := Split(name, '_');
        if |parts| >= 3 {
          var yearMonth := parts[2] + "_" + parts[3];
          if Less(yearMonth, threshold) {
            toRemove := toRemove + {name};
          }
        }
      }
      active := active - toRemove;
    }
  }

  /** A client that has everything asks for the numbers after its last ones: both
      ranges are inverted, and the answer is a panic, not an empty list. */
  method PullWhenUpToDate(box: HybridShardedMsgBox, user: string, sent: int, received: int, now: int)
    returns (r: Option<seq<Msg>>)
    requires box.Valid()
    ensures r.None?
  {
    ghost var parts;
    r, parts := box.GetMsgs(user, sent + 1, sent, received + 1, received, now);
  }

  /** How often `d` is left once the expired documents of `names` are gone. */
  ghost function AfterExpiry(c: Sharding, flat: multiset<Msg>, names: set<string>, expired: Msg -> bool, d: Msg): int
  {
    if expired(d) && NameOf(c, d) in names then 0 else flat[d]
  }

  /** Restricted to one collection. */
  ghost function InCollection(c: Sharding, p: Msg -> bool, name: string): Msg -> bool
  {
    (d: Msg) => p(d) && NameOf(c, d) == name
  }

  lemma InCollectionIgnoresRead(c: Sharding, p: Msg -> bool, name: string)
    requires IgnoresRead(p)
    ensures IgnoresRead(InCollection(c, p, name))
  {
    forall d: Msg, b: bool
      ensures InCollection(c, p, name)(d.(isRead := b)) == InCollection(c, p, name)(d)
    {
      assert NameOf(c, d.(isRead := b)) == NameOf(c, d);
    }
  }

  ghost function RecentlyNumbered(user: string, seqs: seq<int>, now: int, n: nat): Msg -> bool
  {
    (d: Msg) => NumberedIn(user, seqs)(d) && Recent(now, n, d)
  }

  lemma MarksNothing(user: string, seqs: seq<int>, now: int)
    ensures forall d :: !RecentlyNumbered(user, seqs, now, 0)(d)
    ensures seqs == [] ==> forall d :: !RecentlyNumbered(user, seqs, now, 2)(d)
  {
    hide MonthOf;
    forall d: Msg
      ensures !RecentlyNumbered(user, seqs, now, 0)(d)
      ensures seqs == [] ==> !RecentlyNumbered(user, seqs, now, 2)(d)
    {
      assert !Recent(now, 0, d);
      assert seqs == [] ==> !NumberedIn(user, seqs)(d);
    }
  }

  /** The marked collection without naming the query. */
  lemma MarksInWords(flat: multiset<Msg>, user: string, seqs: seq<int>, now: int)
    ensures forall d ::
      MarkedCount(flat, RecentlyNumbered(user, seqs, now, 2), d) ==
        if d.receiverId == user && d.seqNo in seqs && MonthOf(now) - 2 < MonthOf(d.sendTime) <= MonthOf(now)
        then if d.isRead then flat[d] + flat[d.(isRead := false)] else 0
        else flat[d]
  {
    hide MonthOf;
    forall d: Msg
      ensures RecentlyNumbered(user, seqs, now, 2)(d) ==
        (d.receiverId == user && d.seqNo in seqs && MonthOf(now) - 2 < MonthOf(d.sendTime) <= MonthOf(now))
    {
      assert NumberedIn(user, seqs)(d) == (d.receiverId == user && d.seqNo in seqs);
      assert Recent(now, 2, d) == (MonthOf(now) - 2 < MonthOf(d.sendTime) <= MonthOf(now));
    }
  }

  /** Marking one more month after the `back` before it. */
  lemma MarkTwice(c: Sharding, user: string, seqs: seq<int>, now: int, back: nat, name: string, start: multiset<Msg>,
                  before: multiset<Msg>, d: Msg)
    requires name == CollectionName(MonthOf(now) - back, Shard(c, user))
    requires forall e :: before[e] == MarkedCount(start, RecentlyNumbered(user, seqs, now, back), e)
    ensures MarkedCount(before, InCollection(c, NumberedIn(user, seqs), name), d)
         == MarkedCount(start, RecentlyNumbered(user, seqs, now, back + 1), d)
  {
    hide NameOf, CollectionName, MonthOf;
    var unread := d.(isRead := false);
    NameAt(c, user, MonthOf(now) - back, d);
    NameAt(c, user, MonthOf(now) - back, unread);
    assert unread.receiverId == d.receiverId && unread.seqNo == d.seqNo && unread.sendTime == d.sendTime;
    assert d.receiverId == user ==> Shard(c, d.receiverId) == Shard(c, user);
  }

  /** A month's answer: in time order, the flat collection's matches that lie in
      the user's shard in that month. */
  ghost predicate MonthAnswer(c: Sharding, flat: multiset<Msg>, user: string, now: int, back: nat, p: Msg -> bool,
                              part: seq<Msg>)
  {
    && Sorted(part, ByTime(user))
    && forall d :: multiset(part)[d] == if p(d) && SeenBy(c, user, now, back, d) then flat[d] else 0
  }

  /** The same without naming the query. */
  lemma MonthInWords(c: Sharding, flat: multiset<Msg>, user: string, now: int, back: nat,
                     sendLo: int, sendHi: int, recLo: int, recHi: int, part: seq<Msg>)
    requires MonthAnswer(c, flat, user, now, back, SentOrReceived(user, sendLo, sendHi, recLo, recHi), part)
    ensures forall d ::
      multiset(part)[d] ==
        if ((d.receiverId == user && recLo <= d.seqNo <= recHi)
            || (d.senderId == user && sendLo <= d.sendSeq <= sendHi))
           && MonthOf(d.sendTime) == MonthOf(now) - back
           && c.hash(d.receiverId) % c.shards == c.hash(user) % c.shards
        then flat[d] else 0
  {
    hide MonthOf;
    var p := SentOrReceived(user, sendLo, sendHi, recLo, recHi);
    forall d: Msg
      ensures p(d) == ((d.receiverId == user && recLo <= d.seqNo <= recHi)
                       || (d.senderId == user && sendLo <= d.sendSeq <= sendHi))
    {
    }
  }

  /** Earlier, or at the same time with a smaller own send number or number. */
  predicate InTimeOrder(user: string, a: Msg, b: Msg)
  {
    || a.sendTime < b.sendTime
    || (a.sendTime == b.sendTime &&
        (if a.senderId == user then a.sendSeq else a.seqNo) <= (if b.senderId == user then b.sendSeq else b.seqNo))
  }

  lemma ShownInWords(user: string, all: seq<Msg>, r: seq<Msg>)
    requires r == ShownAll(user, all) && Sorted(r, ByTime(user))
    ensures |r| == |all|
    ensures forall i :: 0 <= i < |all| ==> r[i] == if all[i].senderId == user then all[i].(seqNo := 0) else all[i]
    ensures forall i, j :: 0 <= i < j < |r| ==> InTimeOrder(user, r[i], r[j])
  {
    forall i, j | 0 <= i < j < |r|
      ensures InTimeOrder(user, r[i], r[j])
    {
      assert Le(ByTime(user)(r[i]), ByTime(user)(r[j]));
    }
  }

  lemma NothingShown(user: string)
    ensures ShownAll(user, Concat([])) == []
  {
  }

  lemma ShownSnoc(user: string, parts: seq<seq<Msg>>, part: seq<Msg>)
    ensures ShownAll(user, Concat(parts + [part])) == ShownAll(user, Concat(parts)) + ShownAll(user, part)
  {
    assert (parts + [part])[..|parts|] == parts;
  }

  lemma MonthsSort(c: Sharding, flat: multiset<Msg>, user: string, now: int, p: Msg -> bool, parts: seq<seq<Msg>>)
    requires |parts| == 3
    requires forall b :: 0 <= b < 3 ==> MonthAnswer(c, flat, user, now, b, p, parts[b])
    ensures StableSort(ShownAll(user, Concat(parts)), ByTime(user)) == ShownAll(user, parts[2] + parts[1] + parts[0])
    ensures Sorted(ShownAll(user, parts[2] + parts[1] + parts[0]), ByTime(user))
  {
    hide MonthOf, Shard, StableSort;
    forall b, d | 0 <= b < 3 && d in multiset(parts[b])
      ensures SeenBy(c, user, now, b, d)
    {
      assert MonthAnswer(c, flat, user, now, b, p, parts[b]);
    }
    MonthsReverse(c, user, now, parts);
    ConcatThree(parts);
    ShownSorts(user, parts[0], parts[1], parts[2]);
  }

  /** What `GetMessages` promises of its answer. */
  ghost predicate IsAnswer(flat: multiset<Msg>, user: string, lo: int, hi: int, now: int, r: seq<Msg>)
  {
    && Sorted(r, BySeq())
    && forall d :: multiset(r)[d] == if Received(user, lo, hi)(d) && Recent(now, 3, d) then flat[d] else 0
  }

  /** The same without naming the query or the sort key. */
  lemma AnswerInWords(flat: multiset<Msg>, user: string, lo: int, hi: int, now: int, r: seq<Msg>)
    requires IsAnswer(flat, user, lo, hi, now, r)
    ensures forall i, j :: 0 <= i < j < |r| ==> r[i].seqNo <= r[j].seqNo
    ensures forall d ::
      multiset(r)[d] ==
        if d.receiverId == user && lo <= d.seqNo <= hi && MonthOf(now) - 3 < MonthOf(d.sendTime) <= MonthOf(now)
        then flat[d] else 0
  {
    hide MonthOf;
    forall i, j | 0 <= i < j < |r| ensures r[i].seqNo <= r[j].seqNo { assert Le(BySeq()(r[i]), BySeq()(r[j])); }
    forall d: Msg
      ensures multiset(r)[d] ==
        if d.receiverId == user && lo <= d.seqNo <= hi && MonthOf(now) - 3 < MonthOf(d.sendTime) <= MonthOf(now)
        then flat[d] else 0
    {
      assert multiset(r)[d] == if Received(user, lo, hi)(d) && Recent(now, 3, d) then flat[d] else 0;
    }
  }

  /** No two documents that match `p` carry the same number. */
  ghost predicate NumbersDiffer(flat: multiset<Msg>, p: Msg -> bool)
  {
    forall d, e :: d in flat && e in flat && p(d) && p(e) && d.seqNo == e.seqNo ==> d == e
  }

  /** When no number in the asked range repeats, the promise leaves one answer. */
  lemma AnswerIsDetermined(flat: multiset<Msg>, user: string, lo: int, hi: int, now: int, a: seq<Msg>, b: seq<Msg>)
    requires IsAnswer(flat, user, lo, hi, now, a) && IsAnswer(flat, user, lo, hi, now, b)
    requires NumbersDiffer(flat, Received(user, lo, hi))
    ensures a == b
  {
    hide MonthOf;
    forall d: Msg ensures multiset(a)[d] == multiset(b)[d] { }
    forall x, y | x in a && y in a && BySeq()(x) == BySeq()(y) ensures x == y {
      assert multiset(a)[x] > 0 && multiset(a)[y] > 0;
    }
    SortedListingUnique(a, b, BySeq());
  }

  function Concat(parts: seq<seq<Msg>>): seq<Msg>
    decreases |parts|
  {
    if parts == [] then [] else Concat(parts[..|parts| - 1]) + parts[|parts| - 1]
  }

  lemma ConcatThree(parts: seq<seq<Msg>>)
    requires |parts| == 3
    ensures Concat(parts) == parts[0] + parts[1] + parts[2]
  {
    var two, one := parts[..2], parts[..1];
    assert two[..1] == one && one[..0] == [];
    assert Concat(one) == parts[0] && Concat(two) == parts[0] + parts[1];
  }

  /** Documents of an older month belong before those of a younger one. */
  lemma MonthsReverse(c: Sharding, user: string, now: int, parts: seq<seq<Msg>>)
    requires |parts| == 3
    requires forall b, d :: 0 <= b < 3 && d in multiset(parts[b]) ==> SeenBy(c, user, now, b, d)
    ensures Before(parts[2], parts[1], ByTime(user)) && Before(parts[1], parts[0], ByTime(user)) &&
      Before(parts[2], parts[0], ByTime(user))
  {
    hide MonthOf;
    forall a, b, i, j | 0 <= b < a < 3 && 0 <= i < |parts[a]| && 0 <= j < |parts[b]|
      ensures parts[a][i].sendTime < parts[b][j].sendTime
    {
      assert parts[a][i] in multiset(parts[a]) && parts[b][j] in multiset(parts[b]);
      MonthMonotone(parts[a][i].sendTime, parts[b][j].sendTime);
    }
  }

  /** Hiding the numbers first and sorting afterwards gives the sorted blocks hidden. */
  lemma ShownSorts(user: string, newest: seq<Msg>, middle: seq<Msg>, oldest: seq<Msg>)
    requires Sorted(newest, ByTime(user)) && Sorted(middle, ByTime(user)) && Sorted(oldest, ByTime(user))
    requires Before(oldest, middle, ByTime(user)) && Before(middle, newest, ByTime(user)) &&
      Before(oldest, newest, ByTime(user))
    ensures StableSort(ShownAll(user, newest + middle + oldest), ByTime(user))
         == ShownAll(user, oldest + middle + newest)
    ensures Sorted(ShownAll(user, oldest + middle + newest), ByTime(user))
  {
    var n, m, o := ShownAll(user, newest), ShownAll(user, middle), ShownAll(user, oldest);
    ShownKeepsKeys(user, newest);
    ShownKeepsKeys(user, middle);
    ShownKeepsKeys(user, oldest);
    assert ShownAll(user, newest + middle + oldest) == n + m + o;
    assert ShownAll(user, oldest + middle + newest) == o + m + n;
    BlocksReverse(n, m, o, ByTime(user));
    StableSortIsStable(n + m + o, ByTime(user));
  }

  /** Midway through a batch: `done` has been tried, `ok` if all of it went in. */
  ghost predicate InsertInv(c: Sharding, start: multiset<Msg>, flat: multiset<Msg>, done: multiset<Msg>,
                            all: multiset<Msg>, ok: bool)
  {
    && start <= flat <= start + done
    && (ok ==> flat == start + done && Insertable(c, start, done))
    && (!ok ==> !Insertable(c, start, all))
  }

  lemma StartInsert(c: Sharding, start: multiset<Msg>, all: multiset<Msg>)
    ensures InsertInv(c, start, start, multiset{}, all, true)
  {
  }

  lemma EndInsert(c: Sharding, start: multiset<Msg>, flat: multiset<Msg>, all: multiset<Msg>, ok: bool)
    requires InsertInv(c, start, flat, all, all, ok)
    ensures ok <==> Insertable(c, start, all)
    ensures ok ==> flat == start + all
    ensures start <= flat <= start + all
  {
  }

  lemma InsertInvStep(c: Sharding, start: multiset<Msg>, flat: multiset<Msg>, done: multiset<Msg>, all: multiset<Msg>,
                      ok: bool, d: Msg)
    requires InsertInv(c, start, flat, done, all, ok) && done + multiset{d} <= all
    ensures Clash(c, flat, d) ==> InsertInv(c, start, flat, done + multiset{d}, all, false)
    ensures !Clash(c, flat, d) ==> InsertInv(c, start, flat + multiset{d}, done + multiset{d}, all, ok)
  {
    if ok {
      if Clash(c, flat, d) {
        ClashMeansNotInsertable(c, start, done, d, all);
      } else {
        InsertableOneMore(c, start, done, d);
        assert flat + multiset{d} == start + (done + multiset{d});
      }
    }
  }

  /** The index of one collection sees every document of the same slot. */
  lemma SlotInCollection(c: Sharding, s: Store, flat: multiset<Msg>, d: Msg)
    requires Agrees(c, s, flat)
    ensures Clash(c, flat, d) <==>
      NameOf(c, d) in s && exists e :: e in s[NameOf(c, d)] && e.serverId == d.serverId && e.receiverId == d.receiverId
  {
    var name := NameOf(c, d);
    if Clash(c, flat, d) {
      var e :| e in flat && SameSlot(c, e, d);
      AgreesCount(c, s, flat, name, e);
      assert e in s[name];
    }
    if name in s {
      forall e | e in s[name] && e.serverId == d.serverId && e.receiverId == d.receiverId
        ensures Clash(c, flat, d)
      {
        assert e in multiset(s[name]);
        AgreesCount(c, s, flat, name, e);
        assert SameSlot(c, e, d);
      }
    }
  }
}
