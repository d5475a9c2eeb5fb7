/** The sharded collections against one flat collection: every document lies in
    the collection that its own month and receiver name, and nowhere else. */
module ShardedStore {
  import opened Calendar
  import opened Names
  import opened Documents

  /** `user_shards` as a `u8`, and the hash of a user id. */
  datatype Config = Config(shards: nat, hash: string -> nat)

  type Sharding = c: Config | 0 < c.shards < 256 witness Config(1, (s: string) => 0)

  type Store = map<string, seq<Msg>>

  function Shard(c: Sharding, user: string): (r: nat)
    ensures r < c.shards
  {
    c.hash(user) % c.shards
  }

  function NameOf(c: Sharding, d: Msg): string
  {
    CollectionName(MonthOf(d.sendTime), Shard(c, d.receiverId))
  }

  ghost function Coll(s: Store, name: string): multiset<Msg>
  {
    if name in s then multiset(s[name]) else multiset{}
  }

  /** The collection `name` holds exactly the flat collection's documents of that name. */
  ghost predicate AgreesAt(c: Sharding, s: Store, flat: multiset<Msg>, name: string)
  {
    forall d :: Coll(s, name)[d] == if NameOf(c, d) == name then flat[d] else 0
  }

  ghost predicate Agrees(c: Sharding, s: Store, flat: multiset<Msg>)
  {
    forall name :: AgreesAt(c, s, flat, name)
  }

  lemma AgreesCount(c: Sharding, s: Store, flat: multiset<Msg>, name: string, d: Msg)
    requires Agrees(c, s, flat)
    ensures Coll(s, name)[d] == if NameOf(c, d) == name then flat[d] else 0
  {
    assert AgreesAt(c, s, flat, name);
  }

  // ----- filtering ---------------------------------------------------------

  function Filter(s: seq<Msg>, p: Msg -> bool): seq<Msg>
  {
    if s == [] then []
    else if p(s[0]) then [s[0]] + Filter(s[1..], p)
    else Filter(s[1..], p)
  }

  lemma {:induction false} FilterCount(s: seq<Msg>, p: Msg -> bool, d: Msg)
    ensures multiset(Filter(s, p))[d] == if p(d) then multiset(s)[d] else 0
  {
    if s != [] {
      FilterCount(s[1..], p, d);
      assert s == [s[0]] + s[1..];
    }
  }

  function Not(p: Msg -> bool): Msg -> bool { (d: Msg) => !p(d) }

  function Find(s: Store, name: string, p: Msg -> bool): seq<Msg>
  {
    if name in s then Filter(s[name], p) else []
  }

  /** A query on one collection counts what the flat collection has of it. */
  lemma FindCount(c: Sharding, s: Store, flat: multiset<Msg>, name: string, p: Msg -> bool, d: Msg)
    requires Agrees(c, s, flat)
    ensures multiset(Find(s, name, p))[d] == if p(d) && NameOf(c, d) == name then flat[d] else 0
  {
    AgreesCount(c, s, flat, name, d);
    if name in s { FilterCount(s[name], p, d); }
  }

  // ----- the three changes -------------------------------------------------

  function Inserted(s: Store, name: string, d: Msg): Store
  {
    s[name := (if name in s then s[name] else []) + [d]]
  }

  lemma InsertAgrees(c: Sharding, s: Store, flat: multiset<Msg>, d: Msg)
    requires Agrees(c, s, flat)
    ensures Agrees(c, Inserted(s, NameOf(c, d), d), flat + multiset{d})
  {
    var s' := Inserted(s, NameOf(c, d), d);
    forall name
      ensures AgreesAt(c, s', flat + multiset{d}, name)
    {
      assert AgreesAt(c, s, flat, name);
      assert name != NameOf(c, d) ==> Coll(s', name) == Coll(s, name);
      assert name == NameOf(c, d) ==> Coll(s', name) == Coll(s, name) + multiset{d};
    }
  }

  function Deleted(s: Store, name: string, p: Msg -> bool): Store
  {
    if name in s then s[name := Filter(s[name], Not(p))] else s
  }

  lemma DeleteAgrees(c: Sharding, s: Store, flat: multiset<Msg>, name: string, p: Msg -> bool)
    requires Agrees(c, s, flat)
    ensures var flat' := flat - multiset(Find(s, name, p));
      && Agrees(c, Deleted(s, name, p), flat')
      && forall d :: flat'[d] == if p(d) && NameOf(c, d) == name then 0 else flat[d]
  {
    var s', flat' := Deleted(s, name, p), flat - multiset(Find(s, name, p));
    forall d
      ensures flat'[d] == if p(d) && NameOf(c, d) == name then 0 else flat[d]
    {
      FindCount(c, s, flat, name, p, d);
    }
    forall n
      ensures AgreesAt(c, s', flat', n)
    {
      forall d
        ensures Coll(s', n)[d] == if NameOf(c, d) == n then flat'[d] else 0
      {
        AgreesCount(c, s, flat, n, d);
        if n == name && name in s { FilterCount(s[name], Not(p), d); }
      }
    }
  }

  function Marked(d: Msg): Msg { d.(isRead := true) }

  function MarkAll(s: seq<Msg>, p: Msg -> bool): seq<Msg>
  {
    if s == [] then [] else [if p(s[0]) then Marked(s[0]) else s[0]] + MarkAll(s[1..], p)
  }

  /** A filter that does not look at the read flag. */
  ghost predicate IgnoresRead(p: Msg -> bool)
  {
    forall d: Msg, b: bool :: p(d.(isRead := b)) == p(d)
  }

  /** How many documents equal to `d` there are once those matching `p` are marked. */
  ghost function MarkedCount(m: multiset<Msg>, p: Msg -> bool, d: Msg): int
  {
    if !p(d) then m[d] else if d.isRead then m[d] + m[d.(isRead := false)] else 0
  }

  lemma MarkOneCount(x: Msg, p: Msg -> bool, d: Msg)
    requires IgnoresRead(p)
    ensures multiset{if p(x) then Marked(x) else x}[d] == MarkedCount(multiset{x}, p, d)
  {
    assert p(x.(isRead := true)) == p(x) && p(d.(isRead := false)) == p(d) && p(d.(isRead := true)) == p(d);
    if d.isRead {
      assert Marked(x) == d <==> x == d || x == d.(isRead := false) by {
        if x.isRead { assert Marked(x) == x; } else { assert Marked(x).(isRead := false) == x; }
      }
    }
  }

  lemma {:induction false} MarkAllCount(s: seq<Msg>, p: Msg -> bool, d: Msg)
    requires IgnoresRead(p)
    ensures multiset(MarkAll(s, p))[d] == MarkedCount(multiset(s), p, d)
  {
    if s != [] {
      hide Marked;
      var x, rest := s[0], s[1..];
      MarkAllCount(rest, p, d);
      MarkOneCount(x, p, d);
      assert s == [x] + rest;
      assert multiset(s) == multiset{x} + multiset(rest);
      assert multiset(MarkAll(s, p)) == multiset{if p(x) then Marked(x) else x} + multiset(MarkAll(rest, p));
    }
  }

  function Updated(s: Store, name: string, p: Msg -> bool): Store
  {
    if name in s then s[name := MarkAll(s[name], p)] else s
  }

  /** The flat effect of marking one collection. */
  ghost function FlatMarked(flat: multiset<Msg>, s: Store, name: string, p: Msg -> bool): multiset<Msg>
  {
    if name in s then flat - multiset(s[name]) + multiset(MarkAll(s[name], p)) else flat
  }

  ghost predicate InName(c: Sharding, p: Msg -> bool, name: string, d: Msg)
  {
    p(d) && NameOf(c, d) == name
  }

  lemma UpdateCount(c: Sharding, s: Store, flat: multiset<Msg>, name: string, p: Msg -> bool, d: Msg)
    requires Agrees(c, s, flat) && IgnoresRead(p)
    ensures FlatMarked(flat, s, name, p)[d] ==
      if !InName(c, p, name, d) then flat[d] else if d.isRead then flat[d] + flat[d.(isRead := false)] else 0
  {
    AgreesCount(c, s, flat, name, d);
    AgreesCount(c, s, flat, name, d.(isRead := false));
    if name in s { MarkAllCount(s[name], p, d); }
  }

  lemma UpdateAgrees(c: Sharding, s: Store, flat: multiset<Msg>, name: string, p: Msg -> bool)
    requires Agrees(c, s, flat) && IgnoresRead(p)
    ensures Agrees(c, Updated(s, name, p), FlatMarked(flat, s, name, p))
  {
    var s', flat' := Updated(s, name, p), FlatMarked(flat, s, name, p);
    forall n
      ensures AgreesAt(c, s', flat', n)
    {
      forall d
        ensures Coll(s', n)[d] == if NameOf(c, d) == n then flat'[d] else 0
      {
        AgreesCount(c, s, flat, n, d);
        AgreesCount(c, s, flat, n, d.(isRead := false));
        UpdateCount(c, s, flat, name, p, d);
        if n == name && name in s { MarkAllCount(s[name], p, d); }
      }
    }
  }

  lemma RemoveAt(docs: seq<Msg>, i: nat)
    requires i < |docs|
    ensures multiset(docs[..i] + docs[i + 1..]) + multiset{docs[i]} == multiset(docs)
  {
    assert docs == docs[..i] + [docs[i]] + docs[i + 1..];
  }

  /** `delete_one` of the document at position `i`. */
  lemma RemoveOneAgrees(c: Sharding, s: Store, flat: multiset<Msg>, name: string, i: nat)
    requires Agrees(c, s, flat) && name in s && i < |s[name]|
    ensures var d := s[name][i];
      && d in flat && NameOf(c, d) == name
      && Agrees(c, s[name := s[name][..i] + s[name][i + 1..]], flat - multiset{d})
  {
    hide NameOf;
    var d := s[name][i];
    var s', flat' := s[name := s[name][..i] + s[name][i + 1..]], flat - multiset{d};
    RemoveAt(s[name], i);
    assert d in Coll(s, name);
    AgreesCount(c, s, flat, name, d);
    assert Coll(s', name) + multiset{d} == Coll(s, name);
    forall n
      ensures AgreesAt(c, s', flat', n)
    {
      assert AgreesAt(c, s, flat, n);
      if n != name {
        assert Coll(s', n) == Coll(s, n);
      } else {
        forall e ensures Coll(s', n)[e] == if NameOf(c, e) == n then flat'[e] else 0 {
          assert Coll(s, n)[e] == if NameOf(c, e) == n then flat[e] else 0;
          assert Coll(s', n)[e] + multiset{d}[e] == Coll(s, n)[e];
        }
      }
    }
  }

  // ----- the unique index --------------------------------------------------

  /** Same collection and same (server_id, receiver_id): the index allows one. */
  predicate SameSlot(c: Sharding, a: Msg, b: Msg)
  {
    NameOf(c, a) == NameOf(c, b) && a.serverId == b.serverId && a.receiverId == b.receiverId
  }

  ghost predicate Clash(c: Sharding, flat: multiset<Msg>, d: Msg)
  {
    exists e :: e in flat && SameSlot(c, e, d)
  }

  ghost predicate UniqueSlots(c: Sharding, flat: multiset<Msg>)
  {
    forall a, b :: a in flat && b in flat && SameSlot(c, a, b) ==> a == b && flat[a] == 1
  }

  /** All of `docs` can be inserted, in any order. */
  ghost predicate Insertable(c: Sharding, flat: multiset<Msg>, docs: multiset<Msg>)
  {
    UniqueSlots(c, docs) && forall d :: d in docs ==> !Clash(c, flat, d)
  }

  lemma InsertableOneMore(c: Sharding, flat: multiset<Msg>, done: multiset<Msg>, d: Msg)
    requires Insertable(c, flat, done) && !Clash(c, flat + done, d)
    ensures Insertable(c, flat, done + multiset{d})
  {
    hide NameOf;
    assert forall e :: e in flat || e in done ==> e in flat + done;
    assert SameSlot(c, d, d);
    assert d !in done;
    forall a, b | a in done + multiset{d} && b in done + multiset{d} && SameSlot(c, a, b)
      ensures a == b && (done + multiset{d})[a] == 1
    {
      assert SameSlot(c, b, a);
    }
  }

  lemma ClashMeansNotInsertable(c: Sharding, flat: multiset<Msg>, done: multiset<Msg>, d: Msg, docs: multiset<Msg>)
    requires Clash(c, flat + done, d) && done + multiset{d} <= docs
    ensures !Insertable(c, flat, docs)
  {
    var e :| e in flat + done && SameSlot(c, e, d);
    assert d in docs;
    if e in flat {
      assert Clash(c, flat, d);
    } else {
      assert e in done && e in docs;
      if e == d { assert docs[d] >= 2; }
    }
  }

  /** Adding an insertable batch keeps the index unique. */
  lemma UniqueAfter(c: Sharding, flat: multiset<Msg>, docs: multiset<Msg>)
    requires UniqueSlots(c, flat) && Insertable(c, flat, docs)
    ensures UniqueSlots(c, flat + docs)
  {
    forall a, b | a in flat + docs && b in flat + docs && SameSlot(c, a, b)
      ensures a == b && (flat + docs)[a] == 1
    {
      if a in docs && b in flat { assert SameSlot(c, b, a); }
      assert SameSlot(c, a, a);
    }
  }

  lemma SubsetUnique(c: Sharding, flat: multiset<Msg>, flat': multiset<Msg>)
    requires UniqueSlots(c, flat) && flat' <= flat
    ensures UniqueSlots(c, flat')
  {
    forall a, b | a in flat' && b in flat' && SameSlot(c, a, b)
      ensures a == b && flat'[a] == 1
    {
      assert a in flat && b in flat;
    }
  }

  /** The read flag is no part of a slot, so marking keeps the index unique. */
  lemma MarkKeepsUnique(c: Sharding, flat: multiset<Msg>, flat': multiset<Msg>, q: Msg -> bool)
    requires UniqueSlots(c, flat) && IgnoresRead(q)
    requires forall d :: flat'[d] == MarkedCount(flat, q, d)
    ensures UniqueSlots(c, flat')
  {
    forall a, b | a in flat' && b in flat' && SameSlot(c, a, b)
      ensures a == b && flat'[a] == 1
    {
      var a0 := BeforeMark(c, flat, flat', q, a);
      var b0 := BeforeMark(c, flat, flat', q, b);
      assert SameSlot(c, a0, b0);
      var unread := a.(isRead := false);
      assert a == a.(isRead := true) || a == unread;
      if a in flat && unread in flat { assert SameSlot(c, a, unread); }
    }
  }

  /** The document that a marked one was. */
  lemma BeforeMark(c: Sharding, flat: multiset<Msg>, flat': multiset<Msg>, q: Msg -> bool, a: Msg) returns (a0: Msg)
    requires IgnoresRead(q) && a in flat' && flat'[a] == MarkedCount(flat, q, a)
    ensures a0 in flat && a == if q(a0) then Marked(a0) else a0
    ensures SameSlot(c, a0, a) && flat[a0] > 0
  {
    assert q(a.(isRead := false)) == q(a);
    a0 := if a in flat then a else a.(isRead := false);
  }

  /** A database without documents is where every box can start. */
  lemma EmptyAgrees(c: Sharding)
    ensures Agrees(c, map[], multiset{}) && UniqueSlots(c, multiset{})
  {
    hide NameOf;
    assert forall name :: AgreesAt(c, map[], multiset{}, name);
  }
}
