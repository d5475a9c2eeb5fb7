/** Friend requests and friends: two tables changed by apply, agree and delete.
    The `friends` table stays symmetric over every run. */
module Friends {

  type User = string
  type Id = string

  datatype Status = Pending | Accepted | Rejected | Blacked | Deleted | Muted | Hidden

  /** A row of `friendships`, keyed by its id; (user, friend) is unique. */
  datatype Request = Request(user: User, friend: User, status: Status, reqRemark: string, respRemark: string,
                             source: string)

  /** A row of `friends`, keyed by (user, friend). */
  datatype FriendRow = FriendRow(fsId: Id, status: Status, remark: string, source: string)

  datatype Pair = Pair(user: User, friend: User)

  datatype Tables = Tables(requests: map<Id, Request>, friends: map<Pair, FriendRow>)

  // ----- the three transactions --------------------------------------------

  predicate Applied(t: Tables, u: User, f: User)
  {
    exists id :: id in t.requests && t.requests[id].user == u && t.requests[id].friend == f
  }

  /** `INSERT INTO friendships ... ON CONFLICT (user_id, friend_id) DO UPDATE`. */
  function Apply(t: Tables, newId: Id, u: User, f: User, remark: string, source: string): Tables
  {
    if Applied(t, u, f) then
      t.(requests := map id | id in t.requests ::
           if t.requests[id].user == u && t.requests[id].friend == f
           then t.requests[id].(status := Pending, reqRemark := remark, source := source)
           else t.requests[id])
    else if newId in t.requests then t
    else t.(requests := t.requests[newId := Request(u, f, Pending, remark, "", source)])
  }

  /** One row of the insert into `friends`: an existing row keeps its `fs_id`. */
  function Upsert(friends: map<Pair, FriendRow>, key: Pair, row: FriendRow): map<Pair, FriendRow>
  {
    friends[key := if key in friends then row.(fsId := friends[key].fsId) else row]
  }

  /** Agreement fails on an unknown id, and on a request to oneself, where one
      statement would touch the same row twice. */
  predicate CanAgree(t: Tables, id: Id)
  {
    id in t.requests && t.requests[id].user != t.requests[id].friend
  }

  function Agree(t: Tables, id: Id, remark: string): Tables
  {
    if !CanAgree(t, id) then t
    else
      var r := t.requests[id].(status := Accepted, respRemark := remark);
      var one := Upsert(t.friends, Pair(r.user, r.friend), FriendRow(id, Accepted, r.reqRemark, r.source));
      var two := Upsert(one, Pair(r.friend, r.user), FriendRow(id, Accepted, r.respRemark, r.source));
      Tables(t.requests[id := r], two)
  }

  /** `fs_id = $1 AND EXISTS (... fs_id = $1 AND user_id = $3)`. */
  predicate MayDelete(t: Tables, id: Id, u: User)
  {
    exists p :: p in t.friends && t.friends[p].fsId == id && p.user == u
  }

  function Delete(t: Tables, id: Id, u: User): Tables
  {
    Tables(
      if id in t.requests then t.requests[id := t.requests[id].(status := Deleted)] else t.requests,
      if MayDelete(t, id, u)
      then map p | p in t.friends :: if t.friends[p].fsId == id then t.friends[p].(status := Deleted) else t.friends[p]
      else t.friends)
  }

  // ----- the invariant -----------------------------------------------------

  function Swap(p: Pair): Pair { Pair(p.friend, p.user) }

  /** Row (a, b) exists exactly when row (b, a) does, under the same request and
      with the same status. */
  ghost predicate Symmetric(friends: map<Pair, FriendRow>)
  {
    forall p :: p in friends ==>
      Swap(p) in friends && friends[Swap(p)].fsId == friends[p].fsId && friends[Swap(p)].status == friends[p].status
  }

  /** A friends row names the request that made the two friends. */
  ghost predicate Linked(t: Tables)
  {
    forall p :: p in t.friends ==>
      && p.user != p.friend
      && t.friends[p].fsId in t.requests
      && var r := t.requests[t.friends[p].fsId]; p == Pair(r.user, r.friend) || p == Pair(r.friend, r.user)
  }

  ghost predicate Unique(requests: map<Id, Request>)
  {
    forall i, j :: i in requests && j in requests && i != j ==>
      !(requests[i].user == requests[j].user && requests[i].friend == requests[j].friend)
  }

  ghost predicate Inv(t: Tables)
  {
    Symmetric(t.friends) && Linked(t) && Unique(t.requests)
  }

  /** Under the invariant a delete hits the two rows of one couple, and only when
      asked by one of the two. */
  lemma DeleteHitsOneCouple(t: Tables, id: Id, u: User, p: Pair)
    requires Inv(t) && p in t.friends
    ensures p in Delete(t, id, u).friends
    ensures Delete(t, id, u).friends[p] ==
      if t.friends[p].fsId == id && (u == p.user || u == p.friend) then t.friends[p].(status := Deleted)
      else t.friends[p]
  {
    if t.friends[p].fsId == id {
      assert Swap(p) in t.friends;
      if u == p.friend { assert Swap(p).user == u; }
    }
  }

  /** A delete in full. */
  lemma DeleteInWords(t: Tables, id: Id, u: User)
    requires Inv(t)
    ensures forall p :: p in t.friends ==>
      p in Delete(t, id, u).friends && Delete(t, id, u).friends[p] ==
        if t.friends[p].fsId == id && (u == p.user || u == p.friend) then t.friends[p].(status := Deleted)
        else t.friends[p]
    ensures Delete(t, id, u).requests.Keys == t.requests.Keys
    ensures forall i :: i in t.requests ==>
      Delete(t, id, u).requests[i] == if i == id then t.requests[i].(status := Deleted) else t.requests[i]
  {
    forall p | p in t.friends
      ensures p in Delete(t, id, u).friends && Delete(t, id, u).friends[p] ==
        if t.friends[p].fsId == id && (u == p.user || u == p.friend) then t.friends[p].(status := Deleted)
        else t.friends[p]
    {
      DeleteHitsOneCouple(t, id, u, p);
    }
  }

  /** A delete marks the request whoever asks, its rows only for one of the two.
      Afterwards request and rows agree exactly when one of the two asked, or the
      rows were deleted before. */
  lemma DeleteAgreesIff(t: Tables, id: Id, u: User, p: Pair)
    requires Inv(t) && p in t.friends && t.friends[p].fsId == id
    ensures var t' := Delete(t, id, u);
      && id in t'.requests && p in t'.friends
      && (t'.friends[p].status == t'.requests[id].status
          <==> u == p.user || u == p.friend || t.friends[p].status == Deleted)
  {
    DeleteHitsOneCouple(t, id, u, p);
  }

  /** Which row an agreement leaves under `p`. */
  lemma AgreeAt(t: Tables, id: Id, remark: string, p: Pair)
    requires CanAgree(t, id)
    ensures var r, friends := t.requests[id], Agree(t, id, remark).friends;
      if p == Pair(r.user, r.friend) || p == Pair(r.friend, r.user)
      then p in friends && friends[p].status == Accepted
           && friends[p].fsId == (if p in t.friends then t.friends[p].fsId else id)
      else (p in friends <==> p in t.friends) && (p in friends ==> friends[p] == t.friends[p])
  {
  }

  /** An agreement in full: the request is accepted with the reply's remark, each side
      of the couple gets the remark of its own side, and nothing else changes. */
  lemma AgreeInWords(t: Tables, id: Id, remark: string)
    requires CanAgree(t, id)
    ensures var r, t' := t.requests[id], Agree(t, id, remark);
      var mine, theirs := Pair(r.user, r.friend), Pair(r.friend, r.user);
      && t'.requests == t.requests[id := Request(r.user, r.friend, Accepted, r.reqRemark, remark, r.source)]
      && mine in t'.friends && theirs in t'.friends
      && t'.friends[mine].status == Accepted && t'.friends[theirs].status == Accepted
      && t'.friends[mine].remark == r.reqRemark && t'.friends[theirs].remark == remark
      && t'.friends[mine].source == r.source && t'.friends[theirs].source == r.source
      && (forall p :: p != mine && p != theirs ==> (p in t'.friends <==> p in t.friends))
      && (forall p :: p != mine && p != theirs && p in t.friends ==> t'.friends[p] == t.friends[p])
  {
  }

  lemma AgreeKeepsInv(t: Tables, id: Id, remark: string)
    requires Inv(t)
    ensures Inv(Agree(t, id, remark))
  {
    var t' := Agree(t, id, remark);
    if CanAgree(t, id) {
      forall p | p in t'.friends
        ensures RowOk(t', p)
      {
        AgreeRowOk(t, id, remark, p);
      }
    }
  }

  ghost predicate RowOk(t: Tables, p: Pair)
    requires p in t.friends
  {
    && Swap(p) in t.friends
    && t.friends[Swap(p)].fsId == t.friends[p].fsId && t.friends[Swap(p)].status == t.friends[p].status
    && p.user != p.friend
    && t.friends[p].fsId in t.requests
    && var r := t.requests[t.friends[p].fsId]; p == Pair(r.user, r.friend) || p == Pair(r.friend, r.user)
  }

  lemma AgreeRowOk(t: Tables, id: Id, remark: string, p: Pair)
    requires Inv(t) && CanAgree(t, id) && p in Agree(t, id, remark).friends
    ensures RowOk(Agree(t, id, remark), p)
  {
    assert Swap(Swap(p)) == p;
    assert p in t.friends <==> Swap(p) in t.friends;
    AgreeAt(t, id, remark, p);
    AgreeAt(t, id, remark, Swap(p));
  }

  lemma ApplyKeepsInv(t: Tables, newId: Id, u: User, f: User, remark: string, source: string)
    requires Inv(t)
    ensures Inv(Apply(t, newId, u, f, remark, source))
  {
    var t' := Apply(t, newId, u, f, remark, source);
    forall i | i in t.requests
      ensures i in t'.requests && t'.requests[i].user == t.requests[i].user &&
        t'.requests[i].friend == t.requests[i].friend
    {
    }
    assert t'.friends == t.friends;
    assert Linked(t') by {
      forall p | p in t'.friends
        ensures var id := t'.friends[p].fsId;
          id in t'.requests && t'.requests[id].user == t.requests[id].user &&
            t'.requests[id].friend == t.requests[id].friend
      {
      }
    }
  }

  lemma DeleteKeepsInv(t: Tables, id: Id, u: User)
    requires Inv(t)
    ensures Inv(Delete(t, id, u))
  {
    var t' := Delete(t, id, u);
    assert t'.friends.Keys == t.friends.Keys;
    forall p | p in t'.friends
      ensures t'.friends[p].fsId == t.friends[p].fsId
      ensures Swap(p) in t'.friends && t'.friends[Swap(p)].fsId == t'.friends[p].fsId &&
        t'.friends[Swap(p)].status == t'.friends[p].status
    {
      DeleteHitsOneCouple(t, id, u, p);
      DeleteHitsOneCouple(t, id, u, Swap(p));
    }
  }

  // ----- runs --------------------------------------------------------------

  datatype Op =
    | DoApply(newId: Id, user: User, friend: User, remark: string, source: string)
    | DoAgree(id: Id, respRemark: string)
    | DoDelete(fsId: Id, actor: User)

  function Next(t: Tables, op: Op): Tables
  {
    match op
    case DoApply(newId, u, f, remark, source) => Apply(t, newId, u, f, remark, source)
    case DoAgree(id, remark) => Agree(t, id, remark)
    case DoDelete(id, u) => Delete(t, id, u)
  }

  function Run(t: Tables, ops: seq<Op>): Tables
    decreases |ops|
  {
    if ops == [] then t else Run(Next(t, ops[0]), ops[1..])
  }

  lemma {:induction false} RunKeepsInv(t: Tables, ops: seq<Op>)
    requires Inv(t)
    ensures Inv(Run(t, ops))
    decreases |ops|
  {
    if ops != [] {
      match ops[0] {
        case DoApply(newId, u, f, remark, source) => ApplyKeepsInv(t, newId, u, f, remark, source);
        case DoAgree(id, remark) => AgreeKeepsInv(t, id, remark);
        case DoDelete(id, u) => DeleteKeepsInv(t, id, u);
      }
      RunKeepsInv(Next(t, ops[0]), ops[1..]);
    }
  }

  const EMPTY := Tables(map[], map[])

  /** Friendship is mutual in every reachable state. */
  lemma FriendsStaySymmetric(ops: seq<Op>, a: User, b: User)
    ensures var friends := Run(EMPTY, ops).friends;
      && (Pair(a, b) in friends <==> Pair(b, a) in friends)
      && (Pair(a, b) in friends ==>
            friends[Pair(a, b)].fsId == friends[Pair(b, a)].fsId &&
              friends[Pair(a, b)].status == friends[Pair(b, a)].status)
  {
    RunKeepsInv(EMPTY, ops);
    assert Swap(Pair(a, b)) == Pair(b, a) && Swap(Pair(b, a)) == Pair(a, b);
  }

  // ----- rows and the requests they name -----------------------------------

  /** A couple's rows have the status of the request they name. */
  ghost predicate InSync(t: Tables)
  {
    forall p :: p in t.friends ==> RowInSync(t, p)
  }

  predicate RowInSync(t: Tables, p: Pair)
    requires p in t.friends
  {
    t.friends[p].fsId in t.requests && t.friends[p].status == t.requests[t.friends[p].fsId].status
  }

  /** A friends row is never pending: it is written on agreement. */
  ghost predicate Settled(t: Tables)
  {
    forall p :: p in t.friends ==> t.friends[p].status != Pending
  }

  /** What keeps the two tables in step: nobody applies again under a request that
      made friends, a request that made no row re-accepts accepted rows only, and a
      delete is asked by one of the two or hits deleted rows. */
  predicate Harmonious(t: Tables, op: Op)
  {
    match op
    case DoApply(_, u, f, _, _) => forall p :: p in t.friends && t.friends[p].fsId in t.requests ==>
      var r := t.requests[t.friends[p].fsId]; !(r.user == u && r.friend == f)
    case DoAgree(id, _) => CanAgree(t, id) ==>
      var p := Pair(t.requests[id].user, t.requests[id].friend);
      p in t.friends && t.friends[p].fsId != id ==> t.friends[p].status == Accepted
    case DoDelete(id, u) => forall p :: p in t.friends && t.friends[p].fsId == id ==>
      u == p.user || u == p.friend || t.friends[p].status == Deleted
  }

  lemma OpKeepsInv(t: Tables, op: Op)
    requires Inv(t) && Settled(t)
    ensures Inv(Next(t, op)) && Settled(Next(t, op))
  {
    hide Inv;
    match op
    case DoApply(newId, u, f, remark, source) => ApplyKeepsInv(t, newId, u, f, remark, source);
    case DoAgree(id, remark) => AgreeKeepsInv(t, id, remark);
    case DoDelete(id, u) => DeleteKeepsInv(t, id, u);
  }

  lemma ApplyAt(t: Tables, newId: Id, u: User, f: User, remark: string, source: string, i: Id)
    requires i in t.requests
    ensures var t' := Apply(t, newId, u, f, remark, source);
      && t'.friends == t.friends && i in t'.requests
      && t'.requests[i].status ==
         (if t.requests[i].user == u && t.requests[i].friend == f then Pending else t.requests[i].status)
  {
  }

  lemma ApplySyncIff(t: Tables, newId: Id, u: User, f: User, remark: string, source: string)
    requires Linked(t) && Settled(t) && InSync(t)
    ensures InSync(Apply(t, newId, u, f, remark, source)) <==> Harmonious(t, DoApply(newId, u, f, remark, source))
  {
    var t' := Apply(t, newId, u, f, remark, source);
    assert t'.friends == t.friends;
    hide Apply, Linked;
    forall p | p in t.friends
      ensures t.friends[p].fsId in t.requests
      ensures var r := t.requests[t.friends[p].fsId]; RowInSync(t', p) <==> !(r.user == u && r.friend == f)
    {
      assert RowInSync(t, p);
      ApplyAt(t, newId, u, f, remark, source, t.friends[p].fsId);
    }
  }

  /** The row under `p` after an agreement. */
  lemma AgreeRowSync(t: Tables, id: Id, remark: string, p: Pair)
    requires Linked(t) && InSync(t) && CanAgree(t, id) && p in Agree(t, id, remark).friends
    ensures var r := t.requests[id];
      RowInSync(Agree(t, id, remark), p) <==>
      ((p == Pair(r.user, r.friend) || p == Pair(r.friend, r.user)) && p in t.friends && t.friends[p].fsId != id ==>
       t.friends[p].status == Accepted)
  {
    AgreeAt(t, id, remark, p);
    AgreeInWords(t, id, remark);
    hide Agree;
    if p in t.friends { assert RowInSync(t, p); }
  }

  lemma AgreeSyncIff(t: Tables, id: Id, remark: string)
    requires Inv(t) && InSync(t)
    ensures InSync(Agree(t, id, remark)) <==> Harmonious(t, DoAgree(id, remark))
  {
    if CanAgree(t, id) {
      var t', r := Agree(t, id, remark), t.requests[id];
      var mine, theirs := Pair(r.user, r.friend), Pair(r.friend, r.user);
      AgreeInWords(t, id, remark);
      assert mine in t.friends <==> theirs in t.friends by { assert Swap(mine) == theirs && Swap(theirs) == mine; }
      assert mine in t.friends ==>
        t.friends[mine].fsId == t.friends[theirs].fsId && t.friends[mine].status == t.friends[theirs].status by {
        assert Swap(mine) == theirs;
      }
      hide Agree, InSync, Symmetric, Unique;
      forall p | p in t'.friends
        ensures RowInSync(t', p) <==>
          ((p == mine || p == theirs) && p in t.friends && t.friends[p].fsId != id ==> t.friends[p].status == Accepted)
      {
        AgreeRowSync(t, id, remark, p);
      }
      hide RowInSync, Linked;
      RowsDecide(t');
    }
  }

  lemma RowsDecide(t: Tables)
    ensures InSync(t) <==> forall p :: p in t.friends ==> RowInSync(t, p)
  {
  }

  lemma DeleteSyncIff(t: Tables, id: Id, u: User)
    requires Inv(t) && InSync(t)
    ensures InSync(Delete(t, id, u)) <==> Harmonious(t, DoDelete(id, u))
  {
    var t' := Delete(t, id, u);
    assert t'.friends.Keys == t.friends.Keys;
    forall p | p in t.friends
      ensures RowInSync(t', p) <==>
        (t.friends[p].fsId == id ==> u == p.user || u == p.friend || t.friends[p].status == Deleted)
    {
      assert RowInSync(t, p);
      DeleteHitsOneCouple(t, id, u, p);
      if t.friends[p].fsId == id { DeleteAgreesIff(t, id, u, p); }
    }
  }

  /** One operation leaves rows and requests in step exactly when it is harmonious. */
  lemma SyncStepIff(t: Tables, op: Op)
    requires Inv(t) && Settled(t) && InSync(t)
    ensures Inv(Next(t, op)) && (InSync(Next(t, op)) <==> Harmonious(t, op))
  {
    OpKeepsInv(t, op);
    assert Linked(t);
    hide Inv, InSync, Harmonious, Settled, Linked;
    match op
    case DoApply(newId, u, f, remark, source) => ApplySyncIff(t, newId, u, f, remark, source);
    case DoAgree(id, remark) => AgreeSyncIff(t, id, remark);
    case DoDelete(id, u) => DeleteSyncIff(t, id, u);
  }

  ghost predicate InSyncThroughout(t: Tables, ops: seq<Op>)
    decreases |ops|
  {
    InSync(t) && (ops != [] ==> InSyncThroughout(Next(t, ops[0]), ops[1..]))
  }

  predicate HarmoniousThroughout(t: Tables, ops: seq<Op>)
    decreases |ops|
  {
    ops != [] ==> Harmonious(t, ops[0]) && HarmoniousThroughout(Next(t, ops[0]), ops[1..])
  }

  lemma {:induction false} RunSyncIff(t: Tables, ops: seq<Op>)
    requires Inv(t) && Settled(t) && InSync(t)
    ensures InSyncThroughout(t, ops) <==> HarmoniousThroughout(t, ops)
    decreases |ops|
  {
    hide Inv, InSync, Harmonious, Settled, Next;
    if ops != [] {
      OpKeepsInv(t, ops[0]);
      SyncStepIff(t, ops[0]);
      if Harmonious(t, ops[0]) { RunSyncIff(Next(t, ops[0]), ops[1..]); }
    }
  }

  /** Over every sequence of operations: each couple's rows have the status of their
      request all along if and only if every operation is harmonious. */
  lemma StatusesAgreeIff(ops: seq<Op>)
    ensures InSyncThroughout(EMPTY, ops) <==> HarmoniousThroughout(EMPTY, ops)
  {
    RunSyncIff(EMPTY, ops);
  }

  // ----- deleting by the id an agreement returned ---------------------------

  /** Deleting under the request that was just agreed ends the friendship exactly
      when the couple had no row yet, or one made by this same request. */
  lemma AgreedIdDeletesIff(t: Tables, id: Id, remark: string)
    requires Inv(t) && CanAgree(t, id)
    ensures var r := t.requests[id];
      var p := Pair(r.user, r.friend);
      var t' := Delete(Agree(t, id, remark), id, r.user);
      && p in t'.friends && Swap(p) in t'.friends
      && (t'.friends[p].status == Deleted <==> (p in t.friends ==> t.friends[p].fsId == id))
      && (t'.friends[Swap(p)].status == Deleted <==> (p in t.friends ==> t.friends[p].fsId == id))
  {
    var r := t.requests[id];
    var p := Pair(r.user, r.friend);
    AgreeKeepsInv(t, id, remark);
    var t1 := Agree(t, id, remark);
    assert Swap(p) in t.friends <==> p in t.friends by { assert Swap(Swap(p)) == p; }
    DeleteHitsOneCouple(t1, id, r.user, p);
    DeleteHitsOneCouple(t1, id, r.user, Swap(p));
  }

  /** A second request in the opposite direction: agreed, then deleted by its own
      id, it leaves both rows accepted. */
  lemma ReverseRequestCannotDelete(a: User, b: User, x: Id, y: Id)
    requires a != b && x != y
    ensures var t := Run(EMPTY, [DoApply(x, a, b, "", ""), DoAgree(x, ""), DoApply(y, b, a, "", ""), DoAgree(y, ""),
                                 DoDelete(y, b)]);
      && Pair(a, b) in t.friends && t.friends[Pair(a, b)].status == Accepted
      && Pair(b, a) in t.friends && t.friends[Pair(b, a)].status == Accepted
      && y in t.requests && t.requests[y].status == Deleted
  {
    var t1 := Apply(EMPTY, x, a, b, "", "");
    var t2 := Agree(t1, x, "");
    var t3 := Apply(t2, y, b, a, "", "");
    assert y in t3.requests && t3.requests[y] == Request(b, a, Pending, "", "", "");
    var t4 := Agree(t3, y, "");
    var t5 := Delete(t4, y, b);
    RunKeepsInv(EMPTY, [DoApply(x, a, b, "", ""), DoAgree(x, ""), DoApply(y, b, a, "", "")]);
    Unroll3(EMPTY, DoApply(x, a, b, "", ""), DoAgree(x, ""), DoApply(y, b, a, "", ""));
    AgreedIdDeletesIff(t3, y, "");
    AgreeKeepsInv(t3, y, "");
    DeleteHitsOneCouple(t4, y, b, Pair(a, b));
    DeleteHitsOneCouple(t4, y, b, Pair(b, a));
    Unroll5(EMPTY, DoApply(x, a, b, "", ""), DoAgree(x, ""), DoApply(y, b, a, "", ""), DoAgree(y, ""), DoDelete(y, b));
  }

  /** A stranger's delete leaves the two friends, under a deleted request. */
  lemma StrangerDeletesRequestOnly(a: User, b: User, c: User, x: Id)
    requires a != b && c != a && c != b
    ensures var t := Run(EMPTY, [DoApply(x, a, b, "", ""), DoAgree(x, ""), DoDelete(x, c)]);
      && x in t.requests && t.requests[x].status == Deleted
      && Pair(a, b) in t.friends && t.friends[Pair(a, b)].status == Accepted
  {
    var t1 := Apply(EMPTY, x, a, b, "", "");
    assert t1.requests == map[x := Request(a, b, Pending, "", "", "")];
    var t2 := Agree(t1, x, "");
    AgreeAt(t1, x, "", Pair(a, b));
    Unroll3(EMPTY, DoApply(x, a, b, "", ""), DoAgree(x, ""), DoDelete(x, c));
    assert Inv(t2) by {
      ApplyKeepsInv(EMPTY, x, a, b, "", "");
      AgreeKeepsInv(t1, x, "");
    }
    DeleteHitsOneCouple(t2, x, c, Pair(a, b));
  }

  lemma Unroll3(t: Tables, a: Op, b: Op, c: Op)
    ensures Run(t, [a, b, c]) == Next(Next(Next(t, a), b), c)
  {
    assert [a, b, c][1..] == [b, c] && [b, c][1..] == [c] && [c][1..] == [];
    assert Run(Next(Next(t, a), b), [c]) == Next(Next(Next(t, a), b), c);
    assert Run(Next(t, a), [b, c]) == Run(Next(Next(t, a), b), [c]);
  }

  lemma Unroll5(t: Tables, a: Op, b: Op, c: Op, d: Op, e: Op)
    ensures Run(t, [a, b, c, d, e]) == Next(Next(Next(Next(Next(t, a), b), c), d), e)
  {
    assert [a, b, c, d, e][1..] == [b, c, d, e] && [b, c, d, e][1..] == [c, d, e];
    assert Run(Next(t, a), [b, c, d, e]) == Run(Next(Next(t, a), b), [c, d, e]);
    Unroll3(Next(Next(t, a), b), c, d, e);
  }

  // ----- the repository ----------------------------------------------------

  /** Both transactions fetch the two users and take them out of the list after the
      commit: with fewer than two rows the call panics, its changes kept. */
  datatype Reply = Done(id: Id) | Failed | Panicked

  predicate BothFound(users: set<User>, u: User, f: User)
  {
    u != f && u in users && f in users
  }

  class FriendRepo {
    var requests: map<Id, Request>
    var friends: map<Pair, FriendRow>

    ghost function View(): Tables
      reads this
    {
      Tables(requests, friends)
    }

    constructor ()
      ensures View() == EMPTY
    {
      requests, friends := map[], map[];
    }

    /** `users` are the ids of the `users` table. The id returned is the surviving
        row's, not the generated one. */
    method CreateFs(newId: Id, u: User, f: User, remark: string, source: string, users: set<User>) returns (r: Reply)
      requires Inv(View())
      modifies this
      ensures View() == Apply(old(View()), newId, u, f, remark, source) && Inv(View())
      ensures r.Failed? <==> !Applied(old(View()), u, f) && newId in old(requests)
      ensures r.Panicked? ==> !BothFound(users, u, f)
      ensures r.Done? ==> BothFound(users, u, f)
      ensures r.Done? ==> r.id in requests && requests[r.id].user == u && requests[r.id].friend == f
      ensures r.Done? ==>
        requests[r.id].status == Pending && requests[r.id].reqRemark == remark && requests[r.id].source == source
      ensures friends == old(friends)
      ensures forall i :: i in old(requests) && !(old(requests)[i].user == u && old(requests)[i].friend == f) ==>
        i in requests && requests[i] == old(requests)[i]
      ensures Applied(old(View()), u, f) ==> requests.Keys == old(requests).Keys
      ensures !Applied(old(View()), u, f) && !r.Failed? ==> requests.Keys == old(requests).Keys + {newId}
    {
      ApplyKeepsInv(View(), newId, u, f, remark, source);
      var id := newId;
      if i :| i in requests && requests[i].user == u && requests[i].friend == f {
        id := i;
        requests := requests[i := requests[i].(status := Pending, reqRemark := remark, source := source)];
        assert requests == Apply(old(View()), newId, u, f, remark, source).requests;
      } else if newId in requests {
        return Failed;
      } else {
        requests := requests[newId := Request(u, f, Pending, remark, "", source)];
      }
      r := if BothFound(users, u, f) then Done(id) else Panicked;
    }

    method AgreeFriendApplyRequest(id: Id, remark: string, users: set<User>) returns (r: Reply)
      requires Inv(View())
      modifies this
      ensures View() == Agree(old(View()), id, remark) && Inv(View())
      ensures r.Failed? <==> !CanAgree(old(View()), id)
      ensures !r.Failed? ==> (r == Done(id) <==> BothFound(users, old(requests)[id].user, old(requests)[id].friend))
      ensures !r.Failed? ==> (r == Panicked <==> !BothFound(users, old(requests)[id].user, old(requests)[id].friend))
      ensures !r.Failed? ==>
        && id in requests && requests[id].status == Accepted && requests[id].respRemark == remark
        && friends[Pair(requests[id].user, requests[id].friend)].status == Accepted
        && friends[Pair(requests[id].user, requests[id].friend)].remark == requests[id].reqRemark
        && friends[Pair(requests[id].friend, requests[id].user)].status == Accepted
        && friends[Pair(requests[id].friend, requests[id].user)].remark == remark
    {
      AgreeKeepsInv(View(), id, remark);
      if CanAgree(View(), id) { AgreeInWords(View(), id, remark); }
      if id !in requests || requests[id].user == requests[id].friend { return Failed; }
      var q := requests[id].(status := Accepted, respRemark := remark);
      requests := requests[id := q];
      var mine, theirs := Pair(q.user, q.friend), Pair(q.friend, q.user);
      friends := friends[mine := if mine in friends
        then friends[mine].(remark := q.reqRemark, status := Accepted, source := q.source)
        else FriendRow(id, Accepted, q.reqRemark, q.source)];
      friends := friends[theirs := if theirs in friends
        then friends[theirs].(remark := q.respRemark, status := Accepted, source := q.source)
        else FriendRow(id, Accepted, q.respRemark, q.source)];
      r := if BothFound(users, q.user, q.friend) then Done(id) else Panicked;
    }

    method DeleteFriend(id: Id, u: User)
      requires Inv(View())
      modifies this
      ensures View() == Delete(old(View()), id, u) && Inv(View())
      ensures forall p :: p in old(friends) ==>
        p in friends && friends[p] ==
          if old(friends)[p].fsId == id && (u == p.user || u == p.friend) then old(friends)[p].(status := Deleted)
          else old(friends)[p]
      ensures requests.Keys == old(requests).Keys
      ensures forall i :: i in requests ==>
        requests[i] == if i == id then old(requests)[i].(status := Deleted) else old(requests)[i]
    {
      DeleteKeepsInv(View(), id, u);
      DeleteInWords(View(), id, u);
      hide Inv;
      if p :| p in friends && friends[p].fsId == id && p.user == u {
        friends := map q | q in friends :: if friends[q].fsId == id then friends[q].(status := Deleted) else friends[q];
      }
      if id in requests {
        requests := requests[id := requests[id].(status := Deleted)];
      }
    }
  }
}
