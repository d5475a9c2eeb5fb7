/** Per-user message numbers: the Redis counters, the Postgres ceilings, the
    consumer step that moves both, and the loader that rebuilds Redis.

    The value-level functions say what each operation does to the state; the
    classes are the stateful code, proved against those functions. */
module Sequence {

  type User = string

  /** `seq:<user>` counts received messages, `send_seq:<user>` sent ones. */
  datatype Key = Seq(user: User) | SendSeq(user: User)

  datatype Counter = Counter(cur: int, max: int)

  type Hashes = map<Key, Counter>

  datatype Reply = Reply(cur: int, max: int, updated: bool)

  datatype GroupMemSeq = GroupMemSeq(memId: User, curSeq: int, maxSeq: int, needUpdate: bool)

  /** One row of the `sequence` table. */
  datatype Row = Row(sendMax: int, recMax: int)

  type Table = map<User, Row>

  datatype World = World(redis: Hashes, loaded: bool, table: Table)

  // ----- the Lua scripts ---------------------------------------------------

  function Script(db: Hashes, key: Key, step: int): (r: Reply)
  {
    var before := if key in db then db[key] else Counter(0, step);
    var cur := before.cur + 1;
    if cur > before.max then Reply(cur, before.max + step, true) else Reply(cur, before.max, false)
  }

  function Bump(db: Hashes, key: Key, step: int): Hashes
  {
    var r := Script(db, key, step);
    db[key := Counter(r.cur, r.max)]
  }

  /** The single-user script run once per member, in list order. */
  function BumpAll(db: Hashes, members: seq<User>, step: int): Hashes
    decreases |members|
  {
    if members == [] then db
    else Bump(BumpAll(db, members[..|members| - 1], step), Seq(members[|members| - 1]), step)
  }

  /** What the run for member number `i` replies, with that member's name. */
  function MemSeqAt(db: Hashes, members: seq<User>, i: nat, step: int): GroupMemSeq
    requires i < |members|
  {
    var r := Script(BumpAll(db, members[..i], step), Seq(members[i]), step);
    GroupMemSeq(members[i], r.cur, r.max, r.updated)
  }

  function MemSeqs(db: Hashes, members: seq<User>, step: int): seq<GroupMemSeq>
  {
    seq(|members|, i requires 0 <= i < |members| => MemSeqAt(db, members, i, step))
  }

  // ----- the `sequence` table ----------------------------------------------

  function SaveMax(t: Table, u: User, step: int): Table
  {
    if u in t then t[u := t[u].(recMax := t[u].recMax + step)] else t
  }

  function SaveMaxAll(t: Table, us: seq<User>, step: int): Table
    decreases |us|
  {
    if us == [] then t else SaveMax(SaveMaxAll(t, us[..|us| - 1], step), us[|us| - 1], step)
  }

  /** `WHERE user_id = ANY($2)`: a user listed twice is still updated once. */
  function SaveMaxBatch(t: Table, us: seq<User>, step: int): Table
  {
    map u | u in t :: if u in us then t[u].(recMax := t[u].recMax + step) else t[u]
  }

  ghost predicate NoDup<T>(s: seq<T>)
  {
    forall i, j :: 0 <= i < j < |s| ==> s[i] != s[j]
  }

  lemma {:induction false} SaveMaxAllAt(t: Table, us: seq<User>, step: int, u: User)
    requires u in t
    ensures SaveMaxAll(t, us, step).Keys == t.Keys
    ensures SaveMaxAll(t, us, step)[u] == Row(t[u].sendMax, t[u].recMax + multiset(us)[u] * step)
    decreases |us|
  {
    if us != [] {
      var init := us[..|us| - 1];
      SaveMaxAllAt(t, init, step, u);
      assert us == init + [us[|us| - 1]];
    }
  }

  /** The one `ANY` update equals one `save_max_seq` per listed user exactly
      when no registered user is listed twice. */
  lemma BatchEqualsSinglesIff(t: Table, us: seq<User>, step: int)
    requires step >= 1
    ensures SaveMaxBatch(t, us, step) == SaveMaxAll(t, us, step)
       <==> forall u :: u in t ==> multiset(us)[u] <= 1
  {
    var batch, all := SaveMaxBatch(t, us, step), SaveMaxAll(t, us, step);
    forall u | u in t
      ensures all.Keys == t.Keys && u in batch && (batch[u] == all[u] <==> multiset(us)[u] <= 1)
    {
      BatchAt(t, us, step, u);
    }
    assert batch.Keys == t.Keys;
    hide SaveMaxBatch, SaveMaxAll;
    if t == map[] { EmptyTableStays(us, step); }
    assert all.Keys == t.Keys by { if u :| u in t { } }
    if forall u :: u in t ==> multiset(us)[u] <= 1 {
      assert batch == all;
    }
  }

  lemma BatchAt(t: Table, us: seq<User>, step: int, u: User)
    requires step >= 1 && u in t
    ensures SaveMaxAll(t, us, step).Keys == t.Keys && u in SaveMaxBatch(t, us, step)
    ensures SaveMaxBatch(t, us, step)[u] == SaveMaxAll(t, us, step)[u] <==> multiset(us)[u] <= 1
  {
    SaveMaxAllAt(t, us, step, u);
    hide SaveMaxAll;
    var n := multiset(us)[u];
    assert u in us <==> n >= 1;
    OneStepIff(n, step);
  }

  lemma OneStepIff(n: nat, step: int)
    requires step >= 1
    ensures n * step == (if n >= 1 then step else 0) <==> n <= 1
  {
    if n >= 2 { assert (n - 2) * step >= 0; }
  }

  lemma {:induction false} EmptyTableStays(us: seq<User>, step: int)
    ensures SaveMaxAll(map[], us, step) == map[]
    decreases |us|
  {
    if us != [] { EmptyTableStays(us[..|us| - 1], step); }
  }

  // ----- message kinds -----------------------------------------------------

  datatype MsgType =
    | SingleMsg | GroupMsg
    | GroupInvitation | GroupInviteNew | GroupMemberExit | GroupRemoveMember | GroupDismiss
    | GroupDismissOrExitReceived | GroupInvitationReceived | GroupUpdate | GroupFile | GroupPoll
    | GroupMute | GroupAnnouncement
    | FriendApplyReq | FriendApplyResp | FriendBlack | FriendDelete
    | SingleCallInvite | RejectSingleCall | AgreeSingleCall | SingleCallInviteNotAnswer
    | SingleCallInviteCancel | SingleCallOffer | Hangup | ConnectSingleCall | Candidate
    | Read | MsgRecResp | Notification | Service | FriendshipReceived

  datatype Kind = SingleNumbered | SinglePlain | Group

  function Classify(mt: MsgType): Kind
  {
    match mt
    case SingleMsg | SingleCallInviteNotAnswer | SingleCallInviteCancel | Hangup
       | ConnectSingleCall | RejectSingleCall | FriendApplyReq | FriendApplyResp | FriendDelete => SingleNumbered
    case GroupMsg | GroupFile | GroupPoll | GroupAnnouncement => Group
    case GroupInvitation | GroupInviteNew | GroupMemberExit | GroupRemoveMember
       | GroupDismiss | GroupUpdate | GroupMute => Group
    case GroupDismissOrExitReceived | GroupInvitationReceived | FriendBlack | SingleCallInvite
       | AgreeSingleCall | SingleCallOffer | Candidate | Read | MsgRecResp | Notification
       | Service | FriendshipReceived => SinglePlain
  }

  /** The kinds that give their receiver a number. */
  const NUMBERS_RECEIVER := {
    SingleMsg, SingleCallInviteNotAnswer, SingleCallInviteCancel, Hangup, ConnectSingleCall, RejectSingleCall,
    FriendApplyReq, FriendApplyResp, FriendDelete}

  /** The kinds that give every member but the sender a number. */
  const NUMBERS_MEMBERS := {
    GroupMsg, GroupFile, GroupPoll, GroupAnnouncement, GroupInvitation, GroupInviteNew, GroupMemberExit,
    GroupRemoveMember, GroupDismiss, GroupUpdate, GroupMute}

  /** The kinds of the call protocol that never reach the database. */
  const SKIPS_DB := {ConnectSingleCall, AgreeSingleCall, Candidate, SingleCallOffer, SingleCallInvite}

  lemma KindsInWords(mt: MsgType)
    ensures Classify(mt).SingleNumbered? <==> mt in NUMBERS_RECEIVER
    ensures Classify(mt).Group? <==> mt in NUMBERS_MEMBERS
    ensures SendToDbFlag(mt) <==> mt !in SKIPS_DB
  {
  }

  predicate SendToDbFlag(mt: MsgType)
  {
    !(mt.ConnectSingleCall? || mt.AgreeSingleCall? || mt.Candidate? || mt.SingleCallOffer? || mt.SingleCallInvite?)
  }

  /** No kind of group message skips the database, where its ceilings are saved. */
  lemma GroupGoesToDb(mt: MsgType)
    ensures Classify(mt).Group? ==> SendToDbFlag(mt)
  {
    match mt case _ =>
  }

  lemma ReadIsPlain(mt: MsgType)
    ensures mt.Read? ==> Classify(mt).SinglePlain?
  {
  }

  // ----- one handled message -----------------------------------------------

  function Retain(members: seq<User>, sender: User): (r: seq<User>)
    ensures forall u :: u in r <==> u in members && u != sender
    ensures NoDup(members) ==> NoDup(r)
  {
    if members == [] then []
    else if members[0] == sender then Retain(members[1..], sender)
    else
      var rest := Retain(members[1..], sender);
      assert NoDup(members) ==> NoDup(members[1..]);
      assert NoDup(members) ==> members[0] !in members[1..];
      assert forall i :: 0 <= i < |rest| ==> rest[i] in rest;
      [members[0]] + rest
  }

  function NeedUpdate(seqs: seq<GroupMemSeq>): (r: seq<User>)
    ensures forall u :: u in r <==> exists i :: 0 <= i < |seqs| && seqs[i].memId == u && seqs[i].needUpdate
  {
    if seqs == [] then []
    else
      var init := seqs[..|seqs| - 1];
      var last := seqs[|seqs| - 1];
      assert forall i :: 0 <= i < |init| ==> init[i] == seqs[i];
      var rest := NeedUpdate(init);
      if last.needUpdate then
        assert last.memId in rest + [last.memId];
        rest + [last.memId]
      else rest
  }

  /** The guard of `handle_send_seq`; a missing hash reads as (0, 0). */
  predicate SendSeqTest(db: Hashes, u: User, step: int)
  {
    var c := if SendSeq(u) in db then db[SendSeq(u)] else Counter(0, 0);
    c.cur == c.max - step
  }

  datatype Outcome = Outcome(world: World, ok: bool)

  /** One number for one receiver, the ceiling saved when the script moved it. */
  function Numbered(w: World, u: User, step: int): Outcome
  {
    var w1 := w.(redis := Bump(w.redis, Seq(u), step));
    if Script(w.redis, Seq(u), step).updated
    then Outcome(w1.(table := SaveMax(w.table, u, step)), u in w.table)
    else Outcome(w1, true)
  }

  /** One number per member, the moved ceilings saved in one batch. */
  function Grouped(w: World, members: seq<User>, step: int): World
  {
    w.(redis := BumpAll(w.redis, members, step),
       table := SaveMaxBatch(w.table, NeedUpdate(MemSeqs(w.redis, members, step)), step))
  }

  function Handle(w: World, mt: MsgType, sender: User, receiver: User, members: seq<User>, step: int): Outcome
  {
    if mt.Read? then Outcome(w, true)
    else if SendSeqTest(w.redis, sender, step) && sender !in w.table then Outcome(w, false)
    else
      var w1 := if SendSeqTest(w.redis, sender, step) then w.(table := SaveMax(w.table, sender, step)) else w;
      match Classify(mt)
      case SinglePlain => Outcome(w1, true)
      case SingleNumbered => Numbered(w1, receiver, step)
      case Group => Outcome(Grouped(w1, Retain(members, sender), step), true)
  }

  // ----- rebuilding Redis --------------------------------------------------

  datatype SeqRow = SeqRow(user: User, sendMax: int, recMax: int)

  function WithRows(db: Hashes, rows: seq<SeqRow>): Hashes
    decreases |rows|
  {
    if rows == [] then db
    else
      var r := rows[|rows| - 1];
      WithRows(db, rows[..|rows| - 1])[SendSeq(r.user) := Counter(r.sendMax, r.sendMax)]
                                     [Seq(r.user) := Counter(r.recMax, r.recMax)]
  }

  lemma NoRows(db: Hashes)
    ensures WithRows(db, []) == db
  {
  }

  lemma {:induction false} WithRowsConcat(db: Hashes, a: seq<SeqRow>, b: seq<SeqRow>)
    ensures WithRows(db, a + b) == WithRows(WithRows(db, a), b)
    decreases |b|
  {
    if b == [] {
      assert a + b == a;
    } else {
      assert (a + b)[..|a + b| - 1] == a + b[..|b| - 1];
      WithRowsConcat(db, a, b[..|b| - 1]);
    }
  }

  /** `rows` lists every row of `t`, and rows of `t` only. */
  ghost predicate Enumerates(rows: seq<SeqRow>, t: Table)
  {
    && (forall i :: 0 <= i < |rows| ==> rows[i].user in t && t[rows[i].user] == Row(rows[i].sendMax, rows[i].recMax))
    && (forall u :: u in t ==> exists i :: 0 <= i < |rows| && rows[i].user == u)
  }

  /** Both counters of every registered user restart at their ceilings. */
  function Restored(db: Hashes, t: Table): Hashes
  {
    map k | k in db.Keys + KeysOf(t.Keys) :: if k.user in t then AtCeiling(t, k) else db[k]
  }

  function KeysOf(us: set<User>): (ks: set<Key>)
    ensures forall k :: k in ks <==> k.user in us
  {
    var ks := (set u | u in us :: Seq(u)) + (set u | u in us :: SendSeq(u));
    assert forall k: Key :: k == Seq(k.user) || k == SendSeq(k.user);
    ks
  }

  function AtCeiling(t: Table, k: Key): Counter
    requires k.user in t
  {
    var n := if k.Seq? then t[k.user].recMax else t[k.user].sendMax;
    Counter(n, n)
  }

  lemma {:induction false} WithRowsAt(db: Hashes, rows: seq<SeqRow>, t: Table, k: Key)
    requires forall i :: 0 <= i < |rows| ==>
      rows[i].user in t && t[rows[i].user] == Row(rows[i].sendMax, rows[i].recMax)
    ensures k in WithRows(db, rows) <==> k in db || exists i :: 0 <= i < |rows| && rows[i].user == k.user
    ensures k in WithRows(db, rows) ==>
      WithRows(db, rows)[k] == if exists i :: 0 <= i < |rows| && rows[i].user == k.user then AtCeiling(t, k) else db[k]
    decreases |rows|
  {
    if rows != [] {
      var init := rows[..|rows| - 1];
      assert forall i :: 0 <= i < |init| ==> init[i] == rows[i];
      WithRowsAt(db, init, t, k);
      if exists i :: 0 <= i < |rows| && rows[i].user == k.user {
        var i :| 0 <= i < |rows| && rows[i].user == k.user;
        if i < |init| { assert init[i].user == k.user; }
      }
      if rows[|rows| - 1].user == k.user {
        assert k == Seq(k.user) || k == SendSeq(k.user);
      }
    }
  }

  lemma LoadRestores(db: Hashes, rows: seq<SeqRow>, t: Table)
    requires Enumerates(rows, t)
    ensures WithRows(db, rows) == Restored(db, t)
  {
    var a, b := WithRows(db, rows), Restored(db, t);
    forall k: Key
      ensures k in a <==> k in b
      ensures k in a ==> a[k] == b[k]
    {
      WithRowsAt(db, rows, t, k);
      if k.user in t {
        var i :| 0 <= i < |rows| && rows[i].user == k.user;
      }
    }
  }

  /** Which counter restarts where: sent messages at the send ceiling, received ones
      at the receive ceiling, and nobody else's counter moves. */
  lemma RestoredAt(db: Hashes, t: Table, u: User)
    ensures u in t ==> SendSeq(u) in Restored(db, t) && Seq(u) in Restored(db, t)
    ensures u in t ==> Restored(db, t)[SendSeq(u)] == Counter(t[u].sendMax, t[u].sendMax)
    ensures u in t ==> Restored(db, t)[Seq(u)] == Counter(t[u].recMax, t[u].recMax)
    ensures u !in t ==> (SendSeq(u) in Restored(db, t) <==> SendSeq(u) in db)
    ensures u !in t ==> (Seq(u) in Restored(db, t) <==> Seq(u) in db)
    ensures u !in t && SendSeq(u) in db ==> Restored(db, t)[SendSeq(u)] == db[SendSeq(u)]
    ensures u !in t && Seq(u) in db ==> Restored(db, t)[Seq(u)] == db[Seq(u)]
  {
  }

  /** The last row of a user decides both counters. */
  lemma {:induction false} WithRowsLast(db: Hashes, rows: seq<SeqRow>, u: User, i: int)
    requires LastRowOf(rows, u, i)
    ensures SendSeq(u) in WithRows(db, rows) && Seq(u) in WithRows(db, rows)
    ensures WithRows(db, rows)[SendSeq(u)] == Counter(rows[i].sendMax, rows[i].sendMax)
    ensures WithRows(db, rows)[Seq(u)] == Counter(rows[i].recMax, rows[i].recMax)
    decreases |rows|
  {
    var init := rows[..|rows| - 1];
    if i < |init| {
      assert LastRowOf(init, u, i);
      WithRowsLast(db, init, u, i);
    }
  }

  /** A user without a row keeps both counters. */
  lemma {:induction false} WithRowsElse(db: Hashes, rows: seq<SeqRow>, k: Key)
    requires forall i :: 0 <= i < |rows| ==> rows[i].user != k.user
    ensures k in WithRows(db, rows) <==> k in db
    ensures k in db ==> WithRows(db, rows)[k] == db[k]
    decreases |rows|
  {
    if rows != [] { WithRowsElse(db, rows[..|rows| - 1], k); }
  }

  ghost predicate LastRowOf(rows: seq<SeqRow>, u: User, i: int)
  {
    0 <= i < |rows| && rows[i].user == u && forall j :: i < j < |rows| ==> rows[j].user != u
  }

  // ----- the stateful code -------------------------------------------------

  /** A reply value as the Redis client delivers it. */
  datatype Value = Nil | Int(i: int) | Bulk(items: seq<Value>)

  class RedisCache {
    const step: int
    var cur: map<Key, int>
    var max: map<Key, int>
    var loaded: bool

    ghost predicate Valid()
      reads this
    {
      cur.Keys == max.Keys
    }

    ghost function View(): Hashes
      reads this
      requires Valid()
    {
      map k | k in cur :: Counter(cur[k], max[k])
    }

    constructor (step: int)
      ensures Valid() && this.step == step && View() == map[] && !loaded
    {
      this.step := step;
      cur, max, loaded := map[], map[], false;
    }

    method RunScript(key: Key) returns (reply: Reply)
      requires Valid()
      modifies this`cur, this`max
      ensures Valid()
      ensures reply == Script(old(View()), key, step)
      ensures View() == Bump(old(View()), key, step)
      ensures reply.cur == (if key in old(cur) then old(cur)[key] else 0) + 1
      ensures cur == old(cur)[key := reply.cur] && max == old(max)[key := reply.max]
      ensures var before := if key in old(max) then old(max)[key] else step;
        reply.updated == (reply.cur > before) && reply.max == if reply.updated then before + step else before
    {
      var curSeq := (if key in cur then cur[key] else 0) + 1;
      cur := cur[key := curSeq];
      var maxSeq := if key in max then max[key] else step;
      max := max[key := maxSeq];
      var updated := false;
      if curSeq > maxSeq {
        maxSeq := maxSeq + step;
        max := max[key := maxSeq];
        updated := true;
      }
      reply := Reply(curSeq, maxSeq, updated);
      assert View() == old(View())[key := Counter(curSeq, maxSeq)];
    }

    /** The body of the group script's loop: its own commands on the hash, a branch
        for a stored ceiling, and an integer flag. */
    method GroupIteration(key: Key) returns (row: Value)
      requires Valid()
      modifies this`cur, this`max
      ensures Valid()
      ensures View() == Bump(old(View()), key, step)
      ensures var r := Script(old(View()), key, step);
        row == Bulk([Int(r.cur), Int(r.max), Int(if r.updated then 1 else 0)])
    {
      var curSeq := (if key in cur then cur[key] else 0) + 1;
      cur := cur[key := curSeq];
      var updated, maxSeq := 0, step;
      if key !in max {
        max := max[key := maxSeq];
      } else {
        maxSeq := max[key];
      }
      if curSeq > maxSeq {
        maxSeq := maxSeq + step;
        max := max[key := maxSeq];
        updated := 1;
      }
      row := Bulk([Int(curSeq), Int(maxSeq), Int(updated)]);
      assert View() == old(View())[key := Counter(curSeq, maxSeq)];
    }

    method RunGroupScript(members: seq<User>) returns (result: seq<Value>)
      requires Valid()
      modifies this`cur, this`max
      ensures Valid()
      ensures View() == BumpAll(old(View()), members, step)
      ensures |result| == |members|
      ensures forall i :: 0 <= i < |members| ==>
        var r := MemSeqAt(old(View()), members, i, step);
        result[i] == Bulk([Int(r.curSeq), Int(r.maxSeq), Int(if r.needUpdate then 1 else 0)])
    {
      result := [];
      for i := 0 to |members|
        invariant Valid()
        invariant View() == BumpAll(old(View()), members[..i], step)
        invariant |result| == i
        invariant forall j :: 0 <= j < i ==>
          var r := MemSeqAt(old(View()), members, j, step);
          result[j] == Bulk([Int(r.curSeq), Int(r.maxSeq), Int(if r.needUpdate then 1 else 0)])
      {
        var row := GroupIteration(Seq(members[i]));
        assert members[..i + 1][..i] == members[..i];
        result := result + [row];
      }
      assert members[..|members|] == members;
    }

    method IncrGroupSeq(members: seq<User>) returns (seqs: seq<GroupMemSeq>)
      requires Valid()
      modifies this`cur, this`max
      ensures Valid()
      ensures View() == BumpAll(old(View()), members, step)
      ensures seqs == MemSeqs(old(View()), members, step)
    {
      ghost var db := View();
      var response := RunGroupScript(members);
      var waiting := members;
      seqs := [];
      for i := 0 to |response|
        invariant waiting == members[i..]
        invariant seqs == MemSeqs(db, members, step)[..i]
      {
        match response[i]
        case Bulk(items) =>
          if |items| == 3 && items[0].Int? && items[1].Int? && items[2].Int? {
            seqs := seqs + [GroupMemSeq(waiting[0], items[0].i, items[1].i, items[2].i != 0)];
            waiting := waiting[1..];
          }
        case _ =>
      }
    }

    method SetSeq(rows: seq<SeqRow>)
      requires Valid()
      modifies this`cur, this`max
      ensures Valid()
      ensures View() == WithRows(old(View()), rows)
      ensures forall u, i :: LastRowOf(rows, u, i) ==>
        && SendSeq(u) in cur && cur[SendSeq(u)] == rows[i].sendMax && max[SendSeq(u)] == rows[i].sendMax
        && Seq(u) in cur && cur[Seq(u)] == rows[i].recMax && max[Seq(u)] == rows[i].recMax
      ensures forall k: Key :: (forall i :: 0 <= i < |rows| ==> rows[i].user != k.user) ==>
        (k in View() <==> k in old(View())) && (k in View() ==> View()[k] == old(View())[k])
    {
      for i := 0 to |rows|
        invariant Valid()
        invariant View() == WithRows(old(View()), rows[..i])
      {
        var r := rows[i];
        HSetBoth(SendSeq(r.user), r.sendMax);
        HSetBoth(Seq(r.user), r.recMax);
        assert rows[..i + 1][..i] == rows[..i];
      }
      assert rows[..|rows|] == rows;
      forall u, i | LastRowOf(rows, u, i)
        ensures SendSeq(u) in View() && View()[SendSeq(u)] == Counter(rows[i].sendMax, rows[i].sendMax)
        ensures Seq(u) in View() && View()[Seq(u)] == Counter(rows[i].recMax, rows[i].recMax)
      {
        WithRowsLast(old(View()), rows, u, i);
      }
      forall k: Key | forall i :: 0 <= i < |rows| ==> rows[i].user != k.user
        ensures (k in View() <==> k in old(View())) && (k in View() ==> View()[k] == old(View())[k])
      {
        WithRowsElse(old(View()), rows, k);
      }
    }

    method HSetBoth(key: Key, n: int)
      requires Valid()
      modifies this`cur, this`max
      ensures Valid()
      ensures View() == old(View())[key := Counter(n, n)]
    {
      cur := cur[key := n];
      max := max[key := n];
    }
  }

  class PostgresSeq {
    const step: int
    var table: Table

    constructor (step: int)
      ensures this.step == step && table == map[]
    {
      this.step := step;
      table := map[];
    }

    /** The row that user creation inserts. */
    method CreateUser(u: User) returns (ok: bool)
      modifies this`table
      ensures ok == (u !in old(table))
      ensures table == if ok then old(table)[u := Row(step, step)] else old(table)
    {
      ok := u !in table;
      if ok { table := table[u := Row(step, step)]; }
    }

    method SaveMaxSeq(u: User) returns (ok: bool)
      modifies this`table
      ensures ok == (u in old(table))
      ensures table == SaveMax(old(table), u, step)
      ensures table == if ok then old(table)[u := Row(old(table)[u].sendMax, old(table)[u].recMax + step)]
                       else old(table)
    {
      ok := u in table;
      if ok {
        table := table[u := Row(table[u].sendMax, table[u].recMax + step)];
      }
    }

    method SaveMaxSeqBatch(us: seq<User>)
      modifies this`table
      ensures table == SaveMaxBatch(old(table), us, step)
      ensures table.Keys == old(table).Keys
      ensures forall u :: u in table ==>
        table[u] == Row(old(table)[u].sendMax, old(table)[u].recMax + if u in us then step else 0)
    {
      if us == [] { return; }
      table := map u | u in table :: if u in us then table[u].(recMax := table[u].recMax + step) else table[u];
    }

    method GetMaxSeq() returns (rows: seq<SeqRow>)
      ensures Enumerates(rows, table)
    {
      rows := [];
      var todo := table.Keys;
      while todo != {}
        invariant todo <= table.Keys
        invariant forall i :: 0 <= i < |rows| ==>
          rows[i].user in table && table[rows[i].user] == Row(rows[i].sendMax, rows[i].recMax)
        invariant forall u :: u in table && u !in todo ==> exists i :: 0 <= i < |rows| && rows[i].user == u
        decreases todo
      {
        var u :| u in todo;
        ghost var before := rows;
        rows := rows + [SeqRow(u, table[u].sendMax, table[u].recMax)];
        assert rows[|before|].user == u;
        assert forall i :: 0 <= i < |before| ==> rows[i] == before[i];
        todo := todo - {u};
      }
    }
  }

  const BATCH_SIZE := 50

  /** `load_seq`: nothing when the flag says loaded, otherwise every row goes to
      Redis in batches and the flag is set. */
  method LoadSeq(redis: RedisCache, db: PostgresSeq)
    requires redis.Valid()
    modifies redis`cur, redis`max, redis`loaded
    ensures redis.Valid() && redis.loaded
    ensures redis.View() == if old(redis.loaded) then old(redis.View()) else Restored(old(redis.View()), db.table)
    ensures !old(redis.loaded) ==> forall u :: u in db.table ==>
      && SendSeq(u) in redis.View() && redis.View()[SendSeq(u)] == Counter(db.table[u].sendMax, db.table[u].sendMax)
      && Seq(u) in redis.View() && redis.View()[Seq(u)] == Counter(db.table[u].recMax, db.table[u].recMax)
  {
    hide WithRows, Restored, Enumerates;
    if redis.loaded { return; }
    var rx := db.GetMaxSeq();
    var list: seq<SeqRow> := [];
    ghost var db0, done: seq<SeqRow> := redis.View(), [];
    NoRows(db0);
    for i := 0 to |rx|
      invariant redis.Valid() && |list| < BATCH_SIZE
      invariant done + list == rx[..i]
      invariant redis.View() == WithRows(db0, done)
    {
      list := list + [rx[i]];
      assert done + list == rx[..i + 1];
      if |list| == BATCH_SIZE {
        redis.SetSeq(list);
        WithRowsConcat(db0, done, list);
        done, list := done + list, [];
      }
    }
    if list != [] {
      redis.SetSeq(list);
    }
    WithRowsConcat(db0, done, list);
    assert done + list == rx;
    LoadRestores(db0, rx, db.table);
    forall u | u in db.table
      ensures SendSeq(u) in redis.View()
      ensures redis.View()[SendSeq(u)] == Counter(db.table[u].sendMax, db.table[u].sendMax)
      ensures Seq(u) in redis.View() && redis.View()[Seq(u)] == Counter(db.table[u].recMax, db.table[u].recMax)
    {
      RestoredAt(db0, db.table, u);
    }
    redis.loaded := true;
  }

  class Consumer {
    const redis: RedisCache
    const db: PostgresSeq

    ghost predicate Valid()
      reads redis
    {
      redis.Valid() && redis.step == db.step
    }

    ghost function View(): World
      reads redis, db
      requires Valid()
    {
      World(redis.View(), redis.loaded, db.table)
    }

    constructor (redis: RedisCache, db: PostgresSeq)
      requires redis.Valid() && redis.step == db.step
      ensures this.redis == redis && this.db == db && Valid()
    {
      this.redis, this.db := redis, db;
    }

    method HandleSendSeq(u: User) returns (ok: bool)
      requires Valid()
      modifies db`table
      ensures Valid()
      ensures ok == (SendSeqTest(redis.View(), u, redis.step) ==> u in old(db.table))
      ensures db.table == if SendSeqTest(redis.View(), u, redis.step) then SaveMax(old(db.table), u, redis.step)
                          else old(db.table)
      ensures
        var cur := if SendSeq(u) in redis.cur then redis.cur[SendSeq(u)] else 0;
        var max := if SendSeq(u) in redis.max then redis.max[SendSeq(u)] else 0;
        SendSeqTest(redis.View(), u, redis.step) <==> cur == max - redis.step
    {
      var cur := if SendSeq(u) in redis.cur then redis.cur[SendSeq(u)] else 0;
      var max := if SendSeq(u) in redis.max then redis.max[SendSeq(u)] else 0;
      ok := true;
      if cur == max - redis.step {
        ok := db.SaveMaxSeq(u);
      }
    }

    method IncreaseMessageSeq(u: User) returns (ok: bool, cur: int)
      requires Valid()
      modifies redis`cur, redis`max, db`table
      ensures Valid()
      ensures Outcome(View(), ok) == Numbered(old(View()), u, redis.step)
      ensures cur == Script(old(View()).redis, Seq(u), redis.step).cur
      ensures cur == (if Seq(u) in old(redis.cur) then old(redis.cur)[Seq(u)] else 0) + 1
      ensures redis.cur == old(redis.cur)[Seq(u) := cur]
    {
      var reply := redis.RunScript(Seq(u));
      ok, cur := true, reply.cur;
      if reply.updated {
        ok := db.SaveMaxSeq(u);
      }
    }

    /** `handle_group_seq` followed by the table half of `handle_group_message`. */
    method HandleGroup(mt: MsgType, sender: User, members: seq<User>) returns (seqs: seq<GroupMemSeq>)
      requires Valid() && Classify(mt).Group?
      modifies redis`cur, redis`max, db`table
      ensures Valid()
      ensures seqs == MemSeqs(old(View()).redis, Retain(members, sender), redis.step)
      ensures View() == Grouped(old(View()), Retain(members, sender), redis.step)
    {
      hide BumpAll, MemSeqs, NeedUpdate, Retain, Classify, SendToDbFlag, SaveMaxBatch;
      GroupGoesToDb(mt);
      seqs := redis.IncrGroupSeq(Retain(members, sender));
      if SendToDbFlag(mt) {
        db.SaveMaxSeqBatch(NeedUpdate(seqs));
      }
    }

    /** One Kafka message; `members` is what the member query returned. */
    method HandleMsg(mt: MsgType, sender: User, receiver: User, members: seq<User>)
      returns (ok: bool, cur: int, seqs: seq<GroupMemSeq>)
      requires Valid()
      modifies redis`cur, redis`max, db`table
      ensures Valid()
      ensures Outcome(View(), ok) == Handle(old(View()), mt, sender, receiver, members, redis.step)
      ensures Classify(mt).SingleNumbered? && ok ==> cur == Script(old(View()).redis, Seq(receiver), redis.step).cur
      ensures Classify(mt).Group? && ok ==> seqs == MemSeqs(old(View()).redis, Retain(members, sender), redis.step)
      ensures mt in NUMBERS_RECEIVER && ok ==>
        && cur == (if Seq(receiver) in old(redis.cur) then old(redis.cur)[Seq(receiver)] else 0) + 1
        && redis.cur == old(redis.cur)[Seq(receiver) := cur]
      ensures mt !in NUMBERS_RECEIVER && mt !in NUMBERS_MEMBERS ==>
        redis.cur == old(redis.cur) && redis.max == old(redis.max)
    {
      hide BumpAll, MemSeqs, NeedUpdate, Retain, Script, Bump, Grouped, Numbered, SendSeqTest, Classify;
      ReadIsPlain(mt);
      KindsInWords(mt);
      ok, cur, seqs := true, 0, [];
      if mt.Read? { return; }
      ok := HandleSendSeq(sender);
      if !ok { return; }
      match Classify(mt)
      case SinglePlain =>
      case SingleNumbered =>
        ok, cur := IncreaseMessageSeq(receiver);
      case Group =>
        seqs := HandleGroup(mt, sender, members);
    }
  }
}
