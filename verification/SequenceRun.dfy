/** Whole runs of the number allocator: users are created, messages handled,
    Redis is lost and reloaded. Receive numbers are never issued twice. */
module SequenceRun {
  import opened Sequence

  datatype Step =
    | CreateUser(user: User)
    | GatewaySend(user: User)
    | Message(mt: MsgType, sender: User, receiver: User, members: seq<User>)
    | Lose
    | Load

  function Next(w: World, s: Step, step: int): World
  {
    match s
    case CreateUser(u) => w.(table := w.table[u := Row(step, step)])
    case GatewaySend(u) => w.(redis := Bump(w.redis, SendSeq(u), step))
    case Message(mt, sender, receiver, members) => Handle(w, mt, sender, receiver, members, step).world
    case Lose => w.(redis := map[], loaded := false)
    case Load => if w.loaded then w else w.(redis := Restored(w.redis, w.table), loaded := true)
  }

  /** What the callers guarantee: ids are fresh, receivers are registered, and a
      member list is a set. */
  ghost predicate Served(w: World, s: Step)
  {
    match s
    case CreateUser(u) => u !in w.table
    case Message(mt, sender, receiver, members) =>
      && (Classify(mt).SingleNumbered? ==> receiver in w.table)
      && (Classify(mt).Group? ==> NoDup(members) && forall u :: u in members ==> u in w.table)
    case _ => true
  }

  /** And a lost Redis is reloaded before it counts again. */
  ghost predicate Legal(w: World, s: Step)
  {
    Served(w, s) && (s.GatewaySend? || s.Message? ==> w.loaded)
  }

  /** What one user sees: a number, or a reload between numbers. */
  datatype Event = Issued(n: int) | Reloaded

  predicate Numbers(s: Step, u: User)
  {
    s.Message? &&
    match Classify(s.mt)
    case SingleNumbered => s.receiver == u
    case Group => u in s.members && u != s.sender
    case SinglePlain => false
  }

  function Observed(w: World, s: Step, u: User, step: int): seq<Event>
  {
    if Numbers(s, u) then [Issued(Script(w.redis, Seq(u), step).cur)]
    else if s.Load? && !w.loaded then [Reloaded]
    else []
  }

  const START := World(map[], false, map[])

  function After(run: seq<Step>, step: int): World
    decreases |run|
  {
    if run == [] then START else Next(After(run[..|run| - 1], step), run[|run| - 1], step)
  }

  ghost predicate LegalRun(run: seq<Step>, step: int)
  {
    forall i :: 0 <= i < |run| ==> Legal(After(run[..i], step), run[i])
  }

  function History(run: seq<Step>, u: User, step: int): seq<Event>
    decreases |run|
  {
    if run == [] then []
    else History(run[..|run| - 1], u, step) + Observed(After(run[..|run| - 1], step), run[|run| - 1], u, step)
  }

  // ----- the properties of a history ---------------------------------------

  ghost predicate StrictlyIncreasing(h: seq<Event>)
  {
    forall i, j :: 0 <= i < j < |h| && h[i].Issued? && h[j].Issued? ==> h[i].n < h[j].n
  }

  /** `i` and `j` hold consecutive numbers of this user. */
  ghost predicate Neighbours(h: seq<Event>, i: int, j: int)
  {
    && 0 <= i < j < |h| && h[i].Issued? && h[j].Issued?
    && forall k :: i < k < j ==> h[k].Reloaded?
  }

  /** Without a reload the next number is the successor; a reload skips fewer
      than `step` numbers, however many losses fell together. */
  ghost predicate SmallGaps(h: seq<Event>, step: int)
  {
    forall i, j :: Neighbours(h, i, j) ==>
      h[i].n < h[j].n <= h[i].n + step && (j == i + 1 ==> h[j].n == h[i].n + 1)
  }

  // ----- the invariant -----------------------------------------------------

  predicate InBlock(c: Counter, step: int)
  {
    c.max - step < c.cur <= c.max
  }

  ghost predicate Blocks(w: World, step: int)
  {
    step >= 1 && forall k :: k in w.redis ==> InBlock(w.redis[k], step)
  }

  ghost predicate WorldInv(w: World, step: int)
  {
    && Blocks(w, step)
    && (!w.loaded ==> w.redis == map[])
    && (forall u :: Seq(u) in w.redis ==> u in w.table && w.redis[Seq(u)].max == w.table[u].recMax)
    && (forall u :: u in w.table ==> w.table[u].sendMax == step && w.table[u].recMax >= step)
    && (w.loaded ==> forall u :: u in w.table && Seq(u) !in w.redis ==> w.table[u].recMax == step)
  }

  /** Ties what `u` has seen to the counters. */
  ghost predicate UserInv(w: World, u: User, h: seq<Event>, step: int)
  {
    && (u !in w.table || (w.loaded && Seq(u) !in w.redis) ==> forall i :: 0 <= i < |h| ==> h[i].Reloaded?)
    && (u in w.table ==> forall i :: 0 <= i < |h| && h[i].Issued? ==> h[i].n <= w.table[u].recMax)
    && (Seq(u) in w.redis ==> forall i :: 0 <= i < |h| && h[i].Issued? ==> h[i].n <= w.redis[Seq(u)].cur)
    && (u in w.table ==> forall i :: LastIssue(h, i) ==> w.table[u].recMax < h[i].n + step)
    && (Seq(u) in w.redis && h != [] && h[|h| - 1].Issued? ==> w.redis[Seq(u)].cur == h[|h| - 1].n)
  }

  ghost predicate LastIssue(h: seq<Event>, i: int)
  {
    0 <= i < |h| && h[i].Issued? && forall k :: i < k < |h| ==> h[k].Reloaded?
  }

  // ----- one step ----------------------------------------------------------

  lemma {:induction false} BumpAllAt(db: Hashes, ms: seq<User>, step: int, k: Key)
    requires NoDup(ms)
    ensures k.Seq? && k.user in ms ==> k in BumpAll(db, ms, step)
    ensures k.Seq? && k.user in ms ==> BumpAll(db, ms, step)[k] == Bump(db, k, step)[k]
    ensures k.SendSeq? || k.user !in ms ==> (k in BumpAll(db, ms, step) <==> k in db)
    ensures (k.SendSeq? || k.user !in ms) && k in db ==> BumpAll(db, ms, step)[k] == db[k]
    decreases |ms|
  {
    if ms != [] {
      var init, last := ms[..|ms| - 1], ms[|ms| - 1];
      assert ms == init + [last];
      BumpAllAt(db, init, step, k);
      BumpAllAt(db, init, step, Seq(last));
    }
  }

  /** Without repeats each reply is that of the member's own script run. */
  lemma MemSeqsAt(db: Hashes, ms: seq<User>, step: int, i: nat)
    requires NoDup(ms) && i < |ms|
    ensures var r := Script(db, Seq(ms[i]), step);
      MemSeqs(db, ms, step)[i] == GroupMemSeq(ms[i], r.cur, r.max, r.updated)
  {
    assert ms[i] !in ms[..i];
    BumpAllAt(db, ms[..i], step, Seq(ms[i]));
  }

  /** A group step asks for exactly the ceilings whose own script moved them. */
  lemma NeedUpdateAt(db: Hashes, ms: seq<User>, step: int, u: User)
    requires NoDup(ms)
    ensures u in NeedUpdate(MemSeqs(db, ms, step)) <==> u in ms && Script(db, Seq(u), step).updated
  {
    var seqs := MemSeqs(db, ms, step);
    forall i | 0 <= i < |ms|
      ensures seqs[i].memId == ms[i] && seqs[i].needUpdate == Script(db, Seq(ms[i]), step).updated
    {
      MemSeqsAt(db, ms, step, i);
    }
  }

  /** The whole group step, one user at a time: as if `u` alone had been numbered. */
  lemma GroupedAt(w: World, ms: seq<User>, step: int, u: User)
    requires NoDup(ms) && u in ms && u in w.table
    ensures var g, n := Grouped(w, ms, step), Numbered(w, u, step).world;
      Seq(u) in g.redis && g.redis[Seq(u)] == n.redis[Seq(u)] && u in g.table && g.table[u] == n.table[u]
  {
    BumpAllAt(w.redis, ms, step, Seq(u));
    NeedUpdateAt(w.redis, ms, step, u);
  }

  lemma GroupedElsewhere(w: World, ms: seq<User>, step: int)
    requires NoDup(ms)
    ensures var g := Grouped(w, ms, step);
      && g.table.Keys == w.table.Keys
      && (forall k: Key :: k.SendSeq? || k.user !in ms ==>
            (k in g.redis <==> k in w.redis) && (k in w.redis ==> g.redis[k] == w.redis[k]))
      && (forall u :: u in w.table && u !in ms ==> g.table[u] == w.table[u])
  {
    forall k: Key | k.SendSeq? || k.user !in ms
      ensures k in BumpAll(w.redis, ms, step) <==> k in w.redis
      ensures k in w.redis ==> BumpAll(w.redis, ms, step)[k] == w.redis[k]
    {
      BumpAllAt(w.redis, ms, step, k);
    }
    forall u | u !in ms
      ensures u !in NeedUpdate(MemSeqs(w.redis, ms, step))
    {
      NeedUpdateAt(w.redis, ms, step, u);
    }
  }

  /** The guard that `handle_send_seq` tests is false in every reachable state. */
  lemma SendSeqTestNever(w: World, u: User, step: int)
    requires Blocks(w, step)
    ensures !SendSeqTest(w.redis, u, step)
  {
    assert SendSeq(u) in w.redis ==> InBlock(w.redis[SendSeq(u)], step);
  }

  lemma HandleForm(w: World, mt: MsgType, sender: User, receiver: User, members: seq<User>, step: int)
    requires Blocks(w, step)
    ensures Handle(w, mt, sender, receiver, members, step) ==
      match Classify(mt)
      case SinglePlain => Outcome(w, true)
      case SingleNumbered => Numbered(w, receiver, step)
      case Group => Outcome(Grouped(w, Retain(members, sender), step), true)
  {
    SendSeqTestNever(w, sender, step);
  }

  /** A numbering step leaves this user's counter and ceiling as `Numbered` does,
      and the whole step touches nobody it does not number. */
  lemma MessageAt(w: World, s: Step, step: int, u: User)
    requires Blocks(w, step) && Served(w, s) && s.Message?
    ensures var w' := Next(w, s, step);
      && w'.loaded == w.loaded && w'.table.Keys == w.table.Keys
      && (SendSeq(u) in w'.redis <==> SendSeq(u) in w.redis)
      && (SendSeq(u) in w.redis ==> w'.redis[SendSeq(u)] == w.redis[SendSeq(u)])
      && (!Numbers(s, u) ==> (Seq(u) in w'.redis <==> Seq(u) in w.redis))
      && (!Numbers(s, u) && Seq(u) in w.redis ==> w'.redis[Seq(u)] == w.redis[Seq(u)])
      && (!Numbers(s, u) && u in w.table ==> w'.table[u] == w.table[u])
      && (Numbers(s, u) ==> u in w.table && Seq(u) in w'.redis)
      && (Numbers(s, u) ==> w'.redis[Seq(u)] == Numbered(w, u, step).world.redis[Seq(u)])
      && (Numbers(s, u) ==> w'.table[u] == Numbered(w, u, step).world.table[u])
  {
    HandleForm(w, s.mt, s.sender, s.receiver, s.members, step);
    if Classify(s.mt).Group? {
      var ms := Retain(s.members, s.sender);
      GroupedElsewhere(w, ms, step);
      if u in ms { GroupedAt(w, ms, step, u); }
    }
  }

  lemma StepKeepsWorldInv(w: World, s: Step, step: int)
    requires WorldInv(w, step) && Legal(w, s)
    ensures WorldInv(Next(w, s, step), step)
  {
    var w' := Next(w, s, step);
    if s.Message? {
      forall u: User
        ensures s.Message? ==> MessageFacts(w, w', u, step)
      {
        MessageAt(w, s, step, u);
      }
      assert w'.loaded by { MessageAt(w, s, step, s.sender); }
      assert w'.table.Keys == w.table.Keys by { MessageAt(w, s, step, s.sender); }
      forall k | k in w'.redis
        ensures InBlock(w'.redis[k], step)
      {
        assert MessageFacts(w, w', k.user, step);
        assert k == Seq(k.user) || k == SendSeq(k.user);
      }
      forall u: User
        ensures Seq(u) in w'.redis ==> u in w'.table && w'.redis[Seq(u)].max == w'.table[u].recMax
        ensures u in w'.table ==> w'.table[u].sendMax == step && w'.table[u].recMax >= step
        ensures u in w'.table && Seq(u) !in w'.redis ==> w'.table[u].recMax == step
      {
        assert MessageFacts(w, w', u, step);
      }
    }
  }

  /** What one message leaves of one user's state. */
  ghost predicate MessageFacts(w: World, w': World, u: User, step: int)
  {
    && (u in w'.table <==> u in w.table)
    && (SendSeq(u) in w'.redis ==> InBlock(w'.redis[SendSeq(u)], step))
    && (Seq(u) in w'.redis ==>
          InBlock(w'.redis[Seq(u)], step) && u in w'.table && w'.redis[Seq(u)].max == w'.table[u].recMax)
    && (u in w'.table ==> w'.table[u].sendMax == step && w'.table[u].recMax >= step)
    && (u in w'.table && Seq(u) !in w'.redis ==> w'.table[u].recMax == step)
  }

  lemma StepKeepsUserInv(w: World, s: Step, step: int, u: User, h: seq<Event>)
    requires WorldInv(w, step) && Legal(w, s) && UserInv(w, u, h, step)
    requires StrictlyIncreasing(h) && SmallGaps(h, step)
    ensures var h' := h + Observed(w, s, u, step);
      UserInv(Next(w, s, step), u, h', step) && StrictlyIncreasing(h') && SmallGaps(h', step)
  {
    if Numbers(s, u) {
      MessageAt(w, s, step, u);
      hide Next, UserInv, WorldInv, StrictlyIncreasing, SmallGaps, Legal, Script;
      IssueKeepsOrder(w, u, h, step);
      IssueKeepsUserInv(w, Next(w, s, step), u, h, step);
    } else if s.Load? && !w.loaded {
      ReloadKeepsUserInv(w, step, u, h);
    } else {
      assert h + [] == h;
      OtherKeepsUserInv(w, s, step, u, h);
    }
  }

  lemma ReloadKeepsUserInv(w: World, step: int, u: User, h: seq<Event>)
    requires WorldInv(w, step) && !w.loaded && UserInv(w, u, h, step)
    requires StrictlyIncreasing(h) && SmallGaps(h, step)
    ensures UserInv(Next(w, Load, step), u, h + [Reloaded], step)
    ensures StrictlyIncreasing(h + [Reloaded]) && SmallGaps(h + [Reloaded], step)
  {
    var h' := h + [Reloaded];
    assert forall k :: 0 <= k < |h| ==> h[k] == h'[k];
    forall i, j | Neighbours(h', i, j)
      ensures Neighbours(h, i, j)
    {
    }
    forall i | LastIssue(h', i)
      ensures LastIssue(h, i)
    {
    }
  }

  lemma OtherKeepsUserInv(w: World, s: Step, step: int, u: User, h: seq<Event>)
    requires WorldInv(w, step) && Legal(w, s) && UserInv(w, u, h, step)
    requires !Numbers(s, u) && (s.Load? ==> w.loaded)
    ensures UserInv(Next(w, s, step), u, h, step)
  {
    if s.Message? {
      MessageAt(w, s, step, u);
      hide Next;
    }
  }

  /** The next number against the last one. */
  lemma NextNumber(w: World, u: User, h: seq<Event>, step: int, i: int)
    requires WorldInv(w, step) && w.loaded && u in w.table && UserInv(w, u, h, step) && LastIssue(h, i)
    ensures var n := Script(w.redis, Seq(u), step).cur;
      h[i].n < n <= h[i].n + step && (i == |h| - 1 ==> n == h[i].n + 1)
  {
    assert Seq(u) in w.redis;
    assert InBlock(w.redis[Seq(u)], step);
  }

  lemma IssueKeepsOrder(w: World, u: User, h: seq<Event>, step: int)
    requires WorldInv(w, step) && w.loaded && u in w.table && UserInv(w, u, h, step)
    requires StrictlyIncreasing(h) && SmallGaps(h, step)
    ensures var h' := h + [Issued(Script(w.redis, Seq(u), step).cur)];
      StrictlyIncreasing(h') && SmallGaps(h', step)
  {
    var n := Script(w.redis, Seq(u), step).cur;
    var h' := h + [Issued(n)];
    assert forall k :: 0 <= k < |h| ==> h'[k] == h[k];
    assert StrictlyIncreasing(h');
    hide UserInv, WorldInv, Script, StrictlyIncreasing;
    forall i, j | Neighbours(h', i, j)
      ensures h'[i].n < h'[j].n <= h'[i].n + step && (j == i + 1 ==> h'[j].n == h'[i].n + 1)
    {
      if j < |h| {
        assert Neighbours(h, i, j);
      } else {
        assert LastIssue(h, i);
        NextNumber(w, u, h, step, i);
      }
    }
  }

  lemma IssueKeepsUserInv(w: World, w': World, u: User, h: seq<Event>, step: int)
    requires WorldInv(w, step) && w.loaded && u in w.table && UserInv(w, u, h, step)
    requires w'.loaded && u in w'.table && Seq(u) in w'.redis
    requires w'.redis[Seq(u)] == Numbered(w, u, step).world.redis[Seq(u)]
    requires w'.table[u] == Numbered(w, u, step).world.table[u]
    ensures UserInv(w', u, h + [Issued(Script(w.redis, Seq(u), step).cur)], step)
  {
    var n := Script(w.redis, Seq(u), step).cur;
    var h' := h + [Issued(n)];
    assert h'[|h|] == Issued(n);
    assert Seq(u) in w.redis ==> InBlock(w.redis[Seq(u)], step);
    forall i | LastIssue(h', i)
      ensures i == |h|
    {
    }
    forall i | 0 <= i < |h'| && h'[i].Issued?
      ensures h'[i].n <= n
    {
      if i < |h| { assert h[i] == h'[i]; }
    }
  }

  // ----- every run ---------------------------------------------------------

  lemma LegalPrefix(run: seq<Step>, step: int, i: nat)
    requires LegalRun(run, step) && i <= |run|
    ensures LegalRun(run[..i], step)
  {
    assert forall j :: 0 <= j < i ==> run[..i][..j] == run[..j] && run[..i][j] == run[j];
  }

  lemma LegalInit(run: seq<Step>, step: int)
    requires run != [] && LegalRun(run, step)
    ensures LegalRun(run[..|run| - 1], step) && Legal(After(run[..|run| - 1], step), run[|run| - 1])
  {
    LegalPrefix(run, step, |run| - 1);
  }

  lemma {:induction false} RunInvariant(run: seq<Step>, step: int, u: User)
    requires step >= 1 && LegalRun(run, step)
    ensures WorldInv(After(run, step), step)
    ensures var h := History(run, u, step);
      UserInv(After(run, step), u, h, step) && StrictlyIncreasing(h) && SmallGaps(h, step)
    decreases |run|
  {
    if run != [] {
      var init, s := run[..|run| - 1], run[|run| - 1];
      LegalInit(run, step);
      RunInvariant(init, step, u);
      var w := After(init, step);
      StepKeepsWorldInv(w, s, step);
      StepKeepsUserInv(w, s, step, u, History(init, u, step));
    }
  }

  // ----- a user's first number ---------------------------------------------

  ghost predicate Created(run: seq<Step>, u: User)
  {
    exists c :: 0 <= c < |run| && run[c] == CreateUser(u)
  }

  /** An effective reload came after the creation of `u`. */
  ghost predicate ReloadedSinceCreation(run: seq<Step>, u: User, step: int)
  {
    exists r :: 0 <= r < |run| && run[r] == Load && !After(run[..r], step).loaded && Created(run[..r], u)
  }

  ghost predicate Unnumbered(run: seq<Step>, u: User)
  {
    forall i :: 0 <= i < |run| ==> !Numbers(run[i], u)
  }

  lemma CreatedSnoc(init: seq<Step>, s: Step, u: User)
    ensures Created(init + [s], u) <==> Created(init, u) || s == CreateUser(u)
  {
    var run := init + [s];
    assert forall i :: 0 <= i < |init| ==> run[i] == init[i];
    assert run[|init|] == s;
  }

  lemma ReloadedSnoc(init: seq<Step>, s: Step, u: User, step: int)
    ensures ReloadedSinceCreation(init + [s], u, step) <==>
      ReloadedSinceCreation(init, u, step) || (s == Load && !After(init, step).loaded && Created(init, u))
  {
    var run := init + [s];
    assert forall i :: 0 <= i < |init| ==> run[i] == init[i];
    assert forall i :: 0 <= i <= |init| ==> run[..i] == init[..i];
    assert run[..|init|] == init && run[|init|] == s;
  }

  /** The state of a user without a number: the row is as created, and a loaded
      Redis counts for the user exactly when a reload put it at the first ceiling. */
  ghost predicate Waiting(w: World, u: User, created: bool, reloaded: bool, step: int)
  {
    && (u in w.table <==> created) && (reloaded ==> created)
    && (u in w.table ==> w.table[u] == Row(step, step))
    && (Seq(u) in w.redis ==> w.redis[Seq(u)] == Counter(step, step))
    && (w.loaded ==> (Seq(u) in w.redis <==> reloaded))
  }

  lemma StepWaiting(w: World, s: Step, u: User, created: bool, reloaded: bool, step: int)
    requires WorldInv(w, step) && Legal(w, s) && !Numbers(s, u) && Waiting(w, u, created, reloaded, step)
    ensures Waiting(Next(w, s, step), u, created || s == CreateUser(u),
                    reloaded || (s == Load && !w.loaded && created), step)
  {
    if s.Message? {
      MessageAt(w, s, step, u);
      hide Next, WorldInv, Legal;
    }
  }

  lemma {:induction false} BeforeTheFirst(run: seq<Step>, step: int, u: User)
    requires step >= 1 && LegalRun(run, step) && Unnumbered(run, u)
    ensures Waiting(After(run, step), u, Created(run, u), ReloadedSinceCreation(run, u, step), step)
    decreases |run|
  {
    if run != [] {
      hide WorldInv, UserInv, LegalRun, History, Next, Legal, Waiting, Created, ReloadedSinceCreation, Numbers;
      var init, s := run[..|run| - 1], run[|run| - 1];
      LegalInit(run, step);
      assert Unnumbered(init, u);
      BeforeTheFirst(init, step, u);
      RunInvariant(init, step, u);
      assert run == init + [s];
      CreatedSnoc(init, s, u);
      ReloadedSnoc(init, s, u, step);
      StepWaiting(After(init, step), s, u, Created(init, u), ReloadedSinceCreation(init, u, step), step);
    }
  }

  /** A user's first number is 1, or `step + 1` exactly when a reload lies between
      the user's creation and that number: it then skips a whole block. */
  lemma FirstNumber(run: seq<Step>, step: int, u: User, i: nat)
    requires step >= 1 && LegalRun(run, step)
    requires i < |run| && Numbers(run[i], u) && Unnumbered(run[..i], u)
    ensures Script(After(run[..i], step).redis, Seq(u), step).cur ==
      if ReloadedSinceCreation(run[..i], u, step) then step + 1 else 1
    ensures Created(run[..i], u)
  {
    var init := run[..i];
    LegalPrefix(run, step, i);
    BeforeTheFirst(init, step, u);
    RunInvariant(init, step, u);
    assert Legal(After(init, step), run[i]);
    assert u in After(init, step).table;
  }

  ghost predicate FirstIssue(h: seq<Event>, i: int)
  {
    0 <= i < |h| && h[i].Issued? && forall k :: 0 <= k < i ==> h[k].Reloaded?
  }

  lemma {:induction false} NoIssueUnnumbered(run: seq<Step>, step: int, u: User)
    requires forall k :: 0 <= k < |History(run, u, step)| ==> History(run, u, step)[k].Reloaded?
    ensures Unnumbered(run, u)
    decreases |run|
  {
    if run != [] {
      var init, s := run[..|run| - 1], run[|run| - 1];
      var h, o := History(init, u, step), Observed(After(init, step), s, u, step);
      assert History(run, u, step) == h + o;
      assert forall k :: 0 <= k < |h| ==> (h + o)[k] == h[k];
      NoIssueUnnumbered(init, step, u);
      assert o != [] ==> (h + o)[|h|] == o[0];
      assert run == init + [s];
    }
  }

  /** The first number of a history is the number of a first numbering step. */
  lemma {:induction false} FirstIssued(run: seq<Step>, step: int, u: User, i: int)
    requires step >= 1 && LegalRun(run, step) && FirstIssue(History(run, u, step), i)
    ensures History(run, u, step)[i].n == 1 || History(run, u, step)[i].n == step + 1
    decreases |run|
  {
    var init, s := run[..|run| - 1], run[|run| - 1];
    var h, o := History(init, u, step), Observed(After(init, step), s, u, step);
    assert History(run, u, step) == h + o;
    assert forall k :: 0 <= k < |h| ==> (h + o)[k] == h[k];
    if i < |h| {
      LegalInit(run, step);
      FirstIssued(init, step, u, i);
    } else {
      NoIssueUnnumbered(init, step, u);
      FirstNumber(run, step, u, |run| - 1);
    }
  }

  // ----- the theorems ------------------------------------------------------

  /** No number is handed to a user twice, in any run, across any losses; what a
      reload skips is fewer than `step` numbers, or the first block. */
  lemma NeverReissued(run: seq<Step>, step: int, u: User)
    requires step >= 1 && LegalRun(run, step)
    ensures var h := History(run, u, step);
      && (forall i, j :: 0 <= i < j < |h| && h[i].Issued? && h[j].Issued? ==> h[i].n < h[j].n)
      && (forall i :: 0 <= i < |h| - 1 && h[i].Issued? && h[i + 1].Issued? ==> h[i + 1].n == h[i].n + 1)
      && (forall i, j :: Neighbours(h, i, j) ==> h[j].n - h[i].n - 1 < step)
      && (forall i :: FirstIssue(h, i) ==> h[i].n == 1 || h[i].n == step + 1)
  {
    RunInvariant(run, step, u);
    var h := History(run, u, step);
    forall i | 0 <= i < |h| - 1 && h[i].Issued? && h[i + 1].Issued?
      ensures h[i + 1].n == h[i].n + 1
    {
      assert Neighbours(h, i, i + 1);
    }
    forall i | FirstIssue(h, i)
      ensures h[i].n == 1 || h[i].n == step + 1
    {
      FirstIssued(run, step, u, i);
    }
  }

  /** After every step Postgres holds the very ceiling that Redis counts to. */
  lemma CeilingsAgree(run: seq<Step>, step: int)
    requires step >= 1 && LegalRun(run, step)
    ensures var w := After(run, step);
      && (forall u :: Seq(u) in w.redis ==> u in w.table && w.table[u].recMax == w.redis[Seq(u)].max)
      && (forall k :: k in w.redis ==> w.redis[k].max - step < w.redis[k].cur <= w.redis[k].max)
  {
    RunInvariant(run, step, "");
  }

  /** `send_max_seq` keeps its creation value: the guard never fires. */
  lemma SendCeilingNeverMoves(run: seq<Step>, step: int, u: User)
    requires step >= 1 && LegalRun(run, step)
    ensures !SendSeqTest(After(run, step).redis, u, step)
    ensures u in After(run, step).table ==> After(run, step).table[u].sendMax == step
  {
    RunInvariant(run, step, u);
    SendSeqTestNever(After(run, step), u, step);
  }

  /** Who gets a number from a message of which kind, and that nobody else does. */
  lemma WhoIsNumbered(w: World, s: Step, step: int, u: User)
    requires Blocks(w, step) && Served(w, s) && s.Message?
    ensures var w' := Next(w, s, step);
      if (s.mt in NUMBERS_RECEIVER && u == s.receiver) || (s.mt in NUMBERS_MEMBERS && u in s.members && u != s.sender)
      then Seq(u) in w'.redis && w'.redis[Seq(u)].cur == (if Seq(u) in w.redis then w.redis[Seq(u)].cur else 0) + 1
      else (Seq(u) in w'.redis <==> Seq(u) in w.redis) && (Seq(u) in w.redis ==> w'.redis[Seq(u)] == w.redis[Seq(u)])
  {
    KindsInWords(s.mt);
    hide Classify;
    MessageAt(w, s, step, u);
    hide Next, Served;
  }

  // ----- send numbers --------------------------------------------------------

  /** A reload at `r` and no send of `u` and no loss since. */
  ghost predicate QuietSince(run: seq<Step>, r: nat, u: User, step: int)
  {
    && r < |run| && run[r] == Load && !After(run[..r], step).loaded && u in After(run[..r], step).table
    && forall j :: r < j < |run| ==> run[j] != GatewaySend(u) && run[j] != Lose
  }

  /** The send counter stands at the ceiling of creation. */
  ghost predicate SendAtStep(w: World, u: User, step: int)
  {
    w.loaded && u in w.table && SendSeq(u) in w.redis && w.redis[SendSeq(u)] == Counter(step, step)
  }

  lemma SendStarts(w: World, u: User, step: int)
    requires WorldInv(w, step) && !w.loaded && u in w.table
    ensures SendAtStep(Next(w, Load, step), u, step)
  {
    RestoredAt(w.redis, w.table, u);
    hide Restored;
  }

  lemma SendRests(w: World, s: Step, u: User, step: int)
    requires Blocks(w, step) && Legal(w, s) && SendAtStep(w, u, step) && s != GatewaySend(u) && s != Lose
    ensures SendAtStep(Next(w, s, step), u, step)
  {
    if s.Message? {
      MessageAt(w, s, step, u);
      hide Next;
    }
  }

  lemma {:induction false} SendCounterRests(run: seq<Step>, r: nat, u: User, step: int)
    requires step >= 1 && LegalRun(run, step) && QuietSince(run, r, u, step)
    ensures SendAtStep(After(run, step), u, step)
    decreases |run|
  {
    hide LegalRun, Legal, SendAtStep, Next, UserInv, Blocks, SmallGaps, StrictlyIncreasing, History;
    var init, s := run[..|run| - 1], run[|run| - 1];
    LegalInit(run, step);
    RunInvariant(init, step, u);
    if r == |init| {
      SendStarts(After(init, step), u, step);
    } else {
      QuietInit(run, r, u, step);
      SendCounterRests(init, r, u, step);
      SendRests(After(init, step), s, u, step);
    }
  }

  lemma QuietInit(run: seq<Step>, r: nat, u: User, step: int)
    requires QuietSince(run, r, u, step) && r < |run| - 1
    ensures QuietSince(run[..|run| - 1], r, u, step)
  {
    assert run[..|run| - 1][..r] == run[..r];
  }

  /** The first send number after every reload is `step + 1`: the send ceiling that a
      reload reads is never saved anew. */
  lemma SendNumberAfterReload(run: seq<Step>, r: nat, u: User, step: int)
    requires step >= 1 && LegalRun(run, step) && QuietSince(run, r, u, step)
    ensures Script(After(run, step).redis, SendSeq(u), step).cur == step + 1
  {
    SendCounterRests(run, r, u, step);
  }

  /** So the first sends after two reloads get the same number, whatever lies between. */
  lemma SendNumbersRepeat(run: seq<Step>, r: nat, run': seq<Step>, r': nat, u: User, step: int)
    requires step >= 1 && LegalRun(run', step) && run < run' && |run| <= r'
    requires QuietSince(run, r, u, step) && QuietSince(run', r', u, step)
    ensures Script(After(run, step).redis, SendSeq(u), step).cur
         == Script(After(run', step).redis, SendSeq(u), step).cur
  {
    LegalPrefix(run', step, |run|);
    assert run'[..|run|] == run;
    SendNumberAfterReload(run, r, u, step);
    SendNumberAfterReload(run', r', u, step);
  }

  /** Counting on a lost Redis before it is reloaded issues a number again. */
  lemma CountingBeforeReloadReissues(u: User, sender: User, step: int)
    requires step >= 1
    ensures var before := [Load, CreateUser(u)];
      var first := Message(SingleMsg, sender, u, []);
      && LegalRun(before + [first], step)
      && Script(After(before, step).redis, Seq(u), step).cur == 1
      && Script(After(before + [first] + [Lose], step).redis, Seq(u), step).cur == 1
      && !Legal(After(before + [first] + [Lose], step), first)
  {
    var before, first := [Load, CreateUser(u)], Message(SingleMsg, sender, u, []);
    var w1 := World(map[], true, map[]);
    var w2 := World(map[], true, map[u := Row(step, step)]);
    AfterSnoc([], Load, step);
    assert [] + [Load] == [Load] && Restored(map[], map[]) == map[];
    AfterSnoc([Load], CreateUser(u), step);
    assert [Load] + [CreateUser(u)] == before;
    assert After(before, step) == w2;
    AfterSnoc(before + [first], Lose, step);
    var run := before + [first];
    assert run[..0] == [] && run[..1] == [Load] && run[..2] == before;
  }

  lemma AfterSnoc(run: seq<Step>, s: Step, step: int)
    ensures After(run + [s], step) == Next(After(run, step), s, step)
  {
    assert (run + [s])[..|run|] == run;
  }

  // ----- the last number a user can have got -------------------------------

  /** Every number of `u` so far is at most this, and the next one is its successor. */
  function Passed(w: World, u: User): int
  {
    if Seq(u) in w.redis then w.redis[Seq(u)].cur
    else if w.loaded || u !in w.table then 0
    else w.table[u].recMax
  }

  lemma IssuesNext(w: World, s: Step, step: int, u: User)
    requires WorldInv(w, step) && Legal(w, s) && Numbers(s, u)
    ensures Script(w.redis, Seq(u), step).cur == Passed(w, u) + 1
    ensures Passed(Next(w, s, step), u) == Passed(w, u) + 1
  {
    MessageAt(w, s, step, u);
    hide Next, WorldInv, Legal;
  }

  lemma PassedGrows(w: World, s: Step, step: int, u: User)
    requires WorldInv(w, step) && Legal(w, s)
    ensures 0 <= Passed(w, u) <= Passed(Next(w, s, step), u)
    ensures s.Message? && !Numbers(s, u) ==> Passed(Next(w, s, step), u) == Passed(w, u)
    ensures s.Load? || (s == CreateUser(u) && w.loaded) ==> Passed(Next(w, s, step), u) == Passed(w, u)
  {
    assert Seq(u) in w.redis ==> InBlock(w.redis[Seq(u)], step);
    if s.Message? {
      MessageAt(w, s, step, u);
      hide Next, WorldInv, Legal;
      assert Numbers(s, u) ==> Passed(Next(w, s, step), u) == Passed(w, u) + 1;
    }
  }

  // ----- member lists with repeats -----------------------------------------

  /** The counter of a key, a missing one as the script starts it. */
  function CounterOf(db: Hashes, k: Key, step: int): Counter
  {
    if k in db then db[k] else Counter(0, step)
  }

  /** `n` runs of the script on one counter. */
  function Runs(c: Counter, n: nat, step: int): Counter
  {
    if n == 0 then c
    else
      var b := Runs(c, n - 1, step);
      Counter(b.cur + 1, if b.cur + 1 > b.max then b.max + step else b.max)
  }

  lemma {:induction false} RunsForm(c: Counter, n: nat, step: int)
    requires step >= 1 && c.max - step <= c.cur <= c.max
    ensures Runs(c, n, step).cur == c.cur + n <= Runs(c, n, step).max
    ensures n <= c.max - c.cur ==> Runs(c, n, step).max == c.max
    ensures c.max - c.cur < n <= c.max - c.cur + step ==> Runs(c, n, step).max == c.max + step
    ensures n > c.max - c.cur + step ==> Runs(c, n, step).max > c.max + step
  {
    if n > 0 { RunsForm(c, n - 1, step); }
  }

  lemma {:induction false} BumpAllCount(db: Hashes, ms: seq<User>, step: int, u: User)
    ensures CounterOf(BumpAll(db, ms, step), Seq(u), step) == Runs(CounterOf(db, Seq(u), step), multiset(ms)[u], step)
    ensures Seq(u) in BumpAll(db, ms, step) <==> Seq(u) in db || u in ms
    decreases |ms|
  {
    if ms != [] {
      var init, last := ms[..|ms| - 1], ms[|ms| - 1];
      assert ms == init + [last];
      BumpAllCount(db, init, step, u);
    }
  }

  /** A member's ceiling is saved exactly when its runs passed it. */
  lemma {:induction false} NeedUpdateCount(db: Hashes, ms: seq<User>, step: int, u: User)
    requires step >= 1 && var c := CounterOf(db, Seq(u), step); c.max - step <= c.cur <= c.max
    ensures var c := CounterOf(db, Seq(u), step);
      u in NeedUpdate(MemSeqs(db, ms, step)) <==> multiset(ms)[u] > c.max - c.cur
    decreases |ms|
  {
    if ms != [] {
      var init, last := ms[..|ms| - 1], ms[|ms| - 1];
      var seqs := MemSeqs(db, ms, step);
      assert ms == init + [last];
      assert seqs[..|ms| - 1] == MemSeqs(db, init, step) by {
        assert forall i :: 0 <= i < |init| ==> init[..i] == ms[..i];
      }
      NeedUpdateCount(db, init, step, u);
      BumpAllCount(db, init, step, u);
      RunsForm(CounterOf(db, Seq(u), step), multiset(init)[u], step);
      assert seqs[|ms| - 1] == MemSeqAt(db, ms, |ms| - 1, step);
    }
  }

  ghost predicate Agreed(w: World)
  {
    forall u :: Seq(u) in w.redis && u in w.table ==> w.redis[Seq(u)].max == w.table[u].recMax
  }

  /** A group step over any list of registered members keeps the ceilings agreed
      exactly when no member is listed more often than fits in the rest of its
      block and one block more. */
  lemma GroupAgreementIff(w: World, ms: seq<User>, step: int)
    requires WorldInv(w, step) && w.loaded && forall u :: u in ms ==> u in w.table
    ensures Agreed(Grouped(w, ms, step)) <==>
      forall u :: u in ms ==> var c := CounterOf(w.redis, Seq(u), step); multiset(ms)[u] <= c.max - c.cur + step
  {
    var g := Grouped(w, ms, step);
    forall u | u in w.table
      ensures Seq(u) in g.redis && u in g.table ==>
        (g.redis[Seq(u)].max == g.table[u].recMax <==>
         var c := CounterOf(w.redis, Seq(u), step); multiset(ms)[u] <= c.max - c.cur + step)
      ensures u in g.table && (u in ms ==> Seq(u) in g.redis)
    {
      var c, n := CounterOf(w.redis, Seq(u), step), multiset(ms)[u];
      assert Seq(u) in w.redis ==> InBlock(w.redis[Seq(u)], step);
      BumpAllCount(w.redis, ms, step, u);
      NeedUpdateCount(w.redis, ms, step, u);
      RunsForm(c, n, step);
    }
    forall u: User | u !in ms
      ensures var c := CounterOf(w.redis, Seq(u), step); multiset(ms)[u] <= c.max - c.cur + step
    {
      assert Seq(u) in w.redis ==> InBlock(w.redis[Seq(u)], step);
    }
  }

  /** With step 1 a member listed twice outruns the one-row update: Redis counts to
      3 while Postgres still says 2. The backend never builds such a list: members
      come from a Redis set or from rows keyed by group and user. */
  lemma DuplicateMembersBreakAgreement(a: User, sender: User)
    requires a != sender
    ensures var w := World(map[Seq(a) := Counter(1, 1)], true, map[a := Row(1, 1)]);
      WorldInv(w, 1) &&
      var w' := Handle(w, GroupMsg, sender, sender, [a, a], 1).world;
      Seq(a) in w'.redis && w'.redis[Seq(a)].max == 3 && a in w'.table && w'.table[a].recMax == 2
  {
    var db: Hashes := map[Seq(a) := Counter(1, 1)];
    HandleForm(World(db, true, map[a := Row(1, 1)]), GroupMsg, sender, sender, [a, a], 1);
    assert Retain([a, a], sender) == [a, a] by {
      assert [a, a][1..] == [a] && [a][1..] == [];
      assert Retain([a], sender) == [a];
    }
    TwoBumps(db, a);
  }

  lemma TwoBumps(db: Hashes, a: User)
    requires db == map[Seq(a) := Counter(1, 1)]
    ensures BumpAll(db, [a, a], 1) == map[Seq(a) := Counter(3, 3)]
    ensures a in NeedUpdate(MemSeqs(db, [a, a], 1))
  {
    var ms := [a, a];
    assert ms[..1] == [a] && [a][..0] == [] && ms[..0] == [];
    assert BumpAll(db, [], 1) == db;
    assert BumpAll(db, [a], 1) == map[Seq(a) := Counter(2, 2)];
    assert MemSeqs(db, ms, 1)[0] == GroupMemSeq(a, 2, 2, true);
  }
}
