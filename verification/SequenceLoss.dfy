/** Runs in which a lost Redis may count before it is reloaded: exactly when a
    user's numbers still increase. */
module SequenceLoss {
  import opened Sequence
  import opened SequenceRun

  ghost predicate ServedRun(run: seq<Step>, step: int)
  {
    forall i :: 0 <= i < |run| ==> Served(After(run[..i], step), run[i])
  }

  /** What is left of the invariant: Postgres may be ahead of a counter that
      started again. */
  ghost predicate LooseInv(w: World, step: int)
  {
    && Blocks(w, step)
    && (forall u :: Seq(u) in w.redis ==> u in w.table && step <= w.redis[Seq(u)].max <= w.table[u].recMax)
    && (forall u :: u in w.table ==> w.table[u].recMax >= step)
  }

  /** The same, for one user. */
  ghost predicate LooseAt(w: World, u: User, step: int)
  {
    && (SendSeq(u) in w.redis ==> InBlock(w.redis[SendSeq(u)], step))
    && (Seq(u) in w.redis ==>
          InBlock(w.redis[Seq(u)], step) && u in w.table && step <= w.redis[Seq(u)].max <= w.table[u].recMax)
    && (u in w.table ==> w.table[u].recMax >= step)
  }

  lemma LooseEverywhere(w: World, step: int)
    ensures LooseInv(w, step) <==> step >= 1 && forall u :: LooseAt(w, u, step)
  {
    if step >= 1 && forall u :: LooseAt(w, u, step) {
      forall k | k in w.redis
        ensures InBlock(w.redis[k], step)
      {
        assert LooseAt(w, k.user, step);
        assert k == Seq(k.user) || k == SendSeq(k.user);
      }
      forall u: User
        ensures Seq(u) in w.redis ==> u in w.table && step <= w.redis[Seq(u)].max <= w.table[u].recMax
        ensures u in w.table ==> w.table[u].recMax >= step
      {
        assert LooseAt(w, u, step);
      }
    }
  }

  lemma StepKeepsLooseAt(w: World, s: Step, step: int, u: User)
    requires LooseInv(w, step) && Served(w, s)
    ensures LooseAt(Next(w, s, step), u, step)
  {
    if s.Message? {
      MessageAt(w, s, step, u);
      hide Next, Served;
    }
  }

  lemma StepKeepsLooseInv(w: World, s: Step, step: int)
    requires LooseInv(w, step) && Served(w, s)
    ensures LooseInv(Next(w, s, step), step)
  {
    hide LooseInv, Next, Served, LooseAt;
    forall u: User ensures LooseAt(Next(w, s, step), u, step) { StepKeepsLooseAt(w, s, step, u); }
    LooseEverywhere(w, step);
    LooseEverywhere(Next(w, s, step), step);
  }

  lemma {:induction false} LooseRun(run: seq<Step>, step: int)
    requires step >= 1 && ServedRun(run, step)
    ensures LooseInv(After(run, step), step)
    decreases |run|
  {
    if run != [] {
      ServedInit(run, step);
      LooseRun(run[..|run| - 1], step);
      StepKeepsLooseInv(After(run[..|run| - 1], step), run[|run| - 1], step);
    }
  }

  lemma ServedInit(run: seq<Step>, step: int)
    requires run != [] && ServedRun(run, step)
    ensures ServedRun(run[..|run| - 1], step) && Served(After(run[..|run| - 1], step), run[|run| - 1])
  {
    var init := run[..|run| - 1];
    assert forall i :: 0 <= i < |init| ==> init[..i] == run[..i] && init[i] == run[i];
  }

  // ----- what a user has seen ----------------------------------------------

  /** Some step numbers `u` while Redis has no counter for `u`, after `u` already
      got a number. */
  ghost predicate CountsAnew(run: seq<Step>, u: User, step: int)
  {
    exists i, j :: 0 <= i < j < |run| && Numbers(run[i], u) && Numbers(run[j], u) &&
      Seq(u) !in After(run[..j], step).redis
  }

  lemma CountsAnewSnoc(init: seq<Step>, s: Step, u: User, step: int)
    ensures CountsAnew(init + [s], u, step) <==>
      CountsAnew(init, u, step) || (!Unnumbered(init, u) && Numbers(s, u) && Seq(u) !in After(init, step).redis)
  {
    hide Numbers, After;
    var run := init + [s];
    assert forall i :: 0 <= i < |init| ==> run[i] == init[i];
    assert forall i :: 0 <= i <= |init| ==> run[..i] == init[..i];
    assert run[..|init|] == init && run[|init|] == s;
    if CountsAnew(init, u, step) {
      var i, j :| 0 <= i < j < |init| && Numbers(init[i], u) && Numbers(init[j], u) &&
        Seq(u) !in After(init[..j], step).redis;
      assert Numbers(run[i], u) && Numbers(run[j], u) && Seq(u) !in After(run[..j], step).redis;
    }
    if !Unnumbered(init, u) && Numbers(s, u) && Seq(u) !in After(init, step).redis {
      var i :| 0 <= i < |init| && Numbers(init[i], u);
      assert Numbers(run[i], u) && Numbers(run[|init|], u);
    }
  }

  ghost predicate HasIssued(h: seq<Event>)
  {
    exists i :: 0 <= i < |h| && h[i].Issued?
  }

  ghost predicate AllBelow(h: seq<Event>, n: int)
  {
    forall i :: 0 <= i < |h| && h[i].Issued? ==> h[i].n < n
  }

  lemma IncreasingSnoc(h: seq<Event>, e: Event)
    ensures StrictlyIncreasing(h + [e]) <==> StrictlyIncreasing(h) && (e.Issued? ==> AllBelow(h, e.n))
  {
    var h' := h + [e];
    assert forall i :: 0 <= i < |h| ==> h'[i] == h[i];
    assert h'[|h|] == e;
    if StrictlyIncreasing(h') {
      forall i, j | 0 <= i < j < |h| && h[i].Issued? && h[j].Issued?
        ensures h[i].n < h[j].n
      {
        assert h'[i].n < h'[j].n;
      }
    }
  }

  /** The numbers in `h` lie between 1 and the saved ceiling; without a fresh
      start the counter has passed them all. */
  ghost predicate Seen(w: World, u: User, h: seq<Event>, anew: bool)
  {
    && (forall i :: 0 <= i < |h| && h[i].Issued? ==> u in w.table && 1 <= h[i].n <= w.table[u].recMax)
    && (!anew && Seq(u) in w.redis ==> forall i :: 0 <= i < |h| && h[i].Issued? ==> h[i].n <= w.redis[Seq(u)].cur)
    && (StrictlyIncreasing(h) <==> !anew)
  }

  lemma QuietStep(w: World, s: Step, step: int, u: User)
    requires LooseInv(w, step) && Served(w, s) && !Numbers(s, u)
    ensures var w' := Next(w, s, step);
      && (u in w.table ==> u in w'.table && w'.table[u].recMax == w.table[u].recMax)
      && (Seq(u) in w'.redis ==> u in w'.table)
      && (Seq(u) in w'.redis ==> w'.redis[Seq(u)].cur == w'.table[u].recMax
                                 || (Seq(u) in w.redis && w'.redis[Seq(u)].cur == w.redis[Seq(u)].cur))
  {
    if s.Message? {
      MessageAt(w, s, step, u);
      hide Next, Served;
    }
  }

  lemma QuietKeepsSeen(w: World, s: Step, step: int, u: User, h: seq<Event>, anew: bool)
    requires LooseInv(w, step) && Served(w, s) && !Numbers(s, u) && Seen(w, u, h, anew)
    ensures Seen(Next(w, s, step), u, h + Observed(w, s, u, step), anew)
  {
    QuietStep(w, s, step, u);
    hide Next, Served, LooseInv, Numbers;
    var o := Observed(w, s, u, step);
    if o == [] {
      assert h + o == h;
    } else {
      IncreasingSnoc(h, Reloaded);
      hide StrictlyIncreasing;
      assert forall i :: 0 <= i < |h + [Reloaded]| && (h + [Reloaded])[i].Issued? ==>
        i < |h| && (h + [Reloaded])[i] == h[i];
    }
  }

  lemma NumberingStep(w: World, s: Step, step: int, u: User)
    requires LooseInv(w, step) && Served(w, s) && Numbers(s, u)
    ensures var w', n := Next(w, s, step), Script(w.redis, Seq(u), step).cur;
      && u in w.table && u in w'.table && Seq(u) in w'.redis
      && w'.redis[Seq(u)].cur == n && 1 <= n <= w'.table[u].recMax && w.table[u].recMax <= w'.table[u].recMax
      && n == if Seq(u) in w.redis then w.redis[Seq(u)].cur + 1 else 1
  {
    MessageAt(w, s, step, u);
    hide Next, Served;
    assert Seq(u) in w.redis ==> InBlock(w.redis[Seq(u)], step);
  }

  lemma NumberKeepsSeen(w: World, s: Step, step: int, u: User, h: seq<Event>, anew: bool)
    requires LooseInv(w, step) && Served(w, s) && Numbers(s, u) && Seen(w, u, h, anew)
    ensures Seen(Next(w, s, step), u, h + Observed(w, s, u, step), anew || (HasIssued(h) && Seq(u) !in w.redis))
  {
    NumberingStep(w, s, step, u);
    hide Next, Served, LooseInv, Numbers, Script, StrictlyIncreasing;
    var n := Script(w.redis, Seq(u), step).cur;
    var h' := h + [Issued(n)];
    IncreasingSnoc(h, Issued(n));
    assert forall i :: 0 <= i < |h'| ==> h'[i] == if i < |h| then h[i] else Issued(n);
    if Seq(u) !in w.redis && HasIssued(h) {
      var i :| 0 <= i < |h| && h[i].Issued?;
      assert !AllBelow(h, n);
    }
  }

  /** A user has events with numbers exactly when some step numbered the user. */
  lemma {:induction false} IssuedIff(run: seq<Step>, step: int, u: User)
    ensures HasIssued(History(run, u, step)) <==> !Unnumbered(run, u)
    decreases |run|
  {
    if run != [] {
      var init, s := run[..|run| - 1], run[|run| - 1];
      var h, o := History(init, u, step), Observed(After(init, step), s, u, step);
      IssuedIff(init, step, u);
      assert run == init + [s];
      assert History(run, u, step) == h + o;
      assert forall i :: 0 <= i < |h| ==> (h + o)[i] == h[i];
      assert Numbers(s, u) ==> (h + o)[|h|].Issued?;
      assert forall i :: |h| <= i < |h + o| ==> (h + o)[i] == o[i - |h|];
      assert Unnumbered(run, u) <==> Unnumbered(init, u) && !Numbers(s, u) by {
        assert run[|init|] == s;
        assert forall i :: 0 <= i < |init| ==> run[i] == init[i];
      }
    }
  }

  lemma StepSeen(init: seq<Step>, s: Step, step: int, u: User)
    requires LooseInv(After(init, step), step) && Served(After(init, step), s)
    requires Seen(After(init, step), u, History(init, u, step), CountsAnew(init, u, step))
    ensures Seen(After(init + [s], step), u, History(init + [s], u, step), CountsAnew(init + [s], u, step))
  {
    var w, h, anew := After(init, step), History(init, u, step), CountsAnew(init, u, step);
    assert (init + [s])[..|init|] == init;
    assert After(init + [s], step) == Next(w, s, step);
    assert History(init + [s], u, step) == h + Observed(w, s, u, step);
    CountsAnewSnoc(init, s, u, step);
    IssuedIff(init, step, u);
    hide *;
    if Numbers(s, u) {
      NumberKeepsSeen(w, s, step, u, h, anew);
    } else {
      QuietKeepsSeen(w, s, step, u, h, anew);
    }
  }

  lemma NothingSeen(u: User, step: int)
    ensures Seen(After([], step), u, History([], u, step), CountsAnew([], u, step))
  {
    assert History([], u, step) == [];
    assert !CountsAnew([], u, step);
    hide Next, History, CountsAnew;
  }

  lemma {:induction false} RunSeen(run: seq<Step>, step: int, u: User)
    requires step >= 1 && ServedRun(run, step)
    ensures Seen(After(run, step), u, History(run, u, step), CountsAnew(run, u, step))
    decreases |run|
  {
    hide *;
    if run == [] {
      NothingSeen(u, step);
    } else {
      var init, s := run[..|run| - 1], run[|run| - 1];
      ServedInit(run, step);
      RunSeen(init, step, u);
      LooseRun(init, step);
      assert run == init + [s];
      StepSeen(init, s, step, u);
    }
  }

  /** Whatever is lost and whenever it is reloaded: a user's numbers strictly
      increase if and only if no message numbers the user, after a first number,
      while Redis has no counter for that user. */
  lemma IncreasingIff(run: seq<Step>, step: int, u: User)
    requires step >= 1 && ServedRun(run, step)
    ensures StrictlyIncreasing(History(run, u, step)) <==> !CountsAnew(run, u, step)
  {
    RunSeen(run, step, u);
  }
}
