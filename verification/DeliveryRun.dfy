/** Whole lives of consumer and box: exactly when no user's box ever holds a
    number twice. */
module DeliveryRun {
  import opened Calendar
  import opened Documents
  import opened Wrappers
  import opened ShardedStore
  import opened MessageBox
  import opened Delivery
  import Sequence
  import SequenceRun

  type World = Sequence.World

  // ----- lives -------------------------------------------------------------

  function NextOf(w: World, a: Act, step: int): World
  {
    match a
    case Protocol(s) => SequenceRun.Next(w, s, step)
    case Consume(mt, m, members) => SequenceRun.Next(w, StepOf(mt, m, members), step)
    case _ => w
  }

  /** From `w` on, `flats` are the flat collection before the first act and after
      each act. Payloads may bring any number. */
  ghost predicate Life(w: World, acts: seq<Act>, flats: seq<multiset<Msg>>, step: int)
    decreases |acts|
  {
    && |flats| == |acts| + 1
    && (acts != [] ==> Moves(w, acts[0], flats[0], flats[1], step))
    && (acts != [] ==> Life(NextOf(w, acts[0], step), acts[1..], flats[1..], step))
  }

  // ----- numbers -----------------------------------------------------------

  /** No two stored documents of a user carry the same assigned number. */
  ghost predicate NumbersUnique(flat: multiset<Msg>)
  {
    forall a, b :: a in flat && b in flat && a.receiverId == b.receiverId && a.seqNo == b.seqNo && a.seqNo >= 1 ==>
      a == b && flat[a] == 1
  }

  /** No stored number lies ahead of its user's counter. */
  ghost predicate Bounded(w: World, flat: multiset<Msg>)
  {
    forall d :: d in flat && d.seqNo >= 1 ==> d.seqNo <= SequenceRun.Passed(w, d.receiverId)
  }

  ghost predicate Good(w: World, flat: multiset<Msg>)
  {
    NumbersUnique(flat) && Bounded(w, flat)
  }

  /** The payload's number is unassigned, or new to the box that keeps it. */
  ghost predicate PayloadFree(flat: multiset<Msg>, mt: Kind, m: Msg)
  {
    KeepsPayload(mt) && m.seqNo >= 1 ==>
      forall d :: d in flat ==> !(d.receiverId == Payload(mt, m).receiverId && d.seqNo == m.seqNo)
  }

  /** Free, and already behind the counter of the user whose box keeps it. */
  ghost predicate Safe(w: World, flat: multiset<Msg>, mt: Kind, m: Msg)
  {
    && PayloadFree(flat, mt, m)
    && (KeepsPayload(mt) && m.seqNo >= 1 ==> m.seqNo <= SequenceRun.Passed(w, Payload(mt, m).receiverId))
  }

  ghost predicate SafeAct(w: World, a: Act, flat: multiset<Msg>)
  {
    a.Consume? ==> Safe(w, flat, a.mt, a.m)
  }

  ghost predicate SafeLife(w: World, acts: seq<Act>, flats: seq<multiset<Msg>>, step: int)
    requires Life(w, acts, flats, step)
    decreases |acts|
  {
    acts == [] || (SafeAct(w, acts[0], flats[0]) && SafeLife(NextOf(w, acts[0], step), acts[1..], flats[1..], step))
  }

  // ----- one consumed message ----------------------------------------------

  /** A document of a safe message against one that is stored already. */
  lemma NewNumber(w: World, mt: Kind, m: Msg, members: seq<string>, step: int, flat: multiset<Msg>, d: Msg, e: Msg)
    requires SequenceRun.WorldInv(w, step) && SequenceRun.Legal(w, StepOf(mt, m, members))
    requires Bounded(w, flat) && PayloadFree(flat, mt, m)
    requires d in Docs(w, mt, m, members, step) && d.seqNo >= 1 && e in flat && d.receiverId == e.receiverId
    ensures d.seqNo != e.seqNo
  {
    hide Docs, Sequence.Script, SequenceRun.WorldInv, SequenceRun.Legal, SequenceRun.Passed, KeepsPayload, Payload;
    DocsNumbered(w, mt, m, members, step, d);
    if SequenceRun.Numbers(StepOf(mt, m, members), d.receiverId) {
      SequenceRun.IssuesNext(w, StepOf(mt, m, members), step, d.receiverId);
    }
  }

  lemma ConsumePair(w: World, mt: Kind, m: Msg, members: seq<string>, step: int, flat: multiset<Msg>, a: Msg, b: Msg)
    requires SequenceRun.WorldInv(w, step) && SequenceRun.Legal(w, StepOf(mt, m, members))
    requires Good(w, flat) && PayloadFree(flat, mt, m)
    requires a.receiverId == b.receiverId && a.seqNo == b.seqNo && a.seqNo >= 1
    requires var all := flat + multiset(Docs(w, mt, m, members, step)); a in all && b in all
    ensures a == b && (flat + multiset(Docs(w, mt, m, members, step)))[a] == 1
  {
    hide Docs, SequenceRun.WorldInv, SequenceRun.Legal, Bounded, PayloadFree;
    var docs := Docs(w, mt, m, members, step);
    forall d, e | d in docs && d.seqNo >= 1 && e in flat && d.receiverId == e.receiverId
      ensures d.seqNo != e.seqNo
    {
      NewNumber(w, mt, m, members, step, flat, d, e);
    }
    if a in docs && b in docs { DocsOnce(w, mt, m, members, step, a, b); }
  }

  /** Storing all documents of a message keeps numbers unique exactly when the
      payload's own number is free. */
  lemma ConsumeUniqueIff(w: World, mt: Kind, m: Msg, members: seq<string>, step: int, flat: multiset<Msg>)
    requires SequenceRun.WorldInv(w, step) && SequenceRun.Legal(w, StepOf(mt, m, members)) && Good(w, flat)
    ensures NumbersUnique(flat + multiset(Docs(w, mt, m, members, step))) <==> PayloadFree(flat, mt, m)
  {
    var all := flat + multiset(Docs(w, mt, m, members, step));
    hide Docs, SequenceRun.WorldInv, SequenceRun.Legal, KeepsPayload, Payload, Good;
    if PayloadFree(flat, mt, m) {
      forall a, b | a in all && b in all && a.receiverId == b.receiverId && a.seqNo == b.seqNo && a.seqNo >= 1
        ensures a == b && all[a] == 1
      {
        ConsumePair(w, mt, m, members, step, flat, a, b);
      }
    } else {
      var d :| d in flat && d.receiverId == Payload(mt, m).receiverId && d.seqNo == m.seqNo;
      PayloadStored(w, mt, m, members, step);
      assert d in all && Payload(mt, m) in all;
      assert d == Payload(mt, m) ==> all[d] >= 2;
    }
  }

  /** Whose box keeps a payload is not numbered by that message. */
  lemma KeeperUnnumbered(mt: Kind, m: Msg, members: seq<string>)
    requires KeepsPayload(mt)
    ensures !SequenceRun.Numbers(StepOf(mt, m, members), Payload(mt, m).receiverId)
  {
  }

  /** And keeps them behind the counters exactly when that number already is. */
  lemma ConsumeBoundedIff(w: World, mt: Kind, m: Msg, members: seq<string>, step: int, flat: multiset<Msg>)
    requires SequenceRun.WorldInv(w, step) && SequenceRun.Legal(w, StepOf(mt, m, members)) && Bounded(w, flat)
    ensures Bounded(SequenceRun.Next(w, StepOf(mt, m, members), step), flat + multiset(Docs(w, mt, m, members, step)))
       <==> (KeepsPayload(mt) && m.seqNo >= 1 ==> m.seqNo <= SequenceRun.Passed(w, Payload(mt, m).receiverId))
  {
    var s := StepOf(mt, m, members);
    var w', docs := SequenceRun.Next(w, s, step), Docs(w, mt, m, members, step);
    var all := flat + multiset(docs);
    hide Docs, SequenceRun.WorldInv, SequenceRun.Legal, SequenceRun.Passed, SequenceRun.Next, KeepsPayload, Payload,
      Sequence.Script;
    if KeepsPayload(mt) {
      KeeperUnnumbered(mt, m, members);
      SequenceRun.PassedGrows(w, s, step, Payload(mt, m).receiverId);
      PayloadStored(w, mt, m, members, step);
      assert Payload(mt, m) in all;
    }
    if KeepsPayload(mt) && m.seqNo >= 1 ==> m.seqNo <= SequenceRun.Passed(w, Payload(mt, m).receiverId) {
      forall d | d in all && d.seqNo >= 1
        ensures d.seqNo <= SequenceRun.Passed(w', d.receiverId)
      {
        SequenceRun.PassedGrows(w, s, step, d.receiverId);
        if d !in flat {
          DocsNumbered(w, mt, m, members, step, d);
          if SequenceRun.Numbers(s, d.receiverId) { SequenceRun.IssuesNext(w, s, step, d.receiverId); }
        }
      }
    }
  }

  lemma ConsumeGoodIff(w: World, mt: Kind, m: Msg, members: seq<string>, step: int, flat: multiset<Msg>)
    requires SequenceRun.WorldInv(w, step) && SequenceRun.Legal(w, StepOf(mt, m, members)) && Good(w, flat)
    ensures Good(SequenceRun.Next(w, StepOf(mt, m, members), step), flat + multiset(Docs(w, mt, m, members, step)))
       <==> Safe(w, flat, mt, m)
  {
    ConsumeUniqueIff(w, mt, m, members, step, flat);
    ConsumeBoundedIff(w, mt, m, members, step, flat);
  }

  lemma FewerStayGood(w: World, flat: multiset<Msg>, flat': multiset<Msg>)
    requires Good(w, flat) && flat' <= flat
    ensures Good(w, flat')
  {
    assert forall d :: d in flat' ==> d in flat && flat'[d] <= flat[d];
  }

  // ----- any act -----------------------------------------------------------

  lemma MarkIgnoresRead(user: string, seqs: seq<int>, now: int)
    ensures IgnoresRead(RecentlyNumbered(user, seqs, now, 2))
  {
    hide MonthOf;
    forall d: Msg, r: bool
      ensures RecentlyNumbered(user, seqs, now, 2)(d.(isRead := r)) == RecentlyNumbered(user, seqs, now, 2)(d)
    {
      var e := d.(isRead := r);
      assert e.receiverId == d.receiverId && e.seqNo == d.seqNo && e.sendTime == d.sendTime;
      assert NumberedIn(user, seqs)(e) == NumberedIn(user, seqs)(d);
      assert Recent(now, 2, e) == Recent(now, 2, d);
    }
  }

  /** The one document that a marked one was. */
  lemma MarkedOnce(flat: multiset<Msg>, q: Msg -> bool, d: Msg) returns (d0: Msg)
    requires IgnoresRead(q) && MarkedCount(flat, q, d) > 0
    ensures d0 in flat && d0.receiverId == d.receiverId && d0.seqNo == d.seqNo
    ensures d == if q(d0) then Marked(d0) else d0
    ensures NumbersUnique(flat) && d.seqNo >= 1 ==> MarkedCount(flat, q, d) == 1
  {
    var unread := d.(isRead := false);
    assert q(unread) == q(d);
    d0 := if d in flat then d else unread;
    assert unread.receiverId == d.receiverId && unread.seqNo == d.seqNo;
  }

  lemma MarkKeepsGood(w: World, flat: multiset<Msg>, flat': multiset<Msg>, q: Msg -> bool)
    requires IgnoresRead(q) && forall d :: flat'[d] == MarkedCount(flat, q, d)
    requires Good(w, flat)
    ensures Good(w, flat')
  {
    hide SequenceRun.Passed, MarkedCount, IgnoresRead, Marked;
    forall d | d in flat' && d.seqNo >= 1
      ensures d.seqNo <= SequenceRun.Passed(w, d.receiverId)
    {
      var d0 := MarkedOnce(flat, q, d);
    }
    forall a, b | a in flat' && b in flat' && a.receiverId == b.receiverId && a.seqNo == b.seqNo && a.seqNo >= 1
      ensures a == b && flat'[a] == 1
    {
      var a0 := MarkedOnce(flat, q, a);
      var b0 := MarkedOnce(flat, q, b);
      assert a0 == b0;
    }
  }

  lemma ProtocolKeepsGood(w: World, s: SequenceRun.Step, step: int, flat: multiset<Msg>)
    requires SequenceRun.WorldInv(w, step) && SequenceRun.Legal(w, s) && Good(w, flat)
    ensures Good(SequenceRun.Next(w, s, step), flat)
  {
    hide SequenceRun.WorldInv, SequenceRun.Legal, SequenceRun.Passed, SequenceRun.Next;
    forall d | d in flat && d.seqNo >= 1
      ensures d.seqNo <= SequenceRun.Passed(SequenceRun.Next(w, s, step), d.receiverId)
    {
      SequenceRun.PassedGrows(w, s, step, d.receiverId);
    }
  }

  lemma ActKeepsWorldInv(w: World, a: Act, step: int, flat: multiset<Msg>, flat': multiset<Msg>)
    requires SequenceRun.WorldInv(w, step) && Moves(w, a, flat, flat', step)
    ensures SequenceRun.WorldInv(NextOf(w, a, step), step)
  {
    hide SequenceRun.WorldInv, SequenceRun.Legal, SequenceRun.Next, Docs, RecentlyNumbered;
    match a
    case Protocol(s) => SequenceRun.StepKeepsWorldInv(w, s, step);
    case Consume(mt, m, members) => SequenceRun.StepKeepsWorldInv(w, StepOf(mt, m, members), step);
    case _ =>
  }

  lemma ActKeepsGood(w: World, a: Act, step: int, flat: multiset<Msg>, flat': multiset<Msg>)
    requires SequenceRun.WorldInv(w, step) && Good(w, flat)
    requires Moves(w, a, flat, flat', step) && SafeAct(w, a, flat)
    ensures Good(NextOf(w, a, step), flat')
  {
    hide SequenceRun.WorldInv, SequenceRun.Legal, SequenceRun.Next, Docs, RecentlyNumbered, Good, Safe, MarkedCount;
    match a
    case Protocol(s) => ProtocolKeepsGood(w, s, step, flat);
    case Consume(mt, m, members) =>
      ConsumeGoodIff(w, mt, m, members, step, flat);
      FewerStayGood(NextOf(w, a, step), flat + multiset(Docs(w, mt, m, members, step)), flat');
    case MarkRead(user, seqs, now) =>
      MarkIgnoresRead(user, seqs, now);
      MarkKeepsGood(w, flat, flat', RecentlyNumbered(user, seqs, now, 2));
    case Drop => FewerStayGood(w, flat, flat');
  }

  // ----- safe lives keep numbers unique -------------------------------------

  lemma {:induction false} SafeLifeGood(w: World, acts: seq<Act>, flats: seq<multiset<Msg>>, step: int)
    requires SequenceRun.WorldInv(w, step) && Life(w, acts, flats, step) && SafeLife(w, acts, flats, step)
    requires Good(w, flats[0])
    ensures NumbersUnique(flats[|acts|])
    decreases |acts|
  {
    hide SequenceRun.WorldInv, Moves, NextOf, SafeAct, NumbersUnique, Bounded;
    if acts != [] {
      ActKeepsGood(w, acts[0], step, flats[0], flats[1]);
      ActKeepsWorldInv(w, acts[0], step, flats[0], flats[1]);
      SafeLifeGood(NextOf(w, acts[0], step), acts[1..], flats[1..], step);
    }
  }

  /** Whatever safe acts follow, numbers stay unique. */
  ghost predicate AlwaysUnique(w: World, flat: multiset<Msg>, step: int)
  {
    forall acts, flats :: Life(w, acts, flats, step) && SafeLife(w, acts, flats, step) && flats[0] == flat ==>
      NumbersUnique(flats[|acts|])
  }

  // ----- a number ahead of its counter is met one day -----------------------

  lemma Prepend(w: World, a: Act, step: int, flat: multiset<Msg>, acts: seq<Act>, flats: seq<multiset<Msg>>)
    requires Life(NextOf(w, a, step), acts, flats, step) && SafeLife(NextOf(w, a, step), acts, flats, step)
    requires Moves(w, a, flat, flats[0], step) && SafeAct(w, a, flat)
    ensures Life(w, [a] + acts, [flat] + flats, step) && SafeLife(w, [a] + acts, [flat] + flats, step)
  {
    hide Moves, NextOf, SafeAct;
    assert ([a] + acts)[1..] == acts && ([flat] + flats)[1..] == flats;
  }

  /** A message that the box of `u` will number. */
  function Ping(u: string): Msg
  {
    Msg("", "", 0, 0, 0, [], "", u, 0, 0, 0, false, "", 0, "", "", None)
  }

  /** What one such message does: the next number is stored. */
  lemma PingStores(w: World, u: string, step: int, flat: multiset<Msg>)
    requires SequenceRun.WorldInv(w, step) && w.loaded && u in w.table
    ensures var a, d := Consume(Sequence.SingleMsg, Ping(u), []), Ping(u).(seqNo := SequenceRun.Passed(w, u) + 1);
      && Moves(w, a, flat, flat + multiset{d}, step) && SafeAct(w, a, flat)
      && SequenceRun.Passed(NextOf(w, a, step), u) == SequenceRun.Passed(w, u) + 1
      && NextOf(w, a, step).loaded && u in NextOf(w, a, step).table
  {
    var m, s := Ping(u), StepOf(Sequence.SingleMsg, Ping(u), []);
    assert SequenceRun.Legal(w, s) && SequenceRun.Numbers(s, u);
    SequenceRun.IssuesNext(w, s, step, u);
    SequenceRun.MessageAt(w, s, step, u);
    hide SequenceRun.WorldInv, SequenceRun.Legal, SequenceRun.Next, SequenceRun.Passed, Sequence.Script,
      Sequence.MemSeqs;
    assert Docs(w, Sequence.SingleMsg, m, [], step) == [m.(seqNo := SequenceRun.Passed(w, u) + 1)];
  }

  predicate Ordinary(a: Act, u: string)
  {
    || a == Protocol(SequenceRun.Load)
    || a == Protocol(SequenceRun.CreateUser(u))
    || a == Consume(Sequence.SingleMsg, Ping(u), [])
  }

  /** A stored number ahead of its counter: at most a reload, the creation of the
      user and some messages to that user lead to a second document with it. */
  lemma {:induction false} Repeats(w: World, flat: multiset<Msg>, d: Msg, step: int)
    returns (acts: seq<Act>, flats: seq<multiset<Msg>>)
    requires SequenceRun.WorldInv(w, step) && d in flat && d.seqNo > SequenceRun.Passed(w, d.receiverId)
    ensures Life(w, acts, flats, step) && SafeLife(w, acts, flats, step) && flats[0] == flat
    ensures !NumbersUnique(flats[|acts|])
    ensures forall i :: 0 <= i < |acts| ==> Ordinary(acts[i], d.receiverId)
    decreases d.seqNo - SequenceRun.Passed(w, d.receiverId), !w.loaded, d.receiverId !in w.table
  {
    var u := d.receiverId;
    if !w.loaded || u !in w.table {
      var s := if !w.loaded then SequenceRun.Load else SequenceRun.CreateUser(u);
      var a := Protocol(s);
      SequenceRun.PassedGrows(w, s, step, u);
      SequenceRun.StepKeepsWorldInv(w, s, step);
      acts, flats := Repeats(NextOf(w, a, step), flat, d, step);
      Prepend(w, a, step, flat, acts, flats);
      acts, flats := [a] + acts, [flat] + flats;
    } else {
      var a, e := Consume(Sequence.SingleMsg, Ping(u), []), Ping(u).(seqNo := SequenceRun.Passed(w, u) + 1);
      var flat' := flat + multiset{e};
      PingStores(w, u, step, flat);
      if e.seqNo == d.seqNo {
        assert d in flat' && e in flat';
        assert d == e ==> flat'[d] >= 2;
        acts, flats := [], [flat'];
      } else {
        ActKeepsWorldInv(w, a, step, flat, flat');
        acts, flats := Repeats(NextOf(w, a, step), flat', d, step);
      }
      Prepend(w, a, step, flat, acts, flats);
      acts, flats := [a] + acts, [flat] + flats;
    }
  }

  /** Numbers stay unique whatever safe acts follow if and only if they are unique
      now and none lies ahead of its user's counter. */
  lemma AlwaysUniqueIff(w: World, flat: multiset<Msg>, step: int)
    requires SequenceRun.WorldInv(w, step)
    ensures AlwaysUnique(w, flat, step) <==> Good(w, flat)
  {
    if Good(w, flat) {
      forall acts, flats | Life(w, acts, flats, step) && SafeLife(w, acts, flats, step) && flats[0] == flat
        ensures NumbersUnique(flats[|acts|])
      {
        SafeLifeGood(w, acts, flats, step);
      }
    } else if !Bounded(w, flat) {
      var d :| d in flat && d.seqNo >= 1 && d.seqNo > SequenceRun.Passed(w, d.receiverId);
      var acts, flats := Repeats(w, flat, d, step);
    } else {
      var acts: seq<Act>, flats := [], [flat];
      assert Life(w, acts, flats, step) && SafeLife(w, acts, flats, step);
    }
  }

  // ----- the exact condition over whole lives -------------------------------

  /** The condition on one message: its payload is safe if and only if numbers stay
      unique for ever once all its documents are stored. */
  lemma SafeIff(w: World, mt: Kind, m: Msg, members: seq<string>, step: int, flat: multiset<Msg>)
    requires SequenceRun.WorldInv(w, step) && SequenceRun.Legal(w, StepOf(mt, m, members)) && Good(w, flat)
    ensures Safe(w, flat, mt, m) <==>
      AlwaysUnique(SequenceRun.Next(w, StepOf(mt, m, members), step),
                   flat + multiset(Docs(w, mt, m, members, step)), step)
  {
    hide SequenceRun.WorldInv, SequenceRun.Legal, SequenceRun.Next, Docs, Good, Safe, AlwaysUnique;
    ConsumeGoodIff(w, mt, m, members, step, flat);
    SequenceRun.StepKeepsWorldInv(w, StepOf(mt, m, members), step);
    AlwaysUniqueIff(SequenceRun.Next(w, StepOf(mt, m, members), step),
                    flat + multiset(Docs(w, mt, m, members, step)), step);
  }

  /** Every message of the life had all its documents stored. */
  ghost predicate AllStored(w: World, acts: seq<Act>, flats: seq<multiset<Msg>>, step: int)
    requires Life(w, acts, flats, step)
    decreases |acts|
  {
    acts == [] ||
    ((acts[0].Consume? ==> flats[1] == flats[0] + multiset(Docs(w, acts[0].mt, acts[0].m, acts[0].members, step)))
     && AllStored(NextOf(w, acts[0], step), acts[1..], flats[1..], step))
  }

  /** At no point of the life can safe acts lead to a repeated number. */
  ghost predicate UniqueThroughout(w: World, acts: seq<Act>, flats: seq<multiset<Msg>>, step: int)
    requires Life(w, acts, flats, step)
    decreases |acts|
  {
    && AlwaysUnique(w, flats[0], step)
    && (acts == [] || UniqueThroughout(NextOf(w, acts[0], step), acts[1..], flats[1..], step))
  }

  lemma {:induction false} SafeLifeIff(w: World, acts: seq<Act>, flats: seq<multiset<Msg>>, step: int)
    requires SequenceRun.WorldInv(w, step) && Life(w, acts, flats, step) && AllStored(w, acts, flats, step)
    requires Good(w, flats[0])
    ensures SafeLife(w, acts, flats, step) <==> UniqueThroughout(w, acts, flats, step)
    decreases |acts|
  {
    hide SequenceRun.WorldInv, Moves, SafeAct, Good, AlwaysUnique, NextOf;
    AlwaysUniqueIff(w, flats[0], step);
    if acts != [] {
      var w' := NextOf(w, acts[0], step);
      ActKeepsWorldInv(w, acts[0], step, flats[0], flats[1]);
      AlwaysUniqueIff(w', flats[1], step);
      StoredActIff(w, acts[0], step, flats[0], flats[1]);
      if SafeAct(w, acts[0], flats[0]) {
        SafeLifeIff(w', acts[1..], flats[1..], step);
      } else {
        assert flats[1..][0] == flats[1];
      }
    }
  }

  lemma StoredActIff(w: World, a: Act, step: int, flat: multiset<Msg>, flat': multiset<Msg>)
    requires SequenceRun.WorldInv(w, step) && Good(w, flat) && Moves(w, a, flat, flat', step)
    requires a.Consume? ==> flat' == flat + multiset(Docs(w, a.mt, a.m, a.members, step))
    ensures Good(NextOf(w, a, step), flat') <==> SafeAct(w, a, flat)
  {
    hide SequenceRun.WorldInv, SequenceRun.Legal, SequenceRun.Next, Docs, RecentlyNumbered, Good, Safe, MarkedCount;
    if a.Consume? {
      ConsumeGoodIff(w, a.mt, a.m, a.members, step, flat);
    } else {
      ActKeepsGood(w, a, step, flat, flat');
    }
  }

  /** A life of the backend from its first day. */
  ghost predicate LifeFromStart(acts: seq<Act>, flats: seq<multiset<Msg>>, step: int)
  {
    step >= 1 && Life(SequenceRun.START, acts, flats, step) && flats[0] == multiset{}
  }

  lemma StartGood(step: int)
    requires step >= 1
    ensures SequenceRun.WorldInv(SequenceRun.START, step) && Good(SequenceRun.START, multiset{})
  {
  }

  /** Over every life, with losses, failed saves, redeliveries, deletions and read
      marks: if payloads are safe, no user's box ever holds a number twice. */
  lemma StoredNumbersUnique(acts: seq<Act>, flats: seq<multiset<Msg>>, step: int)
    requires LifeFromStart(acts, flats, step) && SafeLife(SequenceRun.START, acts, flats, step)
    ensures NumbersUnique(flats[|acts|])
  {
    StartGood(step);
    hide Good, SequenceRun.WorldInv, NumbersUnique, Moves;
    SafeLifeGood(SequenceRun.START, acts, flats, step);
  }

  /** And if every message is stored, all payloads are safe exactly when at no point
      of the life a repeat can follow. */
  lemma UniqueForeverIff(acts: seq<Act>, flats: seq<multiset<Msg>>, step: int)
    requires LifeFromStart(acts, flats, step) && AllStored(SequenceRun.START, acts, flats, step)
    ensures SafeLife(SequenceRun.START, acts, flats, step) <==> UniqueThroughout(SequenceRun.START, acts, flats, step)
  {
    StartGood(step);
    hide Good, SequenceRun.WorldInv, NumbersUnique, Moves;
    SafeLifeIff(SequenceRun.START, acts, flats, step);
  }

  /** So a query over assigned numbers has one possible answer, after every safe life. */
  lemma AnswersAreDetermined(acts: seq<Act>, flats: seq<multiset<Msg>>, step: int,
                             user: string, lo: int, hi: int, now: int, a: seq<Msg>, b: seq<Msg>)
    requires LifeFromStart(acts, flats, step) && SafeLife(SequenceRun.START, acts, flats, step) && lo >= 1
    requires IsAnswer(flats[|acts|], user, lo, hi, now, a) && IsAnswer(flats[|acts|], user, lo, hi, now, b)
    ensures a == b
  {
    hide IsAnswer;
    StoredNumbersUnique(acts, flats, step);
    AnswerIsDetermined(flats[|acts|], user, lo, hi, now, a, b);
  }

  // ----- where stored numbers come from -------------------------------------

  /** The allocator's part of a life. */
  function Steps(acts: seq<Act>): seq<SequenceRun.Step>
  {
    if acts == [] then [] else StepsOf(acts[0]) + Steps(acts[1..])
  }

  function StepsOf(a: Act): seq<SequenceRun.Step>
  {
    match a
    case Protocol(s) => [s]
    case Consume(mt, m, members) => [StepOf(mt, m, members)]
    case _ => []
  }

  /** Some payload brought this number to the box of `u`. */
  predicate Claims(a: Act, u: string, n: int)
  {
    a.Consume? && KeepsPayload(a.mt) && a.m.seqNo == n && Payload(a.mt, a.m).receiverId == u
  }

  ghost predicate Accounted(flat: multiset<Msg>, run: seq<SequenceRun.Step>, done: seq<Act>, step: int)
  {
    forall d :: d in flat && d.seqNo >= 1 ==> AccountedFor(d, run, done, step)
  }

  ghost predicate AccountedFor(d: Msg, run: seq<SequenceRun.Step>, done: seq<Act>, step: int)
  {
    || SequenceRun.Issued(d.seqNo) in SequenceRun.History(run, d.receiverId, step)
    || exists i :: 0 <= i < |done| && Claims(done[i], d.receiverId, d.seqNo)
  }

  lemma StillAccounted(d: Msg, run: seq<SequenceRun.Step>, done: seq<Act>, step: int, a: Act)
    requires AccountedFor(d, run, done, step)
    ensures AccountedFor(d, run + StepsOf(a), done + [a], step)
  {
    hide Claims;
    if SequenceRun.Issued(d.seqNo) in SequenceRun.History(run, d.receiverId, step) {
      if StepsOf(a) == [] {
        assert run + [] == run;
      } else {
        HistorySnoc(run, StepsOf(a)[0], d.receiverId, step);
      }
    } else {
      var i :| 0 <= i < |done| && Claims(done[i], d.receiverId, d.seqNo);
      assert (done + [a])[i] == done[i];
    }
  }

  lemma HistorySnoc(run: seq<SequenceRun.Step>, s: SequenceRun.Step, u: string, step: int)
    ensures SequenceRun.History(run + [s], u, step)
         == SequenceRun.History(run, u, step) + SequenceRun.Observed(SequenceRun.After(run, step), s, u, step)
  {
    assert (run + [s])[..|run|] == run;
  }

  lemma NewAccounted(w: World, mt: Kind, m: Msg, members: seq<string>, step: int, d: Msg,
                     run: seq<SequenceRun.Step>, done: seq<Act>)
    requires w == SequenceRun.After(run, step) && SequenceRun.Legal(w, StepOf(mt, m, members))
    requires d in Docs(w, mt, m, members, step) && d.seqNo >= 1
    ensures AccountedFor(d, run + [StepOf(mt, m, members)], done + [Consume(mt, m, members)], step)
  {
    var a := Consume(mt, m, members);
    hide Docs, SequenceRun.After, SequenceRun.Legal, SequenceRun.History, Sequence.Script, KeepsPayload, Payload;
    DocsNumbered(w, mt, m, members, step, d);
    if SequenceRun.Numbers(StepOf(mt, m, members), d.receiverId) {
      HistorySnoc(run, StepOf(mt, m, members), d.receiverId, step);
      hide SequenceRun.Numbers;
      assert d.seqNo == Sequence.Script(w.redis, Sequence.Seq(d.receiverId), step).cur ||
        Claims(a, d.receiverId, d.seqNo);
    }
    assert (done + [a])[|done|] == a;
  }

  lemma ActAccounted(run: seq<SequenceRun.Step>, done: seq<Act>, a: Act, step: int, flat: multiset<Msg>,
                     flat': multiset<Msg>)
    requires Moves(SequenceRun.After(run, step), a, flat, flat', step) && Accounted(flat, run, done, step)
    ensures Accounted(flat', run + StepsOf(a), done + [a], step)
  {
    var w := SequenceRun.After(run, step);
    hide SequenceRun.After, SequenceRun.Legal, Docs, RecentlyNumbered, AccountedFor;
    forall d | d in flat' && d.seqNo >= 1
      ensures AccountedFor(d, run + StepsOf(a), done + [a], step)
    {
      if d in flat {
        StillAccounted(d, run, done, step, a);
      } else if a.Consume? {
        NewAccounted(w, a.mt, a.m, a.members, step, d, run, done);
      } else {
        var d0 := d.(isRead := false);
        assert a.MarkRead? && d0 in flat && d0.receiverId == d.receiverId && d0.seqNo == d.seqNo;
        StillAccounted(d0, run, done, step, a);
        SameNumberAccounted(d0, d, run + StepsOf(a), done + [a], step);
      }
    }
  }

  lemma SameNumberAccounted(d: Msg, e: Msg, run: seq<SequenceRun.Step>, done: seq<Act>, step: int)
    requires d.receiverId == e.receiverId && d.seqNo == e.seqNo
    ensures AccountedFor(d, run, done, step) <==> AccountedFor(e, run, done, step)
  {
  }

  lemma {:induction false} LifeAccounted(run: seq<SequenceRun.Step>, done: seq<Act>, acts: seq<Act>,
                                         flats: seq<multiset<Msg>>, step: int)
    requires Life(SequenceRun.After(run, step), acts, flats, step) && Accounted(flats[0], run, done, step)
    ensures Accounted(flats[|acts|], run + Steps(acts), done + acts, step)
    decreases |acts|
  {
    StepsCons(run, done, acts);
    hide Moves, Accounted, SequenceRun.After, StepsOf, NextOf, Steps;
    if acts != [] {
      var a := acts[0];
      ActAccounted(run, done, a, step, flats[0], flats[1]);
      AfterAct(run, a, step);
      hide Life;
      LifeAccounted(run + StepsOf(a), done + [a], acts[1..], flats[1..], step);
    }
  }

  lemma StepsCons(run: seq<SequenceRun.Step>, done: seq<Act>, acts: seq<Act>)
    ensures acts == [] ==> run + Steps(acts) == run && done + acts == done
    ensures acts != [] ==> run + Steps(acts) == run + StepsOf(acts[0]) + Steps(acts[1..])
    ensures acts != [] ==> done + acts == done + [acts[0]] + acts[1..]
  {
  }

  lemma AfterAct(run: seq<SequenceRun.Step>, a: Act, step: int)
    ensures SequenceRun.After(run + StepsOf(a), step) == NextOf(SequenceRun.After(run, step), a, step)
  {
    if StepsOf(a) == [] {
      assert run + [] == run;
    } else {
      SequenceRun.AfterSnoc(run, StepsOf(a)[0], step);
    }
  }

  /** Over every life, safe or not, a number in a user's box was issued to that user
      or brought there by a payload. */
  lemma NumbersAccounted(acts: seq<Act>, flats: seq<multiset<Msg>>, step: int, d: Msg)
    requires LifeFromStart(acts, flats, step) && d in flats[|acts|] && d.seqNo >= 1
    ensures SequenceRun.Issued(d.seqNo) in SequenceRun.History(Steps(acts), d.receiverId, step)
         || exists i :: 0 <= i < |acts| && Claims(acts[i], d.receiverId, d.seqNo)
  {
    LifeAccounted([], [], acts, flats, step);
    assert [] + Steps(acts) == Steps(acts) && [] + acts == acts;
    assert AccountedFor(d, Steps(acts), acts, step);
  }

  // ----- two payloads that repeat a number ----------------------------------

  /** After a first load and the creation of `u`. */
  function Fresh(u: string, step: int): World
  {
    Sequence.World(map[], true, map[u := Sequence.Row(step, step)])
  }

  lemma FreshIsReached(u: string, step: int)
    requires step >= 1
    ensures SequenceRun.After([SequenceRun.Load, SequenceRun.CreateUser(u)], step) == Fresh(u, step)
    ensures SequenceRun.LegalRun([SequenceRun.Load, SequenceRun.CreateUser(u)], step)
    ensures SequenceRun.WorldInv(Fresh(u, step), step) && SequenceRun.Passed(Fresh(u, step), u) == 0
  {
    var run := [SequenceRun.Load, SequenceRun.CreateUser(u)];
    assert run[..1] == [SequenceRun.Load] && run[..0] == [] && [SequenceRun.Load][..0] == [];
    assert Sequence.Restored(map[], map[]) == map[];
    assert SequenceRun.After([], step) == SequenceRun.START;
    assert SequenceRun.After([SequenceRun.Load], step) == Sequence.World(map[], true, map[]);
  }

  /** A plain message that claims number 1 before `u` has any: nothing repeats yet,
      but the first message to `u` gets number 1 again. */
  lemma EarlyClaimRepeats(u: string, claim: Msg, step: int)
    requires step >= 1 && claim.receiverId == u && claim.seqNo == 1
    ensures var w := Fresh(u, step);
      var flat := multiset(Docs(w, Sequence.FriendBlack, claim, [], step));
      && SequenceRun.Legal(w, StepOf(Sequence.FriendBlack, claim, []))
      && NumbersUnique(flat) && PayloadFree(multiset{}, Sequence.FriendBlack, claim)
      && !AlwaysUnique(SequenceRun.Next(w, StepOf(Sequence.FriendBlack, claim, []), step), flat, step)
  {
    var w := Fresh(u, step);
    FreshIsReached(u, step);
    assert Good(w, multiset{});
    SafeIff(w, Sequence.FriendBlack, claim, [], step, multiset{});
    ConsumeUniqueIff(w, Sequence.FriendBlack, claim, [], step, multiset{});
    var flat := multiset(Docs(w, Sequence.FriendBlack, claim, [], step));
    assert multiset{} + flat == flat;
  }

  /** A plain message that claims a number the box already holds repeats it at once. */
  lemma LateClaimRepeats(w: World, flat: multiset<Msg>, d: Msg, claim: Msg, step: int)
    requires SequenceRun.WorldInv(w, step) && w.loaded && Good(w, flat)
    requires d in flat && d.seqNo >= 1 && claim.receiverId == d.receiverId && claim.seqNo == d.seqNo
    ensures SequenceRun.Legal(w, StepOf(Sequence.FriendBlack, claim, []))
    ensures !NumbersUnique(flat + multiset(Docs(w, Sequence.FriendBlack, claim, [], step)))
  {
    assert SequenceRun.Legal(w, StepOf(Sequence.FriendBlack, claim, []));
    ConsumeUniqueIff(w, Sequence.FriendBlack, claim, [], step, flat);
  }
}
