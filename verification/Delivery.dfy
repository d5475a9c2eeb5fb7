/** The consumer and the message box together: what a handled message leaves in
    the box. */
module Delivery {
  import opened Calendar
  import opened Documents
  import opened ShardedStore
  import opened MessageBox
  import Sequence
  import SequenceRun

  type Kind = Sequence.MsgType

  /** Kinds after which the box saves nothing: receipts delete, `Read` marks. */
  predicate SavesNothing(mt: Kind)
  {
    mt.Read? || mt.GroupDismissOrExitReceived? || mt.GroupInvitationReceived? || mt.FriendshipReceived?
  }

  /** What the database task stores for a message, its number and its members'. */
  function DocsFor(mt: Kind, m: Msg, cur: int, seqs: seq<Member>): seq<Msg>
  {
    if !Sequence.SendToDbFlag(mt) || SavesNothing(mt) then []
    else match Sequence.Classify(mt)
         case Group => Copies(m, seqs)
         case SingleNumbered => [Stored(m.(seqNo := cur))]
         case SinglePlain => [Stored(m)]
  }

  /** Receipts take a document away, and `Read` marks documents. */
  const SAVES_NOTHING := {
    Sequence.Read, Sequence.GroupDismissOrExitReceived, Sequence.GroupInvitationReceived, Sequence.FriendshipReceived}

  /** What is stored for each kind, document by document. */
  lemma DocsInWords(mt: Kind, m: Msg, cur: int, seqs: seq<Member>)
    ensures mt in Sequence.SKIPS_DB || mt in SAVES_NOTHING ==> DocsFor(mt, m, cur, seqs) == []
    ensures mt in Sequence.NUMBERS_MEMBERS ==>
      var docs := DocsFor(mt, m, cur, seqs);
      && |docs| == |seqs| + 1 && IsSenderCopy(docs[0], m)
      && forall i :: 0 <= i < |seqs| ==> IsMemberCopy(docs[i + 1], m, seqs[i])
    ensures mt !in Sequence.SKIPS_DB && mt !in SAVES_NOTHING && mt !in Sequence.NUMBERS_MEMBERS ==>
      var docs := DocsFor(mt, m, cur, seqs);
      && |docs| == 1 && Carries(docs[0], m) && docs[0].receiverId == m.receiverId && docs[0].sendSeq == m.sendSeq
      && docs[0].seqNo == if mt in Sequence.NUMBERS_RECEIVER then cur else m.seqNo
  {
    Sequence.KindsInWords(mt);
    Sequence.GroupGoesToDb(mt);
    assert SavesNothing(mt) <==> mt in SAVES_NOTHING;
    hide Copies, Stored, Sequence.SendToDbFlag, IsSenderCopy, IsMemberCopy;
    StoredKeeps(m);
    StoredKeeps(m.(seqNo := cur));
    if Sequence.Classify(mt).Group? {
      assert !SavesNothing(mt);
      CopyAt(m, seqs, 0);
      forall i | 0 <= i < |seqs| ensures IsMemberCopy(Copies(m, seqs)[i + 1], m, seqs[i]) { CopyAt(m, seqs, i + 1); }
    }
  }

  /** The documents with the numbers that the counters are about to give. */
  function Docs(w: Sequence.World, mt: Kind, m: Msg, members: seq<string>, step: int): seq<Msg>
  {
    DocsFor(mt, m, Sequence.Script(w.redis, Sequence.Seq(m.receiverId), step).cur,
            Sequence.MemSeqs(w.redis, Sequence.Retain(members, m.senderId), step))
  }

  lemma NumbersGiven(w: Sequence.World, mt: Kind, m: Msg, members: seq<string>, step: int, cur: int, seqs: seq<Member>)
    requires Sequence.Classify(mt).SingleNumbered? ==>
      cur == Sequence.Script(w.redis, Sequence.Seq(m.receiverId), step).cur
    requires Sequence.Classify(mt).Group? ==>
      seqs == Sequence.MemSeqs(w.redis, Sequence.Retain(members, m.senderId), step)
    ensures DocsFor(mt, m, cur, seqs) == Docs(w, mt, m, members, step)
  {
    hide Sequence.Script, Sequence.MemSeqs, Sequence.Retain, Copies;
  }

  /** The box half of `send_to_db`; a failed save is only logged. */
  method SendToDb(box: HybridShardedMsgBox, mt: Kind, m: Msg, cur: int, seqs: seq<Member>)
    requires box.Valid()
    modifies box`store, box`flat
    ensures box.Valid()
    ensures var docs := multiset(DocsFor(mt, m, cur, seqs));
      && box.flat <= old(box.flat) + docs
      && (!SavesNothing(mt) ==> old(box.flat) <= box.flat)
      && (!SavesNothing(mt) && Insertable(box.config, old(box.flat), docs) ==> box.flat == old(box.flat) + docs)
    ensures SavesNothing(mt) ==> Discarded(box.config, box.active, old(box.flat), box.flat, m.serverId)
  {
    hide Copies, Insertable, Stored, Discarded;
    if !Sequence.SendToDbFlag(mt) {
      return;
    } else if Sequence.Classify(mt).Group? {
      assert DocsFor(mt, m, cur, seqs) == Copies(m, seqs) && !SavesNothing(mt);
      hide DocsFor, Sequence.Classify, Sequence.SendToDbFlag, SavesNothing, HybridShardedMsgBox.Valid;
      var _ := box.SaveGroupMsg(m, seqs);
    } else if SavesNothing(mt) {
      hide HybridShardedMsgBox.Valid;
      Discard(box, m.serverId);
    } else {
      var numbered := if Sequence.Classify(mt).SingleNumbered? then m.(seqNo := cur) else m;
      assert DocsFor(mt, m, cur, seqs) == [Stored(numbered)];
      hide DocsFor, Sequence.Classify, Sequence.SendToDbFlag, SavesNothing, HybridShardedMsgBox.Valid;
      SaveOne(box, numbered);
    }
  }

  method SaveOne(box: HybridShardedMsgBox, m: Msg)
    requires box.Valid()
    modifies box`store, box`flat
    ensures box.Valid()
    ensures var docs := multiset([Stored(m)]);
      && old(box.flat) <= box.flat <= old(box.flat) + docs
      && (Insertable(box.config, old(box.flat), docs) ==> box.flat == old(box.flat) + docs)
  {
    hide Insertable, Stored, Clash, HybridShardedMsgBox.Valid;
    OneInsertable(box.config, box.flat, Stored(m));
    var _ := box.SaveMessage(m);
  }

  method Discard(box: HybridShardedMsgBox, id: string)
    requires box.Valid()
    modifies box`store, box`flat
    ensures box.Valid() && box.flat <= old(box.flat)
    ensures Discarded(box.config, box.active, old(box.flat), box.flat, id)
  {
    hide NameOf, HybridShardedMsgBox.Valid;
    var gone := box.DeleteMessage(id);
  }

  /** One tracked document of that server id is gone, or there was none. */
  ghost predicate Discarded(c: Sharding, active: set<string>, flat: multiset<Msg>, flat': multiset<Msg>, id: string)
  {
    || (flat' == flat && forall d :: d in flat && NameOf(c, d) in active ==> d.serverId != id)
    || exists d :: d in flat && d.serverId == id && NameOf(c, d) in active && flat' == flat - multiset{d}
  }

  lemma OneInsertable(c: Sharding, flat: multiset<Msg>, d: Msg)
    ensures Insertable(c, flat, multiset([d])) ==> !Clash(c, flat, d)
    ensures multiset([d]) == multiset{d}
  {
    hide NameOf;
    assert d in multiset([d]);
  }

  /** `handle_msg` down to the box. `members` is what the member query returned,
      `readBy` and `readSeqs` are the decoded content of a `Read` message. A failed
      save is only logged. */
  method Deliver(consumer: Sequence.Consumer, box: HybridShardedMsgBox, mt: Kind, m: Msg, members: seq<string>,
                 readBy: string, readSeqs: seq<int>, now: int) returns (ok: bool)
    requires consumer.Valid() && box.Valid()
    modifies consumer.redis`cur, consumer.redis`max, consumer.db`table, box`store, box`flat
    ensures consumer.Valid() && box.Valid()
    ensures Sequence.Outcome(consumer.View(), ok)
         == Sequence.Handle(old(consumer.View()), mt, m.senderId, m.receiverId, members, consumer.redis.step)
    ensures mt.Read? ==>
      forall d :: box.flat[d] == MarkedCount(old(box.flat), RecentlyNumbered(readBy, readSeqs, now, 2), d)
    ensures !mt.Read? && !ok ==> box.flat == old(box.flat)
    ensures !mt.Read? && ok ==>
      var docs := multiset(Docs(old(consumer.View()), mt, m, members, consumer.redis.step));
      && box.flat <= old(box.flat) + docs
      && (!SavesNothing(mt) ==> old(box.flat) <= box.flat)
      && (!SavesNothing(mt) && Insertable(box.config, old(box.flat), docs) ==> box.flat == old(box.flat) + docs)
    ensures !mt.Read? && ok && SavesNothing(mt) ==>
      Discarded(box.config, box.active, old(box.flat), box.flat, m.serverId)
    ensures !mt.Read? && ok && SequenceRun.Legal(old(consumer.View()), StepOf(mt, m, members)) ==>
      && Moves(old(consumer.View()), Consume(mt, m, members), old(box.flat), box.flat, consumer.redis.step)
      && consumer.View() == SequenceRun.Next(old(consumer.View()), StepOf(mt, m, members), consumer.redis.step)
  {
    hide Sequence.Handle, Sequence.MemSeqs, Sequence.Script, Agrees, UniqueSlots, Tracked, NameOf, Docs, DocsFor,
      Insertable, Discarded, Sequence.Classify, SavesNothing, SequenceRun.Legal, Moves, SequenceRun.Next,
      Sequence.BumpAll,
      RecentlyNumbered, MarkedCount;
    var cur, seqs;
    ghost var w, flat := consumer.View(), box.flat;
    ok, cur, seqs := consumer.HandleMsg(mt, m.senderId, m.receiverId, members);
    if mt.Read? {
      box.MsgRead(readBy, readSeqs, now);
    } else if ok {
      NumbersGiven(w, mt, m, members, consumer.redis.step, cur, seqs);
      SendToDb(box, mt, m, cur, seqs);
      DeliveryIsAct(w, mt, m, members, consumer.redis.step, flat, box.flat);
    }
  }

  lemma DeliveryIsAct(w: Sequence.World, mt: Kind, m: Msg, members: seq<string>, step: int,
                      flat: multiset<Msg>, flat': multiset<Msg>)
    requires flat' <= flat + multiset(Docs(w, mt, m, members, step))
    ensures SequenceRun.Legal(w, StepOf(mt, m, members)) ==> Moves(w, Consume(mt, m, members), flat, flat', step)
    ensures SequenceRun.Next(w, StepOf(mt, m, members), step)
         == Sequence.Handle(w, mt, m.senderId, m.receiverId, members, step).world
  {
    hide Docs, Sequence.Handle, SequenceRun.Legal;
  }

  // ----- what may happen to counters and box -------------------------------

  /** A step of the allocator alone, a consumed message, a read mark, or anything
      that takes documents away. */
  datatype Act =
    | Protocol(s: SequenceRun.Step)
    | Consume(mt: Kind, m: Msg, members: seq<string>)
    | MarkRead(user: string, seqs: seq<int>, now: int)
    | Drop

  function StepOf(mt: Kind, m: Msg, members: seq<string>): SequenceRun.Step
  {
    SequenceRun.Message(mt, m.senderId, m.receiverId, members)
  }

  /** What an act may do to the flat collection. Saves may fail one by one, and
      redelivered or colliding ids are allowed. */
  ghost predicate Moves(w: Sequence.World, a: Act, flat: multiset<Msg>, flat': multiset<Msg>, step: int)
  {
    match a
    case Protocol(s) => !s.Message? && SequenceRun.Legal(w, s) && flat' == flat
    case Consume(mt, m, members) =>
      && SequenceRun.Legal(w, StepOf(mt, m, members))
      && flat' <= flat + multiset(Docs(w, mt, m, members, step))
    case MarkRead(user, seqs, now) =>
      forall d :: flat'[d] == MarkedCount(flat, RecentlyNumbered(user, seqs, now, 2), d)
    case Drop => flat' <= flat
  }

  // ----- the documents of one message --------------------------------------

  /** The box keeps the payload with the number it came with: a plain message for
      its receiver, a group message for its sender. */
  predicate KeepsPayload(mt: Kind)
  {
    || Sequence.Classify(mt).Group?
    || (Sequence.Classify(mt).SinglePlain? && Sequence.SendToDbFlag(mt) && !SavesNothing(mt))
  }

  function Payload(mt: Kind, m: Msg): Msg
  {
    if Sequence.Classify(mt).Group? then SenderCopy(m) else Stored(m)
  }

  /** Every document is the payload, or carries its receiver's next number. */
  lemma DocsNumbered(w: Sequence.World, mt: Kind, m: Msg, members: seq<string>, step: int, d: Msg)
    requires SequenceRun.Legal(w, StepOf(mt, m, members)) && d in Docs(w, mt, m, members, step)
    ensures (KeepsPayload(mt) && d == Payload(mt, m) && d.seqNo == m.seqNo)
         || (SequenceRun.Numbers(StepOf(mt, m, members), d.receiverId)
             && d.seqNo == Sequence.Script(w.redis, Sequence.Seq(d.receiverId), step).cur)
  {
    if Sequence.Classify(mt).Group? {
      hide Sequence.Script, Sequence.MemSeqs, Copies;
      var kept := Sequence.Retain(members, m.senderId);
      var seqs := Sequence.MemSeqs(w.redis, kept, step);
      CopyAt(m, seqs, 0);
      var k :| 0 <= k < |Copies(m, seqs)| && Copies(m, seqs)[k] == d;
      CopyAt(m, seqs, k);
      if k > 0 {
        MemSeqsLength(w.redis, kept, step);
        SequenceRun.MemSeqsAt(w.redis, kept, step, k - 1);
        assert kept[k - 1] in kept;
      }
    }
  }

  lemma PayloadStored(w: Sequence.World, mt: Kind, m: Msg, members: seq<string>, step: int)
    requires KeepsPayload(mt)
    ensures Payload(mt, m) in Docs(w, mt, m, members, step) && Payload(mt, m).seqNo == m.seqNo
  {
    hide Sequence.MemSeqs, Sequence.Retain, Sequence.Script, Copies;
    if Sequence.Classify(mt).Group? {
      var seqs := Sequence.MemSeqs(w.redis, Sequence.Retain(members, m.senderId), step);
      CopyAt(m, seqs, 0);
      Sequence.GroupGoesToDb(mt);
      assert Docs(w, mt, m, members, step) == Copies(m, seqs);
      assert Copies(m, seqs)[0] == Payload(mt, m);
    } else {
      assert Docs(w, mt, m, members, step) == [Stored(m)];
    }
  }

  lemma MemSeqsLength(db: Sequence.Hashes, ms: seq<string>, step: int)
    ensures |Sequence.MemSeqs(db, ms, step)| == |ms|
  {
  }

  /** The documents of one message go to different receivers. */
  lemma DocsOnce(w: Sequence.World, mt: Kind, m: Msg, members: seq<string>, step: int, a: Msg, b: Msg)
    requires SequenceRun.Legal(w, StepOf(mt, m, members))
    requires a in Docs(w, mt, m, members, step) && b in Docs(w, mt, m, members, step) && a.receiverId == b.receiverId
    ensures a == b && multiset(Docs(w, mt, m, members, step))[a] == 1
  {
    var docs := Docs(w, mt, m, members, step);
    if Sequence.Classify(mt).Group? {
      var kept := Sequence.Retain(members, m.senderId);
      var seqs := Sequence.MemSeqs(w.redis, kept, step);
      assert forall i :: 0 <= i < |seqs| ==> seqs[i].memId == kept[i] && kept[i] in kept;
      CopiesDiffer(m, seqs);
    }
    assert forall i, j :: 0 <= i < j < |docs| ==> docs[i].receiverId != docs[j].receiverId;
    var i :| 0 <= i < |docs| && docs[i] == a;
    var j :| 0 <= j < |docs| && docs[j] == b;
    OnceOnly(docs, i);
  }
}
