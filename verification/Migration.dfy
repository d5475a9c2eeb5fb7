/** Migration from the single collection into the sharded box: batches of a
    document stream, processed by tasks that interleave in any way. */
module Migration {
  import opened Documents
  import opened ShardedStore
  import opened MessageBox

  function Flatten(batches: seq<seq<Document>>): seq<Document>
    decreases |batches|
  {
    if batches == [] then [] else Flatten(batches[..|batches| - 1]) + batches[|batches| - 1]
  }

  /** With a batch size of 0 every document is a batch of its own. */
  function FullSize(batchSize: nat): nat
  {
    if batchSize == 0 then 1 else batchSize
  }

  /** The batches that the cursor loop hands to tasks. */
  method Batches(stream: seq<Document>, batchSize: nat) returns (batches: seq<seq<Document>>)
    ensures Flatten(batches) == stream
    ensures forall i :: 0 <= i < |batches| ==> 0 < |batches[i]| <= if batchSize == 0 then 1 else batchSize
    ensures forall i :: 0 <= i < |batches| - 1 ==> |batches[i]| == if batchSize == 0 then 1 else batchSize
  {
    batches := [];
    var batch: seq<Document> := [];
    for i := 0 to |stream|
      invariant Flatten(batches) + batch == stream[..i]
      invariant |batch| < FullSize(batchSize)
      invariant forall j :: 0 <= j < |batches| ==> |batches[j]| == FullSize(batchSize)
    {
      batch := batch + [stream[i]];
      assert Flatten(batches) + batch == stream[..i + 1];
      if |batch| >= batchSize {
        FlattenSnoc(batches, batch);
        batches := batches + [batch];
        batch := [];
      }
    }
    FlattenSnoc(batches, batch);
    assert Flatten(batches) + batch == stream;
    if batch != [] {
      batches := batches + [batch];
    }
  }

  lemma FlattenSnoc(batches: seq<seq<Document>>, batch: seq<Document>)
    ensures Flatten(batches + [batch]) == Flatten(batches) + batch
  {
    assert (batches + [batch])[..|batches|] == batches;
  }

  /** What a source document becomes in the target. */
  function Migrated(d: Document): Msg { Stored(FromDoc(d)) }

  function MigratedAll(ds: seq<Document>): (ms: seq<Msg>)
    ensures |ms| == |ds| && forall i :: 0 <= i < |ds| ==> ms[i] == Migrated(ds[i])
  {
    seq(|ds|, i requires 0 <= i < |ds| => Migrated(ds[i]))
  }

  ghost function Contents(batches: seq<seq<Document>>): multiset<Msg>
  {
    multiset(MigratedAll(Flatten(batches)))
  }

  lemma ContentsSnoc(batches: seq<seq<Document>>, batch: seq<Document>)
    ensures Contents(batches + [batch]) == Contents(batches) + multiset(MigratedAll(batch))
  {
    hide Migrated, Flatten;
    FlattenSnoc(batches, batch);
    assert MigratedAll(Flatten(batches) + batch) == MigratedAll(Flatten(batches)) + MigratedAll(batch);
  }

  /** Taking the head of any batch takes one message out of what is left. */
  lemma {:induction false} TakeHead(batches: seq<seq<Document>>, j: nat)
    requires j < |batches| && batches[j] != []
    ensures Contents(batches) == Contents(batches[j := batches[j][1..]]) + multiset{Migrated(batches[j][0])}
    decreases |batches|
  {
    hide Contents, Flatten, Migrated;
    var init, last := batches[..|batches| - 1], batches[|batches| - 1];
    assert batches == init + [last];
    ContentsSnoc(init, last);
    if j == |batches| - 1 {
      assert batches[j := last[1..]] == init + [last[1..]];
      ContentsSnoc(init, last[1..]);
      assert MigratedAll(last) == [Migrated(last[0])] + MigratedAll(last[1..]);
    } else {
      TakeHead(init, j);
      var init' := init[j := init[j][1..]];
      assert batches[j := batches[j][1..]] == init' + [last];
      ContentsSnoc(init', last);
    }
  }

  lemma {:induction false} AllTaken(batches: seq<seq<Document>>)
    requires forall j :: 0 <= j < |batches| ==> batches[j] == []
    ensures Contents(batches) == multiset{}
    decreases |batches|
  {
    if batches != [] {
      var init := batches[..|batches| - 1];
      assert batches == init + [batches[|batches| - 1]];
      AllTaken(init);
      ContentsSnoc(init, []);
    }
  }

  /** Every document arrives, once, in the collection of its own month and
      receiver, exactly when the unique index has room for all of them; whatever
      the batch size and however the tasks interleave. */
  method Migrate(stream: seq<Document>, batchSize: nat, target: HybridShardedMsgBox) returns (clean: bool)
    requires target.Valid()
    modifies target`store, target`flat
    ensures target.Valid()
    ensures clean <==> Insertable(target.config, old(target.flat), multiset(MigratedAll(stream)))
    ensures clean ==> target.flat == old(target.flat) + multiset(MigratedAll(stream))
    ensures old(target.flat) <= target.flat <= old(target.flat) + multiset(MigratedAll(stream))
    ensures clean ==> |target.flat| == |old(target.flat)| + |stream|
    ensures clean ==> forall i :: 0 <= i < |stream| ==> Arrived(target.flat, FromDoc(stream[i]))
  {
    var tasks := Batches(stream, batchSize);
    clean := ProcessAll(tasks, target);
    assert clean ==> |target.flat| == |old(target.flat)| + |multiset(MigratedAll(stream))|;
    if clean { AllArrived(stream, target.flat); }
  }

  /** A document that carries the whole message is there. */
  ghost predicate Arrived(flat: multiset<Msg>, m: Msg)
  {
    exists d :: d in flat && CarriesAll(d, m)
  }

  lemma AllArrived(stream: seq<Document>, flat: multiset<Msg>)
    requires multiset(MigratedAll(stream)) <= flat
    ensures forall i :: 0 <= i < |stream| ==> Arrived(flat, FromDoc(stream[i]))
  {
    hide FromDoc, Stored, CarriesAll;
    forall i | 0 <= i < |stream|
      ensures Arrived(flat, FromDoc(stream[i]))
    {
      var d := MigratedAll(stream)[i];
      assert d in multiset(MigratedAll(stream));
      StoredKeeps(FromDoc(stream[i]));
      assert d in flat && CarriesAll(d, FromDoc(stream[i]));
    }
  }

  method ProcessAll(batches: seq<seq<Document>>, target: HybridShardedMsgBox) returns (clean: bool)
    requires target.Valid()
    modifies target`store, target`flat
    ensures target.Valid()
    ensures InsertInv(target.config, old(target.flat), target.flat, Contents(batches), Contents(batches), clean)
  {
    hide NameOf, Insertable, Clash, InsertInv, Contents;
    clean := true;
    var pending := batches;
    ghost var start, all, done := target.flat, Contents(batches), multiset{};
    assert InsertInv(target.config, start, target.flat, done, all, clean) by { StartInsert(target.config, start, all); }
    while exists j :: 0 <= j < |pending| && pending[j] != []
      invariant target.Valid()
      invariant done + Contents(pending) == all
      invariant InsertInv(target.config, start, target.flat, done, all, clean)
      decreases |Contents(pending)|
    {
      var j :| 0 <= j < |pending| && pending[j] != [];
      var doc := pending[j][0];
      TakeHead(pending, j);
      pending := pending[j := pending[j][1..]];
      InsertInvStep(target.config, start, target.flat, done, all, clean, Migrated(doc));
      var ok := target.SaveMessage(FromDoc(doc));
      clean := clean && ok;
      done := done + multiset{Migrated(doc)};
    }
    AllTaken(pending);
    assert done == all;
  }

  /** The migrated message, stored, is the source document after one reading and
      writing, and reading and writing it again changes nothing. */
  lemma MigratedDocument(d: Document)
    ensures ToDoc(Migrated(d)) == ToDoc(FromDoc(d))
    ensures Migrated(ToDoc(Migrated(d))) == Migrated(d)
  {
    RestoringIsIdempotent(d);
    ReadsBack(Migrated(d));
    SameDocumentIff(FromDoc(d), Migrated(d));
  }
}
