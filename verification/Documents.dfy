/** Messages and the documents that store them. */
module Documents {
  import opened Wrappers

  datatype Msg = Msg(
    clientId: string, serverId: string, createTime: int, sendTime: int, contentType: int, content: seq<int>,
    senderId: string, receiverId: string, seqNo: int, sendSeq: int, msgType: int, isRead: bool, groupId: string,
    platform: int, avatar: string, nickname: string, relatedMsgId: Option<string>)

  datatype Bson = Str(s: string) | Int64(i: int) | Int32(n: int) | Boolean(b: bool) | Binary(bytes: seq<int>) | Null

  /** Field names of a message document, and any other name. */
  datatype Field =
    | ClientId | ServerId | CreateTime | SendTime | ContentType | Content | SenderId | ReceiverId
    | SeqNo | SendSeq | MsgType | IsRead | GroupId | Platform | Avatar | Nickname | RelatedMsgId
    | Other(name: string)

  type Document = map<Field, Bson>

  /** `to_doc`: platform, avatar, nickname and related id are not stored. */
  const STORED := {ClientId, ServerId, CreateTime, SendTime, ContentType, Content, SenderId, ReceiverId,
                   SeqNo, SendSeq, MsgType, IsRead, GroupId}

  function ToDoc(m: Msg): Document
  {
    map k | k in STORED :: FieldValue(m, k)
  }

  function FieldValue(m: Msg, k: Field): Bson
  {
    match k
    case ClientId => Str(m.clientId)
    case ServerId => Str(m.serverId)
    case CreateTime => Int64(m.createTime)
    case SendTime => Int64(m.sendTime)
    case ContentType => Int32(m.contentType)
    case Content => Binary(m.content)
    case SenderId => Str(m.senderId)
    case ReceiverId => Str(m.receiverId)
    case SeqNo => Int64(m.seqNo)
    case SendSeq => Int64(m.sendSeq)
    case MsgType => Int32(m.msgType)
    case IsRead => Boolean(m.isRead)
    case GroupId => Str(m.groupId)
    case _ => Null
  }

  function GetStr(d: Document, k: Field): string { if k in d && d[k].Str? then d[k].s else "" }
  function GetI64(d: Document, k: Field): int { if k in d && d[k].Int64? then d[k].i else 0 }
  function GetI32(d: Document, k: Field): int { if k in d && d[k].Int32? then d[k].n else 0 }
  function GetBool(d: Document, k: Field): bool { if k in d && d[k].Boolean? then d[k].b else false }
  function GetBinary(d: Document, k: Field): seq<int> { if k in d && d[k].Binary? then d[k].bytes else [] }

  /** `Msg::try_from`: a missing or mistyped field reads as its default. */
  function FromDoc(d: Document): Msg
  {
    Msg(GetStr(d, ClientId), GetStr(d, ServerId), GetI64(d, CreateTime), GetI64(d, SendTime),
        GetI32(d, ContentType), GetBinary(d, Content), GetStr(d, SenderId), GetStr(d, ReceiverId),
        GetI64(d, SeqNo), GetI64(d, SendSeq), GetI32(d, MsgType), GetBool(d, IsRead), GetStr(d, GroupId),
        GetI32(d, Platform), GetStr(d, Avatar), GetStr(d, Nickname),
        if RelatedMsgId in d && d[RelatedMsgId].Str? then Some(d[RelatedMsgId].s) else None)
  }

  /** What is left of a message once it has been stored. */
  function Stored(m: Msg): Msg
  {
    m.(platform := 0, avatar := "", nickname := "", relatedMsgId := None)
  }

  /** `d` carries the message `m`: everything but receiver and numbers, which differ
      from copy to copy. */
  predicate Carries(d: Msg, m: Msg)
  {
    && d.clientId == m.clientId && d.serverId == m.serverId
    && d.createTime == m.createTime && d.sendTime == m.sendTime
    && d.contentType == m.contentType && d.content == m.content
    && d.senderId == m.senderId && d.groupId == m.groupId
    && d.msgType == m.msgType && d.isRead == m.isRead
  }

  /** And receiver and numbers as well. */
  predicate CarriesAll(d: Msg, m: Msg)
  {
    Carries(d, m) && d.receiverId == m.receiverId && d.seqNo == m.seqNo && d.sendSeq == m.sendSeq
  }

  /** Storing drops four fields and nothing else. */
  lemma StoredKeeps(m: Msg)
    ensures CarriesAll(Stored(m), m)
    ensures Stored(m).platform == 0 && Stored(m).avatar == "" && Stored(m).nickname == ""
    ensures Stored(m).relatedMsgId == None
  {
  }

  /** A written document holds each stored field under its own name, and no other. */
  lemma FieldsWritten(m: Msg)
    ensures ToDoc(m) == map[
      ClientId := Str(m.clientId), ServerId := Str(m.serverId), CreateTime := Int64(m.createTime),
      SendTime := Int64(m.sendTime), ContentType := Int32(m.contentType), Content := Binary(m.content),
      SenderId := Str(m.senderId), ReceiverId := Str(m.receiverId), SeqNo := Int64(m.seqNo),
      SendSeq := Int64(m.sendSeq), MsgType := Int32(m.msgType), IsRead := Boolean(m.isRead),
      GroupId := Str(m.groupId)]
  {
  }

  /** Reading takes each field from its own name, whoever wrote the document. */
  lemma FieldsRead(d: Document)
    ensures ClientId in d && d[ClientId].Str? ==> FromDoc(d).clientId == d[ClientId].s
    ensures ServerId in d && d[ServerId].Str? ==> FromDoc(d).serverId == d[ServerId].s
    ensures CreateTime in d && d[CreateTime].Int64? ==> FromDoc(d).createTime == d[CreateTime].i
    ensures SendTime in d && d[SendTime].Int64? ==> FromDoc(d).sendTime == d[SendTime].i
    ensures ContentType in d && d[ContentType].Int32? ==> FromDoc(d).contentType == d[ContentType].n
    ensures Content in d && d[Content].Binary? ==> FromDoc(d).content == d[Content].bytes
    ensures SenderId in d && d[SenderId].Str? ==> FromDoc(d).senderId == d[SenderId].s
    ensures ReceiverId in d && d[ReceiverId].Str? ==> FromDoc(d).receiverId == d[ReceiverId].s
    ensures SeqNo in d && d[SeqNo].Int64? ==> FromDoc(d).seqNo == d[SeqNo].i
    ensures SendSeq in d && d[SendSeq].Int64? ==> FromDoc(d).sendSeq == d[SendSeq].i
    ensures MsgType in d && d[MsgType].Int32? ==> FromDoc(d).msgType == d[MsgType].n
    ensures IsRead in d && d[IsRead].Boolean? ==> FromDoc(d).isRead == d[IsRead].b
    ensures GroupId in d && d[GroupId].Str? ==> FromDoc(d).groupId == d[GroupId].s
    ensures Platform in d && d[Platform].Int32? ==> FromDoc(d).platform == d[Platform].n
    ensures Avatar in d && d[Avatar].Str? ==> FromDoc(d).avatar == d[Avatar].s
    ensures Nickname in d && d[Nickname].Str? ==> FromDoc(d).nickname == d[Nickname].s
    ensures RelatedMsgId in d && d[RelatedMsgId].Str? ==> FromDoc(d).relatedMsgId == Some(d[RelatedMsgId].s)
  {
  }

  /** A document without any known field reads as the empty message. */
  lemma DefaultsRead(d: Document)
    requires forall k :: k in d ==> k.Other?
    ensures FromDoc(d) == Msg("", "", 0, 0, 0, [], "", "", 0, 0, 0, false, "", 0, "", "", None)
  {
  }

  /** A stored message reads back without its four unstored fields. */
  lemma ReadsBack(m: Msg)
    ensures FromDoc(ToDoc(m)) == Stored(m)
  {
    hide ToDoc;
    DocumentAt(m, ClientId); DocumentAt(m, ServerId); DocumentAt(m, CreateTime); DocumentAt(m, SendTime);
    DocumentAt(m, ContentType); DocumentAt(m, Content); DocumentAt(m, SenderId); DocumentAt(m, ReceiverId);
    DocumentAt(m, SeqNo); DocumentAt(m, SendSeq); DocumentAt(m, MsgType); DocumentAt(m, IsRead);
    DocumentAt(m, GroupId); DocumentAt(m, Platform); DocumentAt(m, Avatar); DocumentAt(m, Nickname);
    DocumentAt(m, RelatedMsgId);
  }

  predicate IsStored(k: Field)
  {
    !(k.Platform? || k.Avatar? || k.Nickname? || k.RelatedMsgId? || k.Other?)
  }

  lemma DocumentAt(m: Msg, k: Field)
    ensures k in ToDoc(m) <==> IsStored(k)
    ensures k in ToDoc(m) ==> ToDoc(m)[k] == FieldValue(m, k)
  {
    hide FieldValue;
  }

  lemma UnstoredFieldsDoNotMatter(m: Msg)
    ensures ToDoc(Stored(m)) == ToDoc(m)
  {
    assert forall k :: k in STORED ==> FieldValue(Stored(m), k) == FieldValue(m, k);
  }

  /** Storing what was read changes nothing further, whatever the document was. */
  lemma RestoringIsIdempotent(d: Document)
    ensures FromDoc(ToDoc(FromDoc(d))) == Stored(FromDoc(d))
    ensures ToDoc(FromDoc(ToDoc(FromDoc(d)))) == ToDoc(FromDoc(d))
  {
    hide ToDoc, FromDoc;
    ReadsBack(FromDoc(d));
    UnstoredFieldsDoNotMatter(FromDoc(d));
  }

  /** Documents and stored messages are in one-to-one correspondence. */
  lemma SameDocumentIff(a: Msg, b: Msg)
    ensures ToDoc(a) == ToDoc(b) <==> Stored(a) == Stored(b)
  {
    hide ToDoc, FromDoc;
    ReadsBack(a);
    ReadsBack(b);
    UnstoredFieldsDoNotMatter(a);
    UnstoredFieldsDoNotMatter(b);
  }

  lemma StableIff(d: Document)
    ensures ToDoc(FromDoc(d)) == d <==> exists m :: d == ToDoc(m)
  {
    hide ToDoc, FromDoc;
    forall m | d == ToDoc(m)
      ensures ToDoc(FromDoc(d)) == d
    {
      ReadsBack(m);
      UnstoredFieldsDoNotMatter(m);
    }
  }

  /** The key that the database adds to every document. */
  const KEY := Other("_id")

  /** Reading ignores the database's key. */
  lemma KeyIsIgnored(d: Document)
    ensures FromDoc(d - {KEY}) == FromDoc(d)
  {
    var e := d - {KEY};
    assert forall k: Field :: k != KEY ==> (k in e <==> k in d) && (k in d ==> e[k] == d[k]);
  }

  /** Apart from the key, which the target assigns anew, a migrated document is
      unchanged exactly when `to_doc` could have written it. */
  lemma MigrationLosslessIff(d: Document)
    ensures ToDoc(FromDoc(d)) == d - {KEY} <==> exists m :: d - {KEY} == ToDoc(m)
  {
    hide ToDoc, FromDoc;
    KeyIsIgnored(d);
    StableIff(d - {KEY});
  }
}
