/** Whole DNS messages: dns_message.go. */
module Messages {
  import opened Octets
  import opened Names
  import opened Records

  const HEADER_SIZE := 12
  const MAX_MESSAGE := 9000

  datatype Message = Message(
    id: U16,
    flags: U16,
    qdCount: U16,
    anCount: U16,
    nsCount: U16,
    arCount: U16,
    questions: seq<Question>,
    answers: seq<ResourceRecord>,
    authorities: seq<ResourceRecord>,
    additionals: seq<ResourceRecord>
  )

  // ----- writing -----

  function EmitQuestions(base: nat, table: Table, qs: seq<Question>): Emission {
    if qs == [] then Emission([], table, None)
    else
      var before := EmitQuestions(base, table, qs[..|qs| - 1]);
      if before.error.Some? then before
      else
        var e := EmitQuestion(base + |before.bytes|, before.table, qs[|qs| - 1]);
        Emission(before.bytes + e.bytes, e.table, e.error)
  }

  function EmitRecords(base: nat, table: Table, rrs: seq<ResourceRecord>): Emission {
    if rrs == [] then Emission([], table, None)
    else
      var before := EmitRecords(base, table, rrs[..|rrs| - 1]);
      if before.error.Some? then before
      else
        var e := EmitRecord(base + |before.bytes|, before.table, rrs[|rrs| - 1]);
        Emission(before.bytes + e.bytes, e.table, e.error)
  }

  /** The message header; the four counts are the lengths of the sections, cut to 16 bits. */
  function HeaderBytes(m: Message): (r: Bytes)
    ensures |r| == HEADER_SIZE
  {
    Put16(m.id as int) + Put16(m.flags as int) + Put16(|m.questions|)
    + Put16(|m.answers|) + Put16(|m.authorities|) + Put16(|m.additionals|)
  }

  /** e, the body so far, followed by one more section. */
  function EmitSection(e: Emission, rrs: seq<ResourceRecord>): Emission {
    if e.error.Some? then e
    else
      var r := EmitRecords(HEADER_SIZE + |e.bytes|, e.table, rrs);
      Emission(e.bytes + r.bytes, r.table, r.error)
  }

  function EmitBody(m: Message): Emission {
    var q := EmitQuestions(HEADER_SIZE, map[], m.questions);
    EmitSection(EmitSection(EmitSection(q, m.answers), m.authorities), m.additionals)
  }

  /** The value of Message.Pack. */
  function Pack(m: Message): Result<Bytes> {
    var body := EmitBody(m);
    if body.error.Some? then Err(body.error.value)
    else if HEADER_SIZE + |body.bytes| > MAX_MESSAGE then Err(MessageTooLarge)
    else Ok(HeaderBytes(m) + body.bytes)
  }

  // ----- reading -----

  function ReadQuestions(msg: Bytes, offset: nat, count: nat): (r: Result<Parsed<seq<Question>>>)
    ensures r.Ok? ==> |r.value.value| == count && offset <= r.value.next
    ensures r.Ok? && offset <= |msg| ==> r.value.next <= |msg|
  {
    if count == 0 then Ok(Parsed([], offset))
    else
      var before :- ReadQuestions(msg, offset, count - 1);
      var q :- ReadQuestion(msg, before.next);
      Ok(Parsed(before.value + [q.value], q.next))
  }

  function ReadRecords(msg: Bytes, offset: nat, count: nat): (r: Result<Parsed<seq<ResourceRecord>>>)
    ensures r.Ok? ==> |r.value.value| == count && offset <= r.value.next
    ensures r.Ok? && offset <= |msg| ==> r.value.next <= |msg|
  {
    if count == 0 then Ok(Parsed([], offset))
    else
      var before :- ReadRecords(msg, offset, count - 1);
      var rr :- ReadRecord(msg, before.next);
      Ok(Parsed(before.value + [rr.value], rr.next))
  }

  /** The value of UnpackMessage: every section it accepts has exactly its header's count. */
  function Unpack(data: Bytes): (r: Result<Message>)
    ensures r.Ok? ==>
      && |data| >= HEADER_SIZE
      && |r.value.questions| == r.value.qdCount as int == Get16(data, 4) as int
      && |r.value.answers| == r.value.anCount as int == Get16(data, 6) as int
      && |r.value.authorities| == r.value.nsCount as int == Get16(data, 8) as int
      && |r.value.additionals| == r.value.arCount as int == Get16(data, 10) as int
  {
    if |data| < HEADER_SIZE then Err(MessageTooShort)
    else
      var qd, an, ns, ar := Get16(data, 4), Get16(data, 6), Get16(data, 8), Get16(data, 10);
      var q :- ReadQuestions(data, HEADER_SIZE, qd as int);
      var a :- ReadRecords(data, q.next, an as int);
      var n :- ReadRecords(data, a.next, ns as int);
      var x :- ReadRecords(data, n.next, ar as int);
      Ok(Message(Get16(data, 0), Get16(data, 2), qd, an, ns, ar, q.value, a.value, n.value, x.value))
  }

  // ----- what a message comes back as -----

  function NormalQuestions(qs: seq<Question>): seq<Question> {
    seq(|qs|, i requires 0 <= i < |qs| => NormalQuestion(qs[i]))
  }

  function NormalRecords(rrs: seq<ResourceRecord>): seq<ResourceRecord> {
    seq(|rrs|, i requires 0 <= i < |rrs| => NormalRecord(rrs[i]))
  }

  predicate CountsFit(m: Message) {
    |m.questions| < 0x1_0000 && |m.answers| < 0x1_0000 && |m.authorities| < 0x1_0000 && |m.additionals| < 0x1_0000
  }

  function NormalMessage(m: Message): Message
    requires CountsFit(m)
  {
    Message(m.id, m.flags,
            |m.questions| as U16, |m.answers| as U16, |m.authorities| as U16, |m.additionals| as U16,
            NormalQuestions(m.questions), NormalRecords(m.answers),
            NormalRecords(m.authorities), NormalRecords(m.additionals))
  }

  predicate ProperSection(rrs: seq<ResourceRecord>) {
    forall i :: 0 <= i < |rrs| ==> ProperRecord(rrs[i])
  }

  predicate ShortSection(rrs: seq<ResourceRecord>) {
    forall i :: 0 <= i < |rrs| ==> ShortRecord(rrs[i])
  }

  predicate ProperMessage(m: Message) {
    && (forall i :: 0 <= i < |m.questions| ==> ProperName(m.questions[i].name))
    && ProperSection(m.answers) && ProperSection(m.authorities) && ProperSection(m.additionals)
  }

  predicate ShortMessage(m: Message) {
    && (forall i :: 0 <= i < |m.questions| ==> ShortName(m.questions[i].name))
    && ShortSection(m.answers) && ShortSection(m.authorities) && ShortSection(m.additionals)
  }

  // ----- round trips -----

  ghost predicate QuestionsCarried(msg: Bytes, base: nat, qs: seq<Question>, e: Emission) {
    && TableSound(msg, base + |e.bytes|, e.table)
    && Returns(ReadQuestions(msg, base, |qs|), Parsed(NormalQuestions(qs), base + |e.bytes|),
               forall i :: 0 <= i < |qs| ==> ShortName(qs[i].name))
  }

  lemma {:induction false} QuestionsRoundTrip(msg: Bytes, base: nat, table: Table, qs: seq<Question>)
    requires TableSound(msg, base, table)
    requires forall i :: 0 <= i < |qs| ==> ProperName(qs[i].name)
    requires EmitQuestions(base, table, qs).error == None
    requires At(msg, base, EmitQuestions(base, table, qs).bytes)
    ensures QuestionsCarried(msg, base, qs, EmitQuestions(base, table, qs))
  {
    hide At, TableSound, EmitQuestion, ReadQuestion, NormalQuestion, ShortName, ProperName;
    if qs != [] {
      var front, last := qs[..|qs| - 1], qs[|qs| - 1];
      var before := EmitQuestions(base, table, front);
      var e := EmitQuestion(base + |before.bytes|, before.table, last);
      AtSplit(msg, base, before.bytes, e.bytes);
      QuestionsRoundTrip(msg, base, table, front);
      QuestionRoundTrip(msg, base + |before.bytes|, before.table, last);
      assert NormalQuestions(qs) == NormalQuestions(front) + [NormalQuestion(last)];
    } else {
      assert NormalQuestions(qs) == [];
    }
  }

  ghost predicate RecordsCarried(msg: Bytes, base: nat, rrs: seq<ResourceRecord>, e: Emission) {
    && TableSound(msg, base + |e.bytes|, e.table)
    && Returns(ReadRecords(msg, base, |rrs|), Parsed(NormalRecords(rrs), base + |e.bytes|), ShortSection(rrs))
  }

  lemma {:induction false} RecordsRoundTrip(msg: Bytes, base: nat, table: Table, rrs: seq<ResourceRecord>)
    requires |msg| < 0x1_0000 && TableSound(msg, base, table) && ProperSection(rrs)
    requires EmitRecords(base, table, rrs).error == None
    requires At(msg, base, EmitRecords(base, table, rrs).bytes)
    ensures RecordsCarried(msg, base, rrs, EmitRecords(base, table, rrs))
  {
    hide At, TableSound, EmitRecord, ReadRecord, NormalRecord, ShortRecord, ProperRecord;
    if rrs != [] {
      var front, last := rrs[..|rrs| - 1], rrs[|rrs| - 1];
      var before := EmitRecords(base, table, front);
      var e := EmitRecord(base + |before.bytes|, before.table, last);
      AtSplit(msg, base, before.bytes, e.bytes);
      RecordsRoundTrip(msg, base, table, front);
      RecordRoundTrip(msg, base + |before.bytes|, before.table, last);
      assert NormalRecords(rrs) == NormalRecords(front) + [NormalRecord(last)];
    } else {
      assert NormalRecords(rrs) == [];
    }
  }

  // ----- sizes -----

  lemma {:induction false} QuestionsSize(base: nat, table: Table, qs: seq<Question>)
    requires EmitQuestions(base, table, qs).error == None
    ensures |EmitQuestions(base, table, qs).bytes| >= 5 * |qs|
  {
    hide EmitName;
    if qs != [] {
      var before := EmitQuestions(base, table, qs[..|qs| - 1]);
      QuestionsSize(base, table, qs[..|qs| - 1]);
      EmitNameLength(base + |before.bytes|, before.table, qs[|qs| - 1].name);
    }
  }

  lemma {:induction false} RecordsSize(base: nat, table: Table, rrs: seq<ResourceRecord>)
    requires EmitRecords(base, table, rrs).error == None
    ensures |EmitRecords(base, table, rrs).bytes| >= 11 * |rrs|
  {
    hide EmitName, EmitRdata;
    if rrs != [] {
      var before := EmitRecords(base, table, rrs[..|rrs| - 1]);
      RecordsSize(base, table, rrs[..|rrs| - 1]);
      EmitNameLength(base + |before.bytes|, before.table, rrs[|rrs| - 1].name);
    }
  }

  /** Nothing wraps in a message that packs: its counts are bounded by its 9000 bytes, at 5 bytes
      a question and 11 a record. */
  lemma PackSize(m: Message)
    requires Pack(m).Ok?
    ensures |Pack(m).value| <= MAX_MESSAGE
    ensures HEADER_SIZE + 5 * |m.questions| + 11 * (|m.answers| + |m.authorities| + |m.additionals|) <= |Pack(m).value|
    ensures CountsFit(m)
  {
    hide EmitQuestions, EmitRecords;
    var q := EmitQuestions(HEADER_SIZE, map[], m.questions);
    var a := EmitSection(q, m.answers);
    var n := EmitSection(a, m.authorities);
    QuestionsSize(HEADER_SIZE, map[], m.questions);
    RecordsSize(HEADER_SIZE + |q.bytes|, q.table, m.answers);
    RecordsSize(HEADER_SIZE + |a.bytes|, a.table, m.authorities);
    RecordsSize(HEADER_SIZE + |n.bytes|, n.table, m.additionals);
  }

  /** The RDATA of the k-th record of a section, as it is written. */
  function RdataAt(base: nat, table: Table, rrs: seq<ResourceRecord>, k: nat): Bytes
    requires k < |rrs|
  {
    var before := EmitRecords(base, table, rrs[..k]);
    var n := EmitName(base + |before.bytes|, before.table, rrs[k].name);
    EmitRdata(base + |before.bytes| + |n.bytes| + 10, n.table, rrs[k]).bytes
  }

  predicate RdataFitsAt(e: Emission, rrs: seq<ResourceRecord>, k: nat)
    requires k < |rrs|
  {
    |RdataAt(HEADER_SIZE + |e.bytes|, e.table, rrs, k)| < 0x1_0000
  }

  /** No RDLENGTH wraps in the section rrs written after the body e. */
  predicate RdataFits(e: Emission, rrs: seq<ResourceRecord>) {
    forall k :: 0 <= k < |rrs| ==> RdataFitsAt(e, rrs, k)
  }

  lemma {:induction false} RecordsKeepPointable(base: nat, table: Table, rrs: seq<ResourceRecord>)
    requires Pointable(table)
    ensures Pointable(EmitRecords(base, table, rrs).table)
  {
    hide EmitRecord, Pointable;
    if rrs != [] {
      var before := EmitRecords(base, table, rrs[..|rrs| - 1]);
      RecordsKeepPointable(base, table, rrs[..|rrs| - 1]);
      RecordKeepsPointable(base + |before.bytes|, before.table, rrs[|rrs| - 1]);
    }
  }

  lemma RdataWithinRecord(base: nat, table: Table, rr: ResourceRecord)
    requires EmitRecord(base, table, rr).error == None
    ensures var n := EmitName(base, table, rr.name);
            |EmitRdata(base + |n.bytes| + 10, n.table, rr).bytes| <= |EmitRecord(base, table, rr).bytes|
  {
    hide EmitName, EmitRdata;
  }

  lemma {:induction false} RdataWithin(base: nat, table: Table, rrs: seq<ResourceRecord>, k: nat)
    requires k < |rrs| && EmitRecords(base, table, rrs).error == None
    ensures |RdataAt(base, table, rrs, k)| <= |EmitRecords(base, table, rrs).bytes|
    decreases |rrs|
  {
    hide EmitName, EmitRdata, EmitRecord;
    var front := rrs[..|rrs| - 1];
    var before := EmitRecords(base, table, front);
    if k < |front| {
      RdataWithin(base, table, front, k);
      assert front[..k] == rrs[..k];
    } else {
      RdataWithinRecord(base + |before.bytes|, before.table, rrs[k]);
    }
  }

  lemma SectionRdataFits(e: Emission, rrs: seq<ResourceRecord>)
    requires e.error == None && EmitSection(e, rrs).error == None && |EmitSection(e, rrs).bytes| <= MAX_MESSAGE
    ensures RdataFits(e, rrs) && (Pointable(e.table) ==> Pointable(EmitSection(e, rrs).table))
  {
    hide EmitRecords, RdataAt, Pointable;
    forall k | 0 <= k < |rrs|
      ensures RdataFitsAt(e, rrs, k)
    {
      RdataWithin(HEADER_SIZE + |e.bytes|, e.table, rrs, k);
    }
    if Pointable(e.table) {
      RecordsKeepPointable(HEADER_SIZE + |e.bytes|, e.table, rrs);
    }
  }

  lemma {:induction false} QuestionsKeepPointable(base: nat, table: Table, qs: seq<Question>)
    requires Pointable(table)
    ensures Pointable(EmitQuestions(base, table, qs).table)
  {
    hide EmitName, Pointable;
    if qs != [] {
      var before := EmitQuestions(base, table, qs[..|qs| - 1]);
      QuestionsKeepPointable(base, table, qs[..|qs| - 1]);
      NameKeepsPointable(base + |before.bytes|, before.table, qs[|qs| - 1].name);
    }
  }

  /** The same of lengths and offsets, whatever the names: in a message that packs every RDLENGTH is
      the length of its RDATA, and every entry of the table can be written as a pointer. */
  lemma PackBounds(m: Message)
    requires Pack(m).Ok?
    ensures Pointable(EmitBody(m).table)
    ensures var q := EmitQuestions(HEADER_SIZE, map[], m.questions);
            var a := EmitSection(q, m.answers);
            var n := EmitSection(a, m.authorities);
            && RdataFits(q, m.answers) && RdataFits(a, m.authorities) && RdataFits(n, m.additionals)
  {
    hide EmitQuestions, EmitRecords, Pointable, RdataFits;
    var q := EmitQuestions(HEADER_SIZE, map[], m.questions);
    var a := EmitSection(q, m.answers);
    var n := EmitSection(a, m.authorities);
    NothingPointable();
    QuestionsKeepPointable(HEADER_SIZE, map[], m.questions);
    SectionRdataFits(q, m.answers);
    SectionRdataFits(a, m.authorities);
    SectionRdataFits(n, m.additionals);
  }

  lemma NothingPointable()
    ensures Pointable(map[])
  {
  }

  // ----- the whole message -----

  lemma HeaderCarried(msg: Bytes, m: Message)
    requires CountsFit(m) && At(msg, 0, HeaderBytes(m))
    ensures |msg| >= HEADER_SIZE
    ensures Get16(msg, 0) == m.id && Get16(msg, 2) == m.flags
    ensures Get16(msg, 4) as int == |m.questions| && Get16(msg, 6) as int == |m.answers|
    ensures Get16(msg, 8) as int == |m.authorities| && Get16(msg, 10) as int == |m.additionals|
  {
    hide At, Put16, Get16;
    var i, f, q := Put16(m.id as int), Put16(m.flags as int), Put16(|m.questions|);
    var a, n, x := Put16(|m.answers|), Put16(|m.authorities|), Put16(|m.additionals|);
    AtSplit(msg, 0, i + f + q + a + n, x);
    AtSplit(msg, 0, i + f + q + a, n);
    AtSplit(msg, 0, i + f + q, a);
    AtSplit(msg, 0, i + f, q);
    AtSplit(msg, 0, i, f);
    PutGet16(msg, 0, m.id as int);
    PutGet16(msg, 2, m.flags as int);
    PutGet16(msg, 4, |m.questions|);
    PutGet16(msg, 6, |m.answers|);
    PutGet16(msg, 8, |m.authorities|);
    PutGet16(msg, 10, |m.additionals|);
    AtEnd(msg, 10, x);
  }

  /** The table of a body is sound in the message, and each section is read back in its place. */
  lemma SectionCarried(msg: Bytes, e: Emission, rrs: seq<ResourceRecord>)
    requires |msg| < 0x1_0000 && e.error == None && ProperSection(rrs)
    requires TableSound(msg, HEADER_SIZE + |e.bytes|, e.table)
    requires EmitSection(e, rrs).error == None
    requires At(msg, HEADER_SIZE, EmitSection(e, rrs).bytes)
    ensures var after := EmitSection(e, rrs);
            && TableSound(msg, HEADER_SIZE + |after.bytes|, after.table)
            && Returns(ReadRecords(msg, HEADER_SIZE + |e.bytes|, |rrs|),
                       Parsed(NormalRecords(rrs), HEADER_SIZE + |after.bytes|), ShortSection(rrs))
  {
    hide At, TableSound, EmitRecords, ReadRecords, ShortSection, ProperSection;
    AtSplit(msg, HEADER_SIZE, e.bytes, EmitRecords(HEADER_SIZE + |e.bytes|, e.table, rrs).bytes);
    RecordsRoundTrip(msg, HEADER_SIZE + |e.bytes|, e.table, rrs);
  }

  /** Each section of m is read back from data where it was written. */
  ghost predicate BodyCarried(data: Bytes, m: Message) {
    var q := EmitQuestions(HEADER_SIZE, map[], m.questions);
    var a := EmitSection(q, m.answers);
    var n := EmitSection(a, m.authorities);
    var x := EmitSection(n, m.additionals);
    && QuestionsCarried(data, HEADER_SIZE, m.questions, q)
    && Returns(ReadRecords(data, HEADER_SIZE + |q.bytes|, |m.answers|),
               Parsed(NormalRecords(m.answers), HEADER_SIZE + |a.bytes|), ShortSection(m.answers))
    && Returns(ReadRecords(data, HEADER_SIZE + |a.bytes|, |m.authorities|),
               Parsed(NormalRecords(m.authorities), HEADER_SIZE + |n.bytes|), ShortSection(m.authorities))
    && Returns(ReadRecords(data, HEADER_SIZE + |n.bytes|, |m.additionals|),
               Parsed(NormalRecords(m.additionals), HEADER_SIZE + |x.bytes|), ShortSection(m.additionals))
    && TableSound(data, HEADER_SIZE + |x.bytes|, x.table)
  }

  lemma BodyRoundTrip(data: Bytes, m: Message)
    requires ProperMessage(m) && |data| < 0x1_0000
    requires EmitBody(m).error == None && At(data, HEADER_SIZE, EmitBody(m).bytes)
    ensures BodyCarried(data, m)
  {
    hide At, TableSound, EmitQuestions, EmitRecords, EmitSection, ReadQuestions, ReadRecords;
    hide ShortSection, ProperSection, NormalQuestions, NormalRecords, Returns;
    var q := EmitQuestions(HEADER_SIZE, map[], m.questions);
    var a := EmitSection(q, m.answers);
    var n := EmitSection(a, m.authorities);
    SectionPrefix(data, n, m.additionals);
    SectionPrefix(data, a, m.authorities);
    SectionPrefix(data, q, m.answers);
    EmptyTableSound(data, HEADER_SIZE);
    QuestionsRoundTrip(data, HEADER_SIZE, map[], m.questions);
    SectionCarried(data, q, m.answers);
    SectionCarried(data, a, m.authorities);
    SectionCarried(data, n, m.additionals);
  }

  /** The reader's sections, one after the other, make the message. */
  lemma SectionsMakeMessage(data: Bytes, m: Message, q: nat, a: nat, n: nat, x: nat)
    requires CountsFit(m) && |data| >= HEADER_SIZE
    requires Get16(data, 0) == m.id && Get16(data, 2) == m.flags
    requires Get16(data, 4) as int == |m.questions| && Get16(data, 6) as int == |m.answers|
    requires Get16(data, 8) as int == |m.authorities| && Get16(data, 10) as int == |m.additionals|
    requires Returns(ReadQuestions(data, HEADER_SIZE, |m.questions|), Parsed(NormalQuestions(m.questions), q),
                     forall i :: 0 <= i < |m.questions| ==> ShortName(m.questions[i].name))
    requires Returns(ReadRecords(data, q, |m.answers|), Parsed(NormalRecords(m.answers), a), ShortSection(m.answers))
    requires Returns(ReadRecords(data, a, |m.authorities|), Parsed(NormalRecords(m.authorities), n), ShortSection(m.authorities))
    requires Returns(ReadRecords(data, n, |m.additionals|), Parsed(NormalRecords(m.additionals), x), ShortSection(m.additionals))
    ensures Returns(Unpack(data), NormalMessage(m), ShortMessage(m))
  {
    hide ReadQuestions, ReadRecords, NormalQuestions, NormalRecords, ShortSection, ShortName, Get16;
  }

  /** Round trip of whole messages: whenever a message with proper names packs, unpacking the
      bytes gives that message normalised; only a name of more than 128 labels can be refused.
      At the end every entry of the compression table leads to its suffix. */
  lemma MessageRoundTrip(m: Message)
    requires ProperMessage(m) && Pack(m).Ok?
    ensures CountsFit(m)
    ensures Returns(Unpack(Pack(m).value), NormalMessage(m), ShortMessage(m))
    ensures TableSound(Pack(m).value, |Pack(m).value|, EmitBody(m).table)
  {
    hide At, TableSound, EmitQuestions, EmitSection, ReadQuestions, ReadRecords, ProperMessage, Unpack, Returns;
    hide ShortSection, ShortMessage, ShortName, Get16, HeaderBytes, NormalMessage, NormalQuestions, NormalRecords;
    var q := EmitQuestions(HEADER_SIZE, map[], m.questions);
    var a := EmitSection(q, m.answers);
    var n := EmitSection(a, m.authorities);
    var body := EmitBody(m).bytes;
    var data := HeaderBytes(m) + body;
    PackSize(m);
    AtWhole(data);
    AtSplit(data, 0, HeaderBytes(m), body);
    HeaderCarried(data, m);
    BodyRoundTrip(data, m);
    SectionsMakeMessage(data, m, HEADER_SIZE + |q.bytes|, HEADER_SIZE + |a.bytes|, HEADER_SIZE + |n.bytes|, HEADER_SIZE + |body|);
  }

  lemma EmptySection(e: Emission)
    ensures EmitSection(e, []) == e
  {
    assert e.bytes + [] == e.bytes;
  }

  lemma AtWhole(msg: Bytes)
    ensures At(msg, 0, msg)
  {
  }

  lemma EmptyTableSound(msg: Bytes, limit: nat)
    ensures TableSound(msg, limit, map[])
  {
  }

  lemma SectionPrefix(msg: Bytes, e: Emission, rrs: seq<ResourceRecord>)
    requires At(msg, HEADER_SIZE, EmitSection(e, rrs).bytes) && EmitSection(e, rrs).error == None
    ensures e.error == None && At(msg, HEADER_SIZE, e.bytes)
  {
    hide At, EmitRecords;
    if e.error == None {
      AtSplit(msg, HEADER_SIZE, e.bytes, EmitRecords(HEADER_SIZE + |e.bytes|, e.table, rrs).bytes);
    }
  }

  // ----- exactly which messages are carried -----

  lemma NormalQuestionsSnoc(qs: seq<Question>)
    requires qs != []
    ensures NormalQuestions(qs) == NormalQuestions(qs[..|qs| - 1]) + [NormalQuestion(qs[|qs| - 1])]
  {
    hide NormalQuestion;
  }

  lemma NormalRecordsSnoc(rrs: seq<ResourceRecord>)
    requires rrs != []
    ensures NormalRecords(rrs) == NormalRecords(rrs[..|rrs| - 1]) + [NormalRecord(rrs[|rrs| - 1])]
  {
    hide NormalRecord;
  }

  lemma LastMatches<T>(a: seq<T>, x: T, b: seq<T>, y: T)
    requires a + [x] == b + [y]
    ensures a == b && x == y
  {
    assert |a| == |b| && (a + [x])[|a|] == x && (b + [y])[|b|] == y;
    assert a == (a + [x])[..|a|] && b == (b + [y])[..|b|];
  }

  predicate ProperQuestions(qs: seq<Question>) {
    forall i :: 0 <= i < |qs| ==> ProperName(qs[i].name)
  }

  /** Questions that come back as they were had no empty label, and left the reader in step. */
  lemma {:induction false} QuestionsWereProper(msg: Bytes, base: nat, table: Table, qs: seq<Question>)
    requires TableSound(msg, base, table) && EmitQuestions(base, table, qs).error == None
    requires At(msg, base, EmitQuestions(base, table, qs).bytes)
    requires ReadQuestions(msg, base, |qs|).Ok? && ReadQuestions(msg, base, |qs|).value.value == NormalQuestions(qs)
    ensures ProperQuestions(qs)
    ensures var e := EmitQuestions(base, table, qs);
            ReadQuestions(msg, base, |qs|).value.next == base + |e.bytes| && TableSound(msg, base + |e.bytes|, e.table)
  {
    hide At, TableSound, EmitQuestion, ReadQuestion, NormalQuestion, NormalQuestions, ProperName, ShortName;
    if qs != [] {
      var front, last := qs[..|qs| - 1], qs[|qs| - 1];
      var before := EmitQuestions(base, table, front);
      var e := EmitQuestion(base + |before.bytes|, before.table, last);
      AtSplit(msg, base, before.bytes, e.bytes);
      NormalQuestionsSnoc(qs);
      var read := ReadQuestions(msg, base, |front|).value;
      LastMatches(read.value, ReadQuestion(msg, read.next).value.value, NormalQuestions(front), NormalQuestion(last));
      QuestionsWereProper(msg, base, table, front);
      if !ProperName(last.name) {
        ImproperQuestionLost(msg, base + |before.bytes|, before.table, last);
      }
      QuestionRoundTrip(msg, base + |before.bytes|, before.table, last);
    }
  }

  lemma {:induction false} RecordsWereProper(msg: Bytes, base: nat, table: Table, rrs: seq<ResourceRecord>)
    requires |msg| < 0x1_0000 && TableSound(msg, base, table) && EmitRecords(base, table, rrs).error == None
    requires At(msg, base, EmitRecords(base, table, rrs).bytes)
    requires ReadRecords(msg, base, |rrs|).Ok? && ReadRecords(msg, base, |rrs|).value.value == NormalRecords(rrs)
    ensures ProperSection(rrs)
    ensures var e := EmitRecords(base, table, rrs);
            ReadRecords(msg, base, |rrs|).value.next == base + |e.bytes| && TableSound(msg, base + |e.bytes|, e.table)
  {
    hide At, TableSound, EmitRecord, ReadRecord, NormalRecord, NormalRecords, ProperRecord, ShortRecord;
    if rrs != [] {
      var front, last := rrs[..|rrs| - 1], rrs[|rrs| - 1];
      var before := EmitRecords(base, table, front);
      var e := EmitRecord(base + |before.bytes|, before.table, last);
      AtSplit(msg, base, before.bytes, e.bytes);
      NormalRecordsSnoc(rrs);
      var read := ReadRecords(msg, base, |front|).value;
      LastMatches(read.value, ReadRecord(msg, read.next).value.value, NormalRecords(front), NormalRecord(last));
      RecordsWereProper(msg, base, table, front);
      if !ProperRecord(last) {
        ImproperRecordLost(msg, base + |before.bytes|, before.table, last);
      }
      RecordRoundTrip(msg, base + |before.bytes|, before.table, last);
    }
  }

  lemma SectionWasProper(msg: Bytes, e: Emission, rrs: seq<ResourceRecord>)
    requires |msg| < 0x1_0000 && e.error == None && TableSound(msg, HEADER_SIZE + |e.bytes|, e.table)
    requires EmitSection(e, rrs).error == None && At(msg, HEADER_SIZE, EmitSection(e, rrs).bytes)
    requires var r := ReadRecords(msg, HEADER_SIZE + |e.bytes|, |rrs|); r.Ok? && r.value.value == NormalRecords(rrs)
    ensures ProperSection(rrs)
    ensures var after := EmitSection(e, rrs);
            && ReadRecords(msg, HEADER_SIZE + |e.bytes|, |rrs|).value.next == HEADER_SIZE + |after.bytes|
            && TableSound(msg, HEADER_SIZE + |after.bytes|, after.table)
  {
    hide At, TableSound, EmitRecords, ReadRecords, NormalRecords, ProperSection;
    AtSplit(msg, HEADER_SIZE, e.bytes, EmitRecords(HEADER_SIZE + |e.bytes|, e.table, rrs).bytes);
    RecordsWereProper(msg, HEADER_SIZE + |e.bytes|, e.table, rrs);
  }

  /** A packed message that comes back as its normal form had no empty label in any name. */
  lemma MessageWasProper(m: Message)
    requires Pack(m).Ok? && CountsFit(m) && Unpack(Pack(m).value) == Ok(NormalMessage(m))
    ensures ProperMessage(m)
  {
    hide At, TableSound, EmitQuestions, EmitSection, ReadQuestions, ReadRecords, ProperSection;
    hide Get16, HeaderBytes, NormalQuestions, NormalRecords;
    var q := EmitQuestions(HEADER_SIZE, map[], m.questions);
    var a := EmitSection(q, m.answers);
    var n := EmitSection(a, m.authorities);
    var data := HeaderBytes(m) + EmitBody(m).bytes;
    PackSize(m);
    AtWhole(data);
    AtSplit(data, 0, HeaderBytes(m), EmitBody(m).bytes);
    HeaderCarried(data, m);
    SectionPrefix(data, n, m.additionals);
    SectionPrefix(data, a, m.authorities);
    SectionPrefix(data, q, m.answers);
    EmptyTableSound(data, HEADER_SIZE);
    QuestionsWereProper(data, HEADER_SIZE, map[], m.questions);
    SectionWasProper(data, q, m.answers);
    SectionWasProper(data, a, m.authorities);
    SectionWasProper(data, n, m.additionals);
  }

  /** Exactly: of the messages that pack and whose names have at most 128 labels, those come back as
      their normal form whose names have no empty label. */
  lemma MessageRoundTripIff(m: Message)
    requires Pack(m).Ok? && ShortMessage(m)
    ensures CountsFit(m)
    ensures Unpack(Pack(m).value) == Ok(NormalMessage(m)) <==> ProperMessage(m)
  {
    hide Pack, Unpack, ProperMessage, ShortMessage, NormalMessage;
    PackSize(m);
    if ProperMessage(m) {
      MessageRoundTrip(m);
    } else if Unpack(Pack(m).value) == Ok(NormalMessage(m)) {
      MessageWasProper(m);
    }
  }

  // ----- messages that always pack -----

  function SumOfRecords(rrs: seq<ResourceRecord>): nat {
    if rrs == [] then 0 else SumOfRecords(rrs[..|rrs| - 1]) + RecordSize(rrs[|rrs| - 1])
  }

  lemma SumOfRecordsSnoc(rrs: seq<ResourceRecord>, last: ResourceRecord)
    ensures SumOfRecords(rrs + [last]) == SumOfRecords(rrs) + RecordSize(last)
  {
    hide RecordSize;
    assert (rrs + [last])[..|rrs|] == rrs;
  }

  function SumOfQuestions(qs: seq<Question>): nat {
    if qs == [] then 0 else SumOfQuestions(qs[..|qs| - 1]) + (NameSize(qs[|qs| - 1].name) + 4)
  }

  predicate AllEmittable(rrs: seq<ResourceRecord>) {
    forall i :: 0 <= i < |rrs| ==> Emittable(rrs[i])
  }

  predicate NamesFit(qs: seq<Question>) {
    forall i :: 0 <= i < |qs| ==> NameFits(qs[i].name)
  }

  lemma {:induction false} QuestionsBound(base: nat, table: Table, qs: seq<Question>)
    requires NamesFit(qs) && Pointable(table)
    ensures var e := EmitQuestions(base, table, qs);
            e.error == None && Pointable(e.table) && |e.bytes| <= SumOfQuestions(qs)
  {
    hide EmitQuestion, Pointable, NameSize, NameFits;
    if qs != [] {
      var before := EmitQuestions(base, table, qs[..|qs| - 1]);
      QuestionsBound(base, table, qs[..|qs| - 1]);
      QuestionSizeBound(base + |before.bytes|, before.table, qs[|qs| - 1]);
    }
  }

  lemma {:induction false} RecordsBound(base: nat, table: Table, rrs: seq<ResourceRecord>)
    requires AllEmittable(rrs) && Pointable(table)
    ensures var e := EmitRecords(base, table, rrs);
            e.error == None && Pointable(e.table) && |e.bytes| <= SumOfRecords(rrs)
  {
    hide EmitRecord, Pointable, RecordSize, Emittable;
    if rrs != [] {
      var before := EmitRecords(base, table, rrs[..|rrs| - 1]);
      RecordsBound(base, table, rrs[..|rrs| - 1]);
      RecordSizeBound(base + |before.bytes|, before.table, rrs[|rrs| - 1]);
    }
  }

  /** A message packs if its labels, addresses and strings have a form on the wire and it would fit
      in 9000 octets without any compression. */
  lemma PackSucceeds(m: Message)
    requires NamesFit(m.questions) && AllEmittable(m.answers) && AllEmittable(m.authorities) && AllEmittable(m.additionals)
    requires HEADER_SIZE + SumOfQuestions(m.questions) + SumOfRecords(m.answers) + SumOfRecords(m.authorities)
             + SumOfRecords(m.additionals) <= MAX_MESSAGE
    ensures Pack(m).Ok?
  {
    hide EmitQuestions, EmitRecords, SumOfQuestions, SumOfRecords, Pointable, NamesFit, AllEmittable, HeaderBytes;
    var q := EmitQuestions(HEADER_SIZE, map[], m.questions);
    var a := EmitSection(q, m.answers);
    var n := EmitSection(a, m.authorities);
    NothingPointable();
    QuestionsBound(HEADER_SIZE, map[], m.questions);
    RecordsBound(HEADER_SIZE + |q.bytes|, q.table, m.answers);
    RecordsBound(HEADER_SIZE + |a.bytes|, a.table, m.authorities);
    RecordsBound(HEADER_SIZE + |n.bytes|, n.table, m.additionals);
  }
}
