/** Queries whose known answers do not fit in one packet (section 7.2 of RFC 6762): sendQuery and
    sendQueryMultipacket of browser.go. */
module Multipacket {
  import opened Octets
  import opened Names
  import opened Records
  import opened Messages
  import opened Codec

  const TRUNCATION: U16 := 0x0200
  const MAX_PER_PACKET := 20
  const PTR_TTL: U32 := 75

  /** msg.IsTruncated */
  predicate Truncated(m: Message) {
    m.flags as int / 0x200 % 2 == 1
  }

  function Count(n: nat): U16 {
    (n % 0x1_0000) as U16
  }

  function Query(q: Question, answers: seq<ResourceRecord>, flags: U16): Message {
    Message(0, flags, 1, Count(|answers|), 0, 0, [q], answers, [], [])
  }

  function Continuation(answers: seq<ResourceRecord>, flags: U16): Message {
    Message(0, flags, 0, Count(|answers|), 0, 0, [], answers, [], [])
  }

  predicate Fitting(q: Question, known: seq<ResourceRecord>, i: nat)
    requires i <= |known|
  {
    Pack(Query(q, known[..i], TRUNCATION)).Ok?
  }

  /** The most known answers that fit in one packet with the question, none if not even one does. */
  function MaxFit(q: Question, known: seq<ResourceRecord>, upTo: nat): (m: nat)
    requires upTo <= |known|
    ensures m <= upTo
  {
    if upTo == 0 then 0 else if Fitting(q, known, upTo) then upTo else MaxFit(q, known, upTo - 1)
  }

  function Chunks(rest: seq<ResourceRecord>): seq<Message> {
    if rest == [] then []
    else if |rest| <= MAX_PER_PACKET then [Continuation(rest, 0)]
    else [Continuation(rest[..MAX_PER_PACKET], TRUNCATION)] + Chunks(rest[MAX_PER_PACKET..])
  }

  function Split(q: Question, known: seq<ResourceRecord>): seq<Message> {
    var m := MaxFit(q, known, |known|);
    [Query(q, known[..m], TRUNCATION)] + Chunks(known[m..])
  }

  function KnownAnswer(serviceType: Bytes, instance: Bytes): ResourceRecord {
    Blank(serviceType, TYPE_PTR, CLASS_IN, PTR_TTL, false).(target := instance + [DOT] + serviceType)
  }

  function KnownAnswers(serviceType: Bytes, instances: seq<Bytes>): seq<ResourceRecord> {
    seq(|instances|, i requires 0 <= i < |instances| => KnownAnswer(serviceType, instances[i]))
  }

  /** The packets of one query, in the order in which they are sent. */
  function Packets(serviceType: Bytes, instances: seq<Bytes>): seq<Message> {
    var q := Question(serviceType, TYPE_PTR, CLASS_IN);
    var known := KnownAnswers(serviceType, instances);
    if Pack(Query(q, known, 0)).Ok? then [Query(q, known, 0)] else Split(q, known)
  }

  /** What goes out: a packet that does not pack is left out. */
  function Packed(ms: seq<Message>): seq<Bytes> {
    if ms == [] then []
    else
      var before := Packed(ms[..|ms| - 1]);
      if Pack(ms[|ms| - 1]).Ok? then before + [Pack(ms[|ms| - 1]).value] else before
  }

  // ----- the scan for the largest fitting prefix -----

  lemma QueryBody(q: Question, answers: seq<ResourceRecord>, flags: U16)
    ensures EmitBody(Query(q, answers, flags)) == EmitSection(EmitQuestions(HEADER_SIZE, map[], [q]), answers)
  {
    hide EmitQuestions, EmitSection;
    EmptySection(EmitSection(EmitQuestions(HEADER_SIZE, map[], [q]), answers));
  }

  /** Whether a query packs does not depend on its flags. */
  lemma FlagsDoNotMatter(q: Question, answers: seq<ResourceRecord>, a: U16, b: U16)
    ensures Pack(Query(q, answers, a)).Ok? <==> Pack(Query(q, answers, b)).Ok?
  {
    hide EmitBody, HeaderBytes;
    QueryBody(q, answers, a);
    QueryBody(q, answers, b);
  }

  lemma FitsBefore(q: Question, known: seq<ResourceRecord>, i: nat)
    requires i < |known| && Fitting(q, known, i + 1)
    ensures Fitting(q, known, i)
  {
    hide EmitQuestions, EmitRecord, HeaderBytes, EmitBody;
    QueryBody(q, known[..i], TRUNCATION);
    QueryBody(q, known[..i + 1], TRUNCATION);
    assert known[..i + 1][..i] == known[..i];
  }

  lemma {:induction false} FitsAllBefore(q: Question, known: seq<ResourceRecord>, i: nat, j: nat)
    requires i <= j <= |known| && Fitting(q, known, j)
    ensures Fitting(q, known, i)
    decreases j - i
  {
    hide Fitting;
    if i < j {
      FitsBefore(q, known, j - 1);
      FitsAllBefore(q, known, i, j - 1);
    }
  }

  lemma {:induction false} MaxFitMeans(q: Question, known: seq<ResourceRecord>, upTo: nat)
    requires upTo <= |known|
    ensures var m := MaxFit(q, known, upTo);
            (m > 0 ==> Fitting(q, known, m)) && forall i :: m < i <= upTo ==> !Fitting(q, known, i)
    decreases upTo
  {
    hide Fitting;
    if upTo > 0 && !Fitting(q, known, upTo) {
      MaxFitMeans(q, known, upTo - 1);
    }
  }

  lemma MaxFitIs(q: Question, known: seq<ResourceRecord>, m: nat)
    requires m <= |known| && (m > 0 ==> Fitting(q, known, m))
    requires m < |known| ==> !Fitting(q, known, m + 1)
    ensures MaxFit(q, known, |known|) == m
  {
    hide Fitting, MaxFit;
    var most := MaxFit(q, known, |known|);
    MaxFitMeans(q, known, |known|);
    if m < most {
      FitsAllBefore(q, known, m + 1, most);
    }
  }

  /** The code stops its upward scan at the first prefix that does not fit; that is the largest
      prefix that fits, because every shorter one fits too. */
  method LargestFit(q: Question, known: seq<ResourceRecord>) returns (maxFit: nat)
    ensures maxFit == MaxFit(q, known, |known|)
  {
    hide Pack, MaxFit;
    maxFit := 0;
    var i := 1;
    while i <= |known|
      invariant i == maxFit + 1 <= |known| + 1
      invariant maxFit > 0 ==> Fitting(q, known, maxFit)
    {
      var test := PackMessage(Query(q, known[..i], TRUNCATION));
      if test.Err? {
        break;
      }
      maxFit := i;
      i := i + 1;
    }
    MaxFitIs(q, known, maxFit);
  }

  lemma PackedSnoc(ms: seq<Message>, m: Message)
    ensures Packed(ms + [m]) == if Pack(m).Ok? then Packed(ms) + [Pack(m).value] else Packed(ms)
  {
    assert (ms + [m])[..|ms|] == ms;
  }

  /** The continuation packets from the i-th remaining record on. */
  function ChunksFrom(rest: seq<ResourceRecord>, i: nat): seq<Message> {
    if i < |rest| then Chunks(rest[i..]) else []
  }

  lemma ChunkStep(rest: seq<ResourceRecord>, i: nat)
    requires i < |rest|
    ensures i + MAX_PER_PACKET >= |rest| ==> ChunksFrom(rest, i) == [Continuation(rest[i..|rest|], 0)]
    ensures i + MAX_PER_PACKET < |rest| ==>
              ChunksFrom(rest, i) == [Continuation(rest[i..i + MAX_PER_PACKET], TRUNCATION)] + ChunksFrom(rest, i + MAX_PER_PACKET)
  {
    if i + MAX_PER_PACKET >= |rest| {
      assert rest[i..|rest|] == rest[i..];
    } else {
      assert rest[i..][..MAX_PER_PACKET] == rest[i..i + MAX_PER_PACKET];
      assert rest[i..][MAX_PER_PACKET..] == rest[i + MAX_PER_PACKET..];
    }
  }

  lemma ChunksEnds(rest: seq<ResourceRecord>, done: seq<Message>)
    ensures ChunksFrom(rest, 0) == Chunks(rest)
    ensures forall i: nat :: i >= |rest| ==> ChunksFrom(rest, i) == []
    ensures done + [] == done
  {
    if rest != [] {
      assert rest[0..] == rest;
    }
  }

  method SendQueryMultipacket(q: Question, known: seq<ResourceRecord>) returns (sent: seq<Bytes>)
    ensures sent == Packed(Split(q, known))
  {
    hide Pack, Chunks, Packed, MaxFit, ChunksFrom;
    var maxFit := LargestFit(q, known);
    PackedNone();
    sent := [];
    ghost var done := [];
    var first := Query(q, if maxFit == 0 then [] else known[..maxFit], TRUNCATION);
    PackedSnoc([], first);
    assert [] + [first] == [first];
    var data := PackMessage(first);
    if data.Ok? {
      sent := [data.value];
    }
    done := [first];
    var remaining := known[maxFit..];
    ChunksEnds(remaining, done);
    var i := 0;
    while i < |remaining|
      invariant 0 <= i
      invariant sent == Packed(done)
      invariant Split(q, known) == done + ChunksFrom(remaining, i)
    {
      ChunkStep(remaining, i);
      var end := i + MAX_PER_PACKET;
      if end > |remaining| {
        end := |remaining|;
      }
      var isLast := end >= |remaining|;
      var flags := 0;
      if !isLast {
        flags := TRUNCATION;
      }
      var continuation := Continuation(remaining[i..end], flags);
      data := PackMessage(continuation);
      PackedSnoc(done, continuation);
      ChunksEnds(remaining, done + [continuation]);
      ghost var rest := ChunksFrom(remaining, i + MAX_PER_PACKET);
      assert done + ([continuation] + rest) == done + [continuation] + rest;
      if data.Ok? {
        sent := sent + [data.value];
      }
      done := done + [continuation];
      i := i + MAX_PER_PACKET;
    }
    ChunksEnds(remaining, done);
  }

  lemma PackedNone()
    ensures Packed([]) == [] && Chunks([]) == []
  {
  }

  /** sendQuery: the data it writes, for the instances in the order in which the map gives them. */
  method SendQuery(serviceType: Bytes, instances: seq<Bytes>) returns (sent: seq<Bytes>)
    ensures sent == Packed(Packets(serviceType, instances))
  {
    hide Pack, Packed, Split;
    var q := Question(serviceType, TYPE_PTR, CLASS_IN);
    var known: seq<ResourceRecord> := [];
    for i := 0 to |instances|
      invariant known == KnownAnswers(serviceType, instances[..i])
    {
      known := known + [KnownAnswer(serviceType, instances[i])];
    }
    assert instances[..|instances|] == instances;
    var data := PackMessage(Query(q, known, 0));
    if data.Err? {
      sent := SendQueryMultipacket(q, known);
      return;
    }
    PackedNone();
    PackedSnoc([], Query(q, known, 0));
    assert [] + [Query(q, known, 0)] == [Query(q, known, 0)];
    return [data.value];
  }

  // ----- nothing is lost -----

  function AnswersOf(ms: seq<Message>): seq<ResourceRecord> {
    if ms == [] then [] else AnswersOf(ms[..|ms| - 1]) + ms[|ms| - 1].answers
  }

  lemma {:induction false} AnswersAppend(a: seq<Message>, b: seq<Message>)
    ensures AnswersOf(a + b) == AnswersOf(a) + AnswersOf(b)
  {
    if b == [] {
      assert a + b == a;
    } else {
      assert (a + b)[..|a + b| - 1] == a + b[..|b| - 1];
      AnswersAppend(a, b[..|b| - 1]);
    }
  }

  lemma AnswersOfOne(m: Message)
    ensures AnswersOf([m]) == m.answers
  {
    assert [m][..0] == [] && AnswersOf([]) == [];
  }

  /** All packets but the last announce that more follow. */
  predicate MoreFollow(ms: seq<Message>) {
    forall k :: 0 <= k < |ms| ==> (Truncated(ms[k]) <==> k < |ms| - 1)
  }

  predicate NoQuestions(ms: seq<Message>) {
    forall k :: 0 <= k < |ms| ==> ms[k].questions == []
  }

  lemma {:induction false} ChunksCarry(rest: seq<ResourceRecord>)
    ensures AnswersOf(Chunks(rest)) == rest && MoreFollow(Chunks(rest)) && NoQuestions(Chunks(rest))
    ensures rest != [] ==> Chunks(rest) != []
    ensures forall k :: 0 <= k < |Chunks(rest)| ==> |Chunks(rest)[k].answers| <= MAX_PER_PACKET
  {
    if 0 < |rest| <= MAX_PER_PACKET {
      AnswersOfOne(Continuation(rest, 0));
    } else if rest != [] {
      var first := Continuation(rest[..MAX_PER_PACKET], TRUNCATION);
      ChunksCarry(rest[MAX_PER_PACKET..]);
      AnswersAppend([first], Chunks(rest[MAX_PER_PACKET..]));
      AnswersOfOne(first);
      assert rest == rest[..MAX_PER_PACKET] + rest[MAX_PER_PACKET..];
    }
  }

  /** However a query is split, its packets carry exactly the known answers, in order; the question
      is in the first alone; and, unless there is nothing to carry, all but the last are marked
      truncated. */
  lemma PacketsCarry(serviceType: Bytes, instances: seq<Bytes>)
    ensures var ms := Packets(serviceType, instances);
            && AnswersOf(ms) == KnownAnswers(serviceType, instances)
            && ms != [] && ms[0].questions == [Question(serviceType, TYPE_PTR, CLASS_IN)] && NoQuestions(ms[1..])
            && (instances != [] ==> MoreFollow(ms))
  {
    hide Pack, Chunks, MaxFit;
    var q := Question(serviceType, TYPE_PTR, CLASS_IN);
    var known := KnownAnswers(serviceType, instances);
    if Pack(Query(q, known, 0)).Ok? {
      AnswersOfOne(Query(q, known, 0));
    } else {
      var m := MaxFit(q, known, |known|);
      var first := Query(q, known[..m], TRUNCATION);
      ChunksCarry(known[m..]);
      AnswersAppend([first], Chunks(known[m..]));
      AnswersOfOne(first);
      assert known[..m] + known[m..] == known;
      FlagsDoNotMatter(q, known, 0, TRUNCATION);
      MaxFitMeans(q, known, |known|);
      assert known[..|known|] == known;
      assert m == |known| ==> m == 0;
    }
  }

  // ----- every packet fits -----

  predicate PointsFrom(serviceType: Bytes, rr: ResourceRecord) {
    rr.rtype == TYPE_PTR && rr.name == serviceType && Sendable(rr.name) && Sendable(rr.target)
  }

  predicate AllPointFrom(serviceType: Bytes, rrs: seq<ResourceRecord>) {
    forall i :: 0 <= i < |rrs| ==> PointsFrom(serviceType, rrs[i])
  }

  const ANSWER_SIZE := 2 + 10 + NAME_LIMIT + 1

  lemma AnswerSize(base: nat, table: Table, serviceType: Bytes, rr: ResourceRecord)
    requires PointsFrom(serviceType, rr) && Pointable(table)
    ensures var e := EmitRecord(base, table, rr);
            && e.error == None && Pointable(e.table)
            && (base <= MAX_OFFSET || Noticed(table, serviceType) ==> Noticed(e.table, serviceType))
            && |e.bytes| <= ANSWER_SIZE + (if Noticed(table, serviceType) then 0 else NAME_LIMIT - 1)
  {
    hide EmitName, NormalizeName, NameFits, Pointable;
    var n := EmitName(base, table, rr.name);
    EmitNameNotes(base, table, rr.name);
    EmitNameNotes(base + |n.bytes| + 10, n.table, rr.target);
  }

  /** The owner name is spelled out in the first record only. */
  lemma {:induction false} AnswersSize(base: nat, table: Table, serviceType: Bytes, rrs: seq<ResourceRecord>)
    requires AllPointFrom(serviceType, rrs) && Pointable(table) && base <= MAX_OFFSET
    ensures var e := EmitRecords(base, table, rrs);
            && e.error == None && Pointable(e.table)
            && (rrs != [] ==> Noticed(e.table, serviceType))
            && (rrs == [] ==> e.bytes == [])
            && |e.bytes| <= NAME_LIMIT - 1 + ANSWER_SIZE * |rrs|
  {
    hide EmitRecord, PointsFrom, Pointable, Noticed;
    if rrs == [] {
      EmptyPointable(table);
    } else {
      var front := rrs[..|rrs| - 1];
      var before := EmitRecords(base, table, front);
      AnswersSize(base, table, serviceType, front);
      AnswerSize(base + |before.bytes|, before.table, serviceType, rrs[|rrs| - 1]);
    }
  }

  lemma EmptyPointable(table: Table)
    requires Pointable(table)
    ensures EmitRecords(0, table, []).error == None && Pointable(map[])
  {
  }

  /** A continuation of at most 20 known answers packs, whatever names of 255 octets it holds. */
  lemma ContinuationFits(serviceType: Bytes, rrs: seq<ResourceRecord>, flags: U16)
    requires AllPointFrom(serviceType, rrs) && |rrs| <= MAX_PER_PACKET
    ensures Pack(Continuation(rrs, flags)).Ok?
  {
    hide EmitRecords, HeaderBytes, AllPointFrom;
    var q := EmitQuestions(HEADER_SIZE, map[], []);
    AnswersSize(HEADER_SIZE, map[], serviceType, rrs);
    EmptySection(EmitSection(q, rrs));
  }

  lemma QuestionFits(q: Question, flags: U16)
    requires Sendable(q.name)
    ensures Pack(Query(q, [], flags)).Ok?
  {
    hide EmitName, HeaderBytes, NormalizeName, NameFits, EmitBody;
    QueryBody(q, [], flags);
    EmptySection(EmitQuestions(HEADER_SIZE, map[], [q]));
    EmitNameNotes(HEADER_SIZE, map[], q.name);
    assert [q][..0] == [] && EmitQuestions(HEADER_SIZE, map[], []) == Emission([], map[], None);
  }

  predicate AllPack(ms: seq<Message>) {
    forall k :: 0 <= k < |ms| ==> Pack(ms[k]).Ok?
  }

  lemma {:induction false} ChunksFit(serviceType: Bytes, rest: seq<ResourceRecord>)
    requires AllPointFrom(serviceType, rest)
    ensures AllPack(Chunks(rest))
  {
    hide Pack, PointsFrom;
    if 0 < |rest| <= MAX_PER_PACKET {
      ContinuationFits(serviceType, rest, 0);
    } else if rest != [] {
      ContinuationFits(serviceType, rest[..MAX_PER_PACKET], TRUNCATION);
      ChunksFit(serviceType, rest[MAX_PER_PACKET..]);
    }
  }

  predicate AllSendable(serviceType: Bytes, instances: seq<Bytes>) {
    Sendable(serviceType)
    && forall i :: 0 <= i < |instances| ==> Sendable(instances[i] + [DOT] + serviceType)
  }

  lemma PacketsFit(serviceType: Bytes, instances: seq<Bytes>)
    requires AllSendable(serviceType, instances)
    ensures AllPack(Packets(serviceType, instances))
  {
    hide Pack, MaxFit, Chunks, Sendable;
    var q := Question(serviceType, TYPE_PTR, CLASS_IN);
    var known := KnownAnswers(serviceType, instances);
    if Pack(Query(q, known, 0)).Err? {
      var m := MaxFit(q, known, |known|);
      MaxFitMeans(q, known, |known|);
      QuestionFits(q, TRUNCATION);
      assert known[..0] == [];
      ChunksFit(serviceType, known[m..]);
    }
  }

  // ----- what arrives -----

  /** The answers that a receiver takes from the packets, one after the other. */
  function Received(sent: seq<Bytes>): seq<ResourceRecord> {
    if sent == [] then []
    else
      var r := Unpack(sent[|sent| - 1]);
      if r.Ok? then Received(sent[..|sent| - 1]) + r.value.answers else Received(sent[..|sent| - 1])
  }

  predicate Readable(ms: seq<Message>) {
    forall k :: 0 <= k < |ms| ==> ProperMessage(ms[k]) && ShortMessage(ms[k])
  }

  lemma NormalAppend(a: seq<ResourceRecord>, b: seq<ResourceRecord>)
    ensures NormalRecords(a + b) == NormalRecords(a) + NormalRecords(b) && NormalRecords([]) == []
  {
  }

  lemma OneReceived(m: Message)
    requires Pack(m).Ok? && ProperMessage(m) && ShortMessage(m)
    ensures Unpack(Pack(m).value).Ok? && Unpack(Pack(m).value).value.answers == NormalRecords(m.answers)
  {
    hide Pack, Unpack, ProperMessage, ShortMessage;
    MessageRoundTrip(m);
  }

  lemma AnswersSnoc(ms: seq<Message>, last: Message)
    ensures AnswersOf(ms + [last]) == AnswersOf(ms) + last.answers
  {
    assert (ms + [last])[..|ms|] == ms;
  }

  lemma ReceivedSnoc(sent: seq<Bytes>, last: Bytes)
    requires Unpack(last).Ok?
    ensures Received(sent + [last]) == Received(sent) + Unpack(last).value.answers
  {
    hide Unpack;
    assert (sent + [last])[..|sent|] == sent;
  }

  lemma NothingReceived()
    ensures Packed([]) == [] && Received([]) == [] && AnswersOf([]) == []
  {
  }

  lemma {:induction false} ReceivedIsSent(ms: seq<Message>)
    requires AllPack(ms) && Readable(ms)
    ensures |Packed(ms)| == |ms|
    ensures forall k :: 0 <= k < |ms| ==> Packed(ms)[k] == Pack(ms[k]).value
    ensures Received(Packed(ms)) == NormalRecords(AnswersOf(ms))
  {
    hide Pack, Unpack, ProperMessage, ShortMessage, NormalRecords, Packed, Received, AnswersOf;
    if ms == [] {
      NothingReceived();
      NormalAppend([], []);
    } else {
      var front, last := ms[..|ms| - 1], ms[|ms| - 1];
      ReceivedIsSent(front);
      assert front + [last] == ms;
      OneReceived(last);
      PackedSnoc(front, last);
      ReceivedSnoc(Packed(front), Pack(last).value);
      AnswersSnoc(front, last);
      NormalAppend(AnswersOf(front), last.answers);
    }
  }

  predicate ReadableAnswers(rrs: seq<ResourceRecord>) {
    ProperSection(rrs) && ShortSection(rrs)
  }

  lemma {:induction false} ChunksReadable(rest: seq<ResourceRecord>)
    requires ReadableAnswers(rest)
    ensures Readable(Chunks(rest))
  {
    hide ProperRecord, ShortRecord;
    if |rest| > MAX_PER_PACKET {
      ChunksReadable(rest[MAX_PER_PACKET..]);
    }
  }

  predicate AllProper(serviceType: Bytes, instances: seq<Bytes>) {
    ProperName(serviceType)
    && forall i :: 0 <= i < |instances| ==> ProperName(instances[i] + [DOT] + serviceType)
  }

  lemma KnownReadable(serviceType: Bytes, instances: seq<Bytes>)
    requires AllSendable(serviceType, instances) && AllProper(serviceType, instances)
    ensures ReadableAnswers(KnownAnswers(serviceType, instances)) && ShortName(serviceType)
  {
    hide ProperName, ShortName, NormalizeName, NameFits;
    ShortEnough(serviceType);
    forall i | 0 <= i < |instances|
      ensures ShortName(instances[i] + [DOT] + serviceType)
    {
      ShortEnough(instances[i] + [DOT] + serviceType);
    }
  }

  lemma PacketsReadable(serviceType: Bytes, instances: seq<Bytes>)
    requires AllSendable(serviceType, instances) && AllProper(serviceType, instances)
    ensures Readable(Packets(serviceType, instances))
  {
    hide ProperName, ShortName, Sendable, Pack, MaxFit, Chunks, ProperRecord, ShortRecord;
    var q := Question(serviceType, TYPE_PTR, CLASS_IN);
    var known := KnownAnswers(serviceType, instances);
    KnownReadable(serviceType, instances);
    ChunksReadable(known[MaxFit(q, known, |known|)..]);
  }

  /** Nothing is lost: with proper names of at most 255 octets every packet of a query fits and is
      sent, and the answers its receivers read, put together, are exactly the known answers. */
  lemma KnownAnswersArrive(serviceType: Bytes, instances: seq<Bytes>)
    requires AllSendable(serviceType, instances) && AllProper(serviceType, instances)
    ensures var ms, sent := Packets(serviceType, instances), Packed(Packets(serviceType, instances));
            && |sent| == |ms|
            && (forall k :: 0 <= k < |sent| ==> Pack(ms[k]) == Ok(sent[k]))
            && Received(sent) == NormalRecords(KnownAnswers(serviceType, instances))
  {
    hide Packets, Packed, Pack, Unpack, AllSendable, AllProper, NormalRecords, KnownAnswers, Readable;
    PacketsCarry(serviceType, instances);
    PacketsFit(serviceType, instances);
    PacketsReadable(serviceType, instances);
    ReceivedIsSent(Packets(serviceType, instances));
  }

  /** Every continuation but the last holds 20 answers, and the last at least one. */
  lemma {:induction false} ContinuationsFull(rest: seq<ResourceRecord>, k: nat)
    requires k < |Chunks(rest)|
    ensures if k < |Chunks(rest)| - 1 then |Chunks(rest)[k].answers| == 20 else 1 <= |Chunks(rest)[k].answers| <= 20
    decreases |rest|
  {
    if |rest| > MAX_PER_PACKET && k > 0 {
      ContinuationsFull(rest[MAX_PER_PACKET..], k - 1);
    } else if |rest| > MAX_PER_PACKET {
      ChunksCarry(rest[MAX_PER_PACKET..]);
    }
  }
}
