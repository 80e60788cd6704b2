/** Known-answer suppression (section 7.1 of RFC 6762), from the browser's query to the responder's
    answer: matchesQuestion, inKnownAnswers and the loop over a service's records in handleQuery, all
    of server.go, and sendQuery of browser.go. */
module Suppression {
  import opened Octets
  import opened Names
  import opened Records
  import opened Messages
  import opened Tiebreak
  import opened Services
  import opened Multipacket
  import opened Folding
  import opened Discovery

  const CLASS_ANY: U16 := 255

  predicate MatchesQuestion(rr: ResourceRecord, q: Question) {
    var qclass := q.qclass % CACHE_FLUSH;
    if q.qtype == TYPE_ANY then LowerName(rr.name) == LowerName(NormalizeName(q.name))
    else
      && rr.rtype == q.qtype && LowerName(rr.name) == LowerName(NormalizeName(q.name))
      && (qclass == CLASS_ANY || rr.rclass == CLASS_ANY || rr.rclass == qclass)
  }

  /** The querier has the record already, with at least half of the TTL that it would be sent with. */
  predicate Known(rr: ResourceRecord, known: seq<ResourceRecord>) {
    exists k :: 0 <= k < |known| && RecordsEqual(rr, known[k]) && known[k].ttl >= rr.ttl / 2
  }

  predicate Answers(rr: ResourceRecord, q: Question, known: seq<ResourceRecord>) {
    MatchesQuestion(rr, q) && !Known(rr, known)
  }

  /** The records that answer one question, in order. */
  function AnswersTo(records: seq<ResourceRecord>, q: Question, known: seq<ResourceRecord>): seq<ResourceRecord> {
    if records == [] then []
    else
      var before, last := AnswersTo(records[..|records| - 1], q, known), records[|records| - 1];
      if Answers(last, q, known) then before + [last] else before
  }

  function AnswersToAll(records: seq<ResourceRecord>, qs: seq<Question>, known: seq<ResourceRecord>): seq<ResourceRecord> {
    if qs == [] then []
    else AnswersToAll(records, qs[..|qs| - 1], known) + AnswersTo(records, qs[|qs| - 1], known)
  }

  method InKnownAnswers(rr: ResourceRecord, known: seq<ResourceRecord>) returns (b: bool)
    ensures b == Known(rr, known)
  {
    hide RecordsEqual;
    for k := 0 to |known|
      invariant forall j :: 0 <= j < k ==> !(RecordsEqual(rr, known[j]) && known[j].ttl >= rr.ttl / 2)
    {
      if RecordsEqual(rr, known[k]) {
        if known[k].ttl >= rr.ttl / 2 {
          return true;
        }
      }
    }
    return false;
  }

  predicate HasUnique(list: seq<ResourceRecord>) {
    exists rr :: rr in list && rr.cacheFlush
  }

  lemma UniqueLast(list: seq<ResourceRecord>, last: ResourceRecord)
    ensures HasUnique(list + [last]) <==> HasUnique(list) || last.cacheFlush
    ensures !HasUnique([])
  {
    assert last in list + [last];
    assert forall rr :: rr in list ==> rr in list + [last];
  }

  /** What an announced service with these records answers to one message, and whether it must answer
      at once. */
  method AnswerQuery(records: seq<ResourceRecord>, m: Message) returns (answers: seq<ResourceRecord>, hasUnique: bool)
    ensures answers == AnswersToAll(records, m.questions, m.answers)
    ensures hasUnique <==> HasUnique(answers)
  {
    hide Known, MatchesQuestion, HasUnique;
    UniqueLast([], Blank([], 0, 0, 0, false));
    answers, hasUnique := [], false;
    for n := 0 to |m.questions|
      invariant answers == AnswersToAll(records, m.questions[..n], m.answers)
      invariant hasUnique <==> HasUnique(answers)
    {
      var q := m.questions[n];
      assert m.questions[..n + 1][..n] == m.questions[..n];
      ghost var before := answers;
      for k := 0 to |records|
        invariant answers == before + AnswersTo(records[..k], q, m.answers)
        invariant hasUnique <==> HasUnique(answers)
      {
        assert records[..k + 1][..k] == records[..k];
        var known := InKnownAnswers(records[k], m.answers);
        if MatchesQuestion(records[k], q) && !known {
          UniqueLast(answers, records[k]);
          answers := answers + [records[k]];
          hasUnique := hasUnique || records[k].cacheFlush;
        }
      }
      assert records[..|records|] == records;
    }
    assert m.questions[..|m.questions|] == m.questions;
  }

  // ----- what is answered -----

  predicate Asked(rr: ResourceRecord, qs: seq<Question>) {
    exists n :: 0 <= n < |qs| && MatchesQuestion(rr, qs[n])
  }

  lemma {:induction false} AnswersToMeans(records: seq<ResourceRecord>, q: Question, known: seq<ResourceRecord>, rr: ResourceRecord)
    ensures rr in AnswersTo(records, q, known) <==> rr in records && Answers(rr, q, known)
  {
    hide Answers;
    if records != [] {
      AnswersToMeans(records[..|records| - 1], q, known, rr);
    }
  }

  /** A record is answered exactly if a question asks for it and the querier does not know it yet. */
  lemma {:induction false} AnsweredIff(records: seq<ResourceRecord>, qs: seq<Question>, known: seq<ResourceRecord>, rr: ResourceRecord)
    ensures rr in AnswersToAll(records, qs, known) <==> rr in records && Asked(rr, qs) && !Known(rr, known)
  {
    hide Known, MatchesQuestion, AnswersTo;
    if qs != [] {
      var front, last := qs[..|qs| - 1], qs[|qs| - 1];
      AnsweredIff(records, front, known, rr);
      AnswersToMeans(records, last, known, rr);
      assert Asked(rr, qs) <==> Asked(rr, front) || MatchesQuestion(rr, last) by {
        AskedLast(rr, qs);
      }
    }
  }

  lemma AskedLast(rr: ResourceRecord, qs: seq<Question>)
    requires qs != []
    ensures Asked(rr, qs) <==> Asked(rr, qs[..|qs| - 1]) || MatchesQuestion(rr, qs[|qs| - 1])
  {
    hide MatchesQuestion;
    var front := qs[..|qs| - 1];
    assert forall n :: 0 <= n < |front| ==> front[n] == qs[n];
    if Asked(rr, front) {
      var n :| 0 <= n < |front| && MatchesQuestion(rr, front[n]);
      assert MatchesQuestion(rr, qs[n]);
    }
  }

  // ----- a browser's known answers -----

  /** A known answer is received as a PTR record that is good for 75 seconds: no goodbye. */
  lemma KnownAnswerRead(serviceType: Bytes, instance: Bytes)
    requires EndsWithDot(serviceType)
    ensures NormalRecord(KnownAnswer(serviceType, instance)) ==
            Blank(serviceType, 12, 1, 75, false).(target := instance + [DOT] + serviceType)
  {
    hide NormalizeName;
    NameJoined(instance + [DOT], serviceType);
    AlreadyNormal(serviceType);
  }

  lemma AlreadyNormal(name: Bytes)
    requires EndsWithDot(name)
    ensures NormalizeName(name) == name
  {
  }

  /** It names the service, up to case. */
  predicate Tells(instance: Bytes, serviceType: Bytes, i: Instance) {
    SameIgnoringCase(instance + [DOT] + serviceType, InstanceName(i))
  }

  /** A browser that knows the service by the name extracted from its records tells of it. */
  lemma OwnNameTells(i: Instance, serviceType: Bytes)
    requires SameIgnoringCase(serviceType, ServiceType(i))
    ensures Tells(i.name, serviceType, i)
  {
    hide LowerName, ServiceType, SameIgnoringCase;
    LowerNameMeans(serviceType, ServiceType(i));
    LowerConcat(i.name + [DOT], serviceType);
    LowerConcat(i.name + [DOT], ServiceType(i));
    LowerNameMeans(i.name + [DOT] + serviceType, InstanceName(i));
  }

  lemma KnownAnswerEqual(i: Instance, serviceType: Bytes, instance: Bytes)
    requires SameIgnoringCase(serviceType, ServiceType(i))
    ensures EndsWithDot(serviceType)
    ensures RecordsEqual(PtrRecord(i), NormalRecord(KnownAnswer(serviceType, instance))) <==> Tells(instance, serviceType, i)
  {
    hide LowerName, ServiceType, InstanceName, SameIgnoringCase, NormalRecord, KnownAnswer;
    NamesNormal(i);
    LowerNameMeans(serviceType, ServiceType(i));
    DotIgnoresCase(ServiceType(i), serviceType);
    KnownAnswerRead(serviceType, instance);
    LowerNameMeans(instance + [DOT] + serviceType, InstanceName(i));
  }

  predicate SomeTells(instances: seq<Bytes>, serviceType: Bytes, i: Instance) {
    exists k :: 0 <= k < |instances| && Tells(instances[k], serviceType, i)
  }

  lemma KnownMeans(i: Instance, serviceType: Bytes, instances: seq<Bytes>)
    requires SameIgnoringCase(serviceType, ServiceType(i))
    ensures Known(PtrRecord(i), NormalRecords(KnownAnswers(serviceType, instances))) <==>
              OtherSeconds(i) <= 151 && SomeTells(instances, serviceType, i)
  {
    hide RecordsEqual, SameIgnoringCase, ServiceType, InstanceName, NormalRecord, KnownAnswer, Tells;
    var known := NormalRecords(KnownAnswers(serviceType, instances));
    forall k | 0 <= k < |instances|
      ensures known[k].ttl == 75
      ensures RecordsEqual(PtrRecord(i), known[k]) <==> Tells(instances[k], serviceType, i)
    {
      KnownAnswerEqual(i, serviceType, instances[k]);
      KnownAnswerRead(serviceType, instances[k]);
    }
    assert PtrRecord(i).ttl as int == OtherSeconds(i);
    if SomeTells(instances, serviceType, i) {
      var k :| 0 <= k < |instances| && Tells(instances[k], serviceType, i);
      assert RecordsEqual(PtrRecord(i), known[k]);
    }
  }

  // ----- over the packets of a query -----

  /** How many known answers the first packet of a query has room for. */
  function FirstRoom(serviceType: Bytes, instances: seq<Bytes>): nat {
    |Packets(serviceType, instances)[0].answers|
  }

  lemma FirstPacket(serviceType: Bytes, instances: seq<Bytes>)
    ensures FirstRoom(serviceType, instances) <= |instances|
    ensures Packets(serviceType, instances)[0].answers ==
            KnownAnswers(serviceType, instances[..FirstRoom(serviceType, instances)])
    ensures forall k :: 0 <= k < |Packets(serviceType, instances)| ==> Packets(serviceType, instances)[k].flags < 0x8000
  {
    hide Pack, MaxFit, Chunks, KnownAnswer;
    var known := KnownAnswers(serviceType, instances);
    assert instances[..|instances|] == instances;
    var m := MaxFit(Question(serviceType, TYPE_PTR, CLASS_IN), known, |known|);
    assert known[..m] == KnownAnswers(serviceType, instances[..m]);
    ChunksAreQueries(known[m..]);
  }

  lemma {:induction false} ChunksAreQueries(rest: seq<ResourceRecord>)
    ensures forall k :: 0 <= k < |Chunks(rest)| ==> Chunks(rest)[k].flags < 0x8000
  {
    if |rest| > MAX_PER_PACKET {
      ChunksAreQueries(rest[MAX_PER_PACKET..]);
    }
  }

  /** Every packet is sent and read, as a query; the first asks for the type, and the others for nothing. */
  lemma PacketsRead(serviceType: Bytes, instances: seq<Bytes>, k: nat)
    requires AllSendable(serviceType, instances) && AllProper(serviceType, instances)
    requires k < |Packets(serviceType, instances)|
    ensures var sent := Packed(Packets(serviceType, instances));
            && |sent| == |Packets(serviceType, instances)|
            && Unpack(sent[k]).Ok? && Unpack(sent[k]).value.flags < 0x8000
            && (k == 0 ==>
                  && Unpack(sent[k]).value.questions == [Question(NormalizeName(serviceType), 12, 1)]
                  && Unpack(sent[k]).value.answers ==
                       NormalRecords(KnownAnswers(serviceType, instances[..FirstRoom(serviceType, instances)])))
            && (k > 0 ==> Unpack(sent[k]).value.questions == [])
  {
    hide Packets, Packed, Pack, Unpack, AllSendable, AllProper, NormalRecord, KnownAnswer, ProperMessage, ShortMessage;
    var ms := Packets(serviceType, instances);
    PacketsCarry(serviceType, instances);
    PacketsFit(serviceType, instances);
    PacketsReadable(serviceType, instances);
    ReceivedIsSent(ms);
    MessageRoundTrip(ms[k]);
    FirstPacket(serviceType, instances);
    assert k > 0 ==> ms[1..][k - 1] == ms[k];
  }

  /** The packet makes a responder send the PTR record of the service. */
  predicate Provokes(packet: Bytes, i: Instance) {
    Unpack(packet).Ok?
    && PtrRecord(i) in AnswersToAll(ServiceRecords(i), Unpack(packet).value.questions, Unpack(packet).value.answers)
  }

  /** A responder answers a query for its type with its PTR record unless the first packet of the
      query holds it as a known answer, and its TTL is at most twice that of a known answer, and one.
      Known answers of the further packets are of no use: a responder takes each packet by itself. */
  lemma SuppressedIff(i: Instance, serviceType: Bytes, instances: seq<Bytes>)
    requires AllSendable(serviceType, instances) && AllProper(serviceType, instances)
    requires SameIgnoringCase(serviceType, ServiceType(i))
    ensures var sent := Packed(Packets(serviceType, instances));
            && |sent| > 0 && FirstRoom(serviceType, instances) <= |instances|
            && (Provokes(sent[0], i) <==>
                  !(OtherSeconds(i) <= 151 && SomeTells(instances[..FirstRoom(serviceType, instances)], serviceType, i)))
            && forall k :: 0 < k < |sent| ==> !Provokes(sent[k], i)
  {
    hide Packets, Packed, Unpack, AllSendable, AllProper, NormalRecords, KnownAnswers, AnswersToAll, Known, Asked;
    hide ServiceType, SameIgnoringCase, SomeTells, PtrRecord, FirstRoom;
    var sent, n := Packed(Packets(serviceType, instances)), FirstRoom(serviceType, instances);
    PacketsCarry(serviceType, instances);
    FirstPacket(serviceType, instances);
    KnownMeans(i, serviceType, instances[..n]);
    PtrAsked(i, serviceType);
    forall k | 0 <= k < |Packets(serviceType, instances)|
      ensures |sent| == |Packets(serviceType, instances)| && Unpack(sent[k]).Ok?
      ensures Provokes(sent[k], i) <==>
                k == 0 && !(OtherSeconds(i) <= 151 && SomeTells(instances[..n], serviceType, i))
    {
      PacketsRead(serviceType, instances, k);
      var m := Unpack(sent[k]).value;
      AnsweredIff(ServiceRecords(i), m.questions, m.answers, PtrRecord(i));
    }
  }

  /** So a service known by its own name, among those that the first packet holds, keeps silent
      exactly if its TTL is at most 151 seconds. */
  lemma KnownServiceSilentIff(i: Instance, serviceType: Bytes, instances: seq<Bytes>)
    requires AllSendable(serviceType, instances) && AllProper(serviceType, instances)
    requires SameIgnoringCase(serviceType, ServiceType(i))
    requires FirstRoom(serviceType, instances) <= |instances|
    requires i.name in instances[..FirstRoom(serviceType, instances)]
    ensures var sent := Packed(Packets(serviceType, instances));
            |sent| > 0 && (Provokes(sent[0], i) <==> OtherSeconds(i) > 151)
  {
    hide Packets, Packed, AllSendable, AllProper, SameIgnoringCase, ServiceType, Tells, Provokes, FirstRoom;
    SuppressedIff(i, serviceType, instances);
    OwnNameTells(i, serviceType);
  }

  lemma PtrAsked(i: Instance, serviceType: Bytes)
    requires SameIgnoringCase(serviceType, ServiceType(i))
    ensures Asked(PtrRecord(i), [Question(NormalizeName(serviceType), 12, 1)]) && !Asked(PtrRecord(i), [])
    ensures PtrRecord(i) in ServiceRecords(i)
  {
    hide LowerName, ServiceType, InstanceName, SameIgnoringCase, NormalizeName;
    NamesNormal(i);
    LowerNameMeans(serviceType, ServiceType(i));
    DotIgnoresCase(ServiceType(i), serviceType);
    AlreadyNormal(serviceType);
    ServiceRecordAt(i, 0);
    assert ServiceRecords(i)[0] == PtrRecord(i);
    assert MatchesQuestion(PtrRecord(i), [Question(NormalizeName(serviceType), 12, 1)][0]);
  }
}
