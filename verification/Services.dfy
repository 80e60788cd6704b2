/** Service instances, the records they claim, and the probe that announces the claim: service.go
    and the names of config.go. */
module Services {
  import opened Octets
  import opened Names
  import opened Records
  import opened Messages
  import opened Tiebreak

  /** "local." */
  const LOCAL: Bytes := [108, 111, 99, 97, 108, 46]
  const HOST_TTL: U32 := 120
  const OTHER_TTL: U32 := 75

  /** A service instance; its addresses in the order that sortIPsIPv4First gives them. */
  datatype Instance = Instance(
    name: Bytes,
    stype: Bytes,
    domain: Bytes,
    host: Bytes,
    ips: seq<Bytes>,
    text: seq<Bytes>,
    port: U16,
    priority: U16,
    weight: U16,
    ttl: U32
  )

  function EnsureDomain(domain: Bytes): Bytes {
    if domain == [] then LOCAL else NormalizeName(domain)
  }

  function ServiceType(i: Instance): Bytes {
    i.stype + [DOT] + EnsureDomain(i.domain)
  }

  function InstanceName(i: Instance): Bytes {
    i.name + [DOT] + ServiceType(i)
  }

  lemma SameType(i: Instance, name: Bytes)
    ensures ServiceType(i.(name := name)) == ServiceType(i)
  {
  }

  /** The key of the services map. */
  function KeyOf(i: Instance): Bytes {
    LowerName(NormalizeName(InstanceName(i)))
  }

  // ----- generateServiceRecords -----

  function HostTtl(i: Instance): U32 {
    if i.ttl > 0 then i.ttl else HOST_TTL
  }

  function OtherTtl(i: Instance): U32 {
    if i.ttl > 0 then i.ttl else OTHER_TTL
  }

  function PtrRecord(i: Instance): ResourceRecord {
    Blank(ServiceType(i), TYPE_PTR, CLASS_IN, OtherTtl(i), false).(target := InstanceName(i))
  }

  function SrvRecord(i: Instance): ResourceRecord {
    Blank(InstanceName(i), TYPE_SRV, CLASS_IN, HostTtl(i), true).(
      priority := i.priority, weight := i.weight, port := i.port, target := NormalizeName(i.host))
  }

  function TxtRecord(i: Instance): ResourceRecord {
    Blank(InstanceName(i), TYPE_TXT, CLASS_IN, OtherTtl(i), true).(text := i.text)
  }

  function AddressRecord(i: Instance, ip: Bytes): ResourceRecord {
    if To4(ip).Some?
    then Blank(NormalizeName(i.host), TYPE_A, CLASS_IN, HostTtl(i), true).(ip := To4(ip).value)
    else Blank(NormalizeName(i.host), TYPE_AAAA, CLASS_IN, HostTtl(i), true).(ip := ip)
  }

  function AddressRecords(i: Instance): seq<ResourceRecord> {
    seq(|i.ips|, k requires 0 <= k < |i.ips| => AddressRecord(i, i.ips[k]))
  }

  function ServiceRecords(i: Instance): (records: seq<ResourceRecord>)
    ensures |records| == 3 + |i.ips|
  {
    [PtrRecord(i), SrvRecord(i), TxtRecord(i)] + AddressRecords(i)
  }

  method GenerateServiceRecords(i: Instance) returns (records: seq<ResourceRecord>)
    ensures records == ServiceRecords(i)
  {
    records := [];
    records := records + [PtrRecord(i)];
    records := records + [SrvRecord(i)];
    records := records + [TxtRecord(i)];
    for k := 0 to |i.ips|
      invariant records == [PtrRecord(i), SrvRecord(i), TxtRecord(i)] + AddressRecords(i)[..k]
    {
      records := records + [AddressRecord(i, i.ips[k])];
    }
  }

  // ----- buildProbeMessage -----

  predicate NameAmong(records: seq<ResourceRecord>, name: Bytes) {
    exists i :: 0 <= i < |records| && LowerName(records[i].name) == LowerName(name)
  }

  /** One question for each name, at its first record. */
  function ProbeQuestions(records: seq<ResourceRecord>): seq<Question> {
    if records == [] then []
    else
      var front, last := records[..|records| - 1], records[|records| - 1];
      if NameAmong(front, last.name) then ProbeQuestions(front)
      else ProbeQuestions(front) + [Question(last.name, TYPE_ANY, CLASS_IN)]
  }

  function Probe(records: seq<ResourceRecord>): Message {
    Message(0, 0, (|ProbeQuestions(records)| % 0x1_0000) as U16, 0, (|records| % 0x1_0000) as U16, 0,
            ProbeQuestions(records), [], records, [])
  }

  method BuildProbeMessage(records: seq<ResourceRecord>) returns (m: Message)
    ensures m == Probe(records)
  {
    hide LowerName, NameAmong;
    NobodyAmong();
    var questions: seq<Question> := [];
    var authorities: seq<ResourceRecord> := [];
    var seen: set<Bytes> := {};
    for i := 0 to |records|
      invariant questions == ProbeQuestions(records[..i])
      invariant authorities == records[..i]
      invariant forall name :: LowerName(name) in seen <==> NameAmong(records[..i], name)
    {
      var rr := records[i];
      assert records[..i + 1][..i] == records[..i];
      NamesGrow(records, i);
      if LowerName(rr.name) !in seen {
        questions := questions + [Question(rr.name, TYPE_ANY, CLASS_IN)];
        seen := seen + {LowerName(rr.name)};
      }
      authorities := authorities + [rr];
    }
    assert records[..|records|] == records;
    return Message(0, 0, (|questions| % 0x1_0000) as U16, 0, (|authorities| % 0x1_0000) as U16, 0,
                   questions, [], authorities, []);
  }

  lemma NobodyAmong()
    ensures forall name :: !NameAmong([], name)
  {
  }

  lemma NamesGrow(records: seq<ResourceRecord>, i: nat)
    requires i < |records|
    ensures forall name :: NameAmong(records[..i + 1], name) <==>
              NameAmong(records[..i], name) || LowerName(records[i].name) == LowerName(name)
  {
    hide LowerName;
    forall name
      ensures NameAmong(records[..i + 1], name) <==>
                NameAmong(records[..i], name) || LowerName(records[i].name) == LowerName(name)
    {
      if NameAmong(records[..i], name) {
        var k :| 0 <= k < i && LowerName(records[..i][k].name) == LowerName(name);
        assert records[..i + 1][k] == records[..i][k];
      }
      assert records[..i + 1][i] == records[i];
    }
  }

  /** Every record of a probe is asked about. */
  lemma {:induction false} ProbeAsksAll(records: seq<ResourceRecord>, i: nat)
    requires i < |records|
    ensures exists q :: q in ProbeQuestions(records) && LowerName(q.name) == LowerName(records[i].name)
    decreases |records|
  {
    hide LowerName;
    var front, last := records[..|records| - 1], records[|records| - 1];
    if i < |front| {
      ProbeAsksAll(front, i);
      var q :| q in ProbeQuestions(front) && LowerName(q.name) == LowerName(front[i].name);
      assert q in ProbeQuestions(records);
    } else if NameAmong(front, last.name) {
      var k :| 0 <= k < |front| && LowerName(front[k].name) == LowerName(last.name);
      ProbeAsksAll(front, k);
    } else {
      assert Question(last.name, TYPE_ANY, CLASS_IN) in ProbeQuestions(records);
    }
  }

  predicate AsksAny(q: Question, records: seq<ResourceRecord>) {
    q.qtype == 255 && q.qclass == 1 && NameAmong(records, q.name)
  }

  /** Each question of a probe is for any type, in class IN, and of the name of one of its records;
      and no two are of one name. */
  lemma {:induction false} ProbeAsksOnce(records: seq<ResourceRecord>)
    ensures var qs := ProbeQuestions(records);
            && (forall k :: 0 <= k < |qs| ==> AsksAny(qs[k], records))
            && forall j, k :: 0 <= j < k < |qs| ==> LowerName(qs[j].name) != LowerName(qs[k].name)
  {
    hide LowerName, NameAmong, AsksAny, ProbeQuestions;
    ProbeQuestionsStep(records);
    if records != [] {
      var front, last := records[..|records| - 1], records[|records| - 1];
      var before := ProbeQuestions(front);
      ProbeAsksOnce(front);
      forall j | 0 <= j < |before|
        ensures AsksAny(before[j], records)
        ensures LowerName(before[j].name) == LowerName(last.name) ==> NameAmong(front, last.name)
      {
        AsksMore(before[j], records);
      }
      AsksLast(records);
    }
  }

  lemma ProbeQuestionsStep(records: seq<ResourceRecord>)
    ensures ProbeQuestions(records) ==
            if records == [] then []
            else
              var front, last := records[..|records| - 1], records[|records| - 1];
              if NameAmong(front, last.name) then ProbeQuestions(front)
              else ProbeQuestions(front) + [Question(last.name, TYPE_ANY, CLASS_IN)]
  {
  }

  lemma AsksMore(q: Question, records: seq<ResourceRecord>)
    requires records != [] && AsksAny(q, records[..|records| - 1])
    ensures AsksAny(q, records)
    ensures LowerName(q.name) == LowerName(records[|records| - 1].name) ==>
              NameAmong(records[..|records| - 1], records[|records| - 1].name)
  {
    hide LowerName, NameAmong;
    NamesGrow(records, |records| - 1);
    assert records[..|records|] == records;
    if LowerName(q.name) == LowerName(records[|records| - 1].name) {
      SameAmong(records[..|records| - 1], q.name, records[|records| - 1].name);
    }
  }

  lemma AsksLast(records: seq<ResourceRecord>)
    requires records != []
    ensures AsksAny(Question(records[|records| - 1].name, TYPE_ANY, CLASS_IN), records)
  {
    hide LowerName;
  }

  lemma SameAmong(records: seq<ResourceRecord>, a: Bytes, b: Bytes)
    requires LowerName(a) == LowerName(b)
    ensures NameAmong(records, a) <==> NameAmong(records, b)
  {
  }

  /** A probe is a query that claims every record, and answers nothing. */
  lemma ProbeIsQuery(records: seq<ResourceRecord>)
    ensures var m := Probe(records);
            m.flags == 0 && m.id == 0 && m.authorities == records && m.answers == [] && m.additionals == []
    ensures |records| < 0x1_0000 ==> Probe(records).nsCount as int == |records|
  {
  }

  /** The names of an instance have no empty label. */
  predicate ProperInstance(i: Instance) {
    ProperName(ServiceType(i)) && ProperName(InstanceName(i)) && ProperName(i.host)
  }

  lemma {:induction false} QuestionNames(records: seq<ResourceRecord>)
    ensures forall q :: q in ProbeQuestions(records) ==> exists k :: 0 <= k < |records| && records[k].name == q.name
  {
    hide LowerName, NameAmong;
    if records != [] {
      var front := records[..|records| - 1];
      QuestionNames(front);
      forall q | q in ProbeQuestions(records)
        ensures exists k :: 0 <= k < |records| && records[k].name == q.name
      {
        if q in ProbeQuestions(front) {
          var k :| 0 <= k < |front| && front[k].name == q.name;
          assert records[k].name == q.name;
        } else {
          assert records[|records| - 1].name == q.name;
        }
      }
    }
  }

  lemma RecordsProper(i: Instance, ip: Bytes)
    requires ProperInstance(i)
    ensures ProperRecord(PtrRecord(i)) && ProperRecord(SrvRecord(i)) && ProperRecord(TxtRecord(i))
    ensures ProperRecord(AddressRecord(i, ip))
  {
    hide ProperName, NormalizeName, InstanceName, ServiceType, To4;
    HostProper(i.host);
    RootIsProper();
  }

  lemma ServiceRecordAt(i: Instance, k: nat)
    requires k < |ServiceRecords(i)|
    ensures ServiceRecords(i)[k] ==
      if k == 0 then PtrRecord(i) else if k == 1 then SrvRecord(i) else if k == 2 then TxtRecord(i)
      else AddressRecord(i, i.ips[k - 3])
  {
    hide PtrRecord, SrvRecord, TxtRecord, AddressRecord;
  }

  lemma ProbeProper(i: Instance)
    requires ProperInstance(i)
    ensures ProperMessage(Probe(ServiceRecords(i)))
  {
    hide ProperName, ProperRecord, ServiceRecords, PtrRecord, SrvRecord, TxtRecord, AddressRecord, NameAmong;
    var records := ServiceRecords(i);
    forall k | 0 <= k < |records|
      ensures ProperRecord(records[k]) && ProperName(records[k].name)
    {
      ServiceRecordAt(i, k);
      RecordsProper(i, if k < 3 then [] else i.ips[k - 3]);
      NameOfProper(records[k]);
    }
    QuestionNames(records);
    var qs := ProbeQuestions(records);
    forall k | 0 <= k < |qs|
      ensures ProperName(qs[k].name)
    {
      assert qs[k] in qs;
    }
  }

  lemma NameOfProper(rr: ResourceRecord)
    requires ProperRecord(rr)
    ensures ProperName(rr.name)
  {
  }

  lemma HostProper(host: Bytes)
    ensures NormalizeName(NormalizeName(host)) == NormalizeName(host)
    ensures ProperName(NormalizeName(host)) == ProperName(host)
  {
  }
}
