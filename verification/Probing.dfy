/** What one server makes of a probe record (handleProbe), and why its own probe coming back to it
    is harmless. */
module Probing {
  import opened Octets
  import opened Names
  import opened Records
  import opened Messages
  import opened Tiebreak
  import opened Services

  /** The outcome of comparing a service's records with one record of a probe. */
  datatype Verdict = Unrelated | Ours | Conflict(rr: ResourceRecord)

  /** A unique record of ours with the name and type of the probe's. */
  predicate Rival(ours: ResourceRecord, ns: ResourceRecord) {
    ours.cacheFlush && LowerName(ours.name) == LowerName(ns.name) && ours.rtype == ns.rtype
  }

  /** An equal rival makes the record our own; failing that, the last rival is in conflict. */
  function Judge(records: seq<ResourceRecord>, ns: ResourceRecord): Verdict {
    if records == [] then Unrelated
    else
      var before, last := Judge(records[..|records| - 1], ns), records[|records| - 1];
      if before.Ours? || !Rival(last, ns) then before
      else if RecordsEqual(last, ns) then Ours
      else Conflict(last)
  }

  /** The service gives its name up to the prober of ns. */
  predicate Loses(records: seq<ResourceRecord>, ns: ResourceRecord) {
    Judge(records, ns).Conflict? && ProbeLoses(Judge(records, ns).rr, ns)
  }

  /** The loop of handleProbe over a service's records. */
  method JudgeRecord(records: seq<ResourceRecord>, ns: ResourceRecord) returns (v: Verdict)
    ensures v == Judge(records, ns)
  {
    hide LowerName, RecordsEqual;
    var hasMatch := false;
    var conflicting: Option<ResourceRecord> := None;
    for i := 0 to |records|
      invariant !hasMatch
      invariant Judge(records[..i], ns) == if conflicting.None? then Unrelated else Conflict(conflicting.value)
    {
      var ours := records[i];
      assert records[..i + 1][..i] == records[..i];
      if !ours.cacheFlush || LowerName(ours.name) != LowerName(ns.name) || ours.rtype != ns.rtype {
        continue;
      }
      if RecordsEqual(ours, ns) {
        JudgeOurs(records, ns, i);
        return Ours;
      }
      conflicting := Some(ours);
    }
    assert records[..|records|] == records;
    return if conflicting.None? then Unrelated else Conflict(conflicting.value);
  }

  lemma {:induction false} JudgeOurs(records: seq<ResourceRecord>, ns: ResourceRecord, i: nat)
    requires i < |records| && Rival(records[i], ns) && RecordsEqual(records[i], ns)
    ensures Judge(records, ns) == Ours
    decreases |records|
  {
    hide Rival, RecordsEqual;
    if i < |records| - 1 {
      JudgeOurs(records[..|records| - 1], ns, i);
    }
  }

  lemma {:induction false} JudgeUnrelated(records: seq<ResourceRecord>, ns: ResourceRecord)
    requires forall i :: 0 <= i < |records| ==> !Rival(records[i], ns)
    ensures Judge(records, ns) == Unrelated
  {
    hide Rival, RecordsEqual;
    if records != [] {
      JudgeUnrelated(records[..|records| - 1], ns);
    }
  }

  /** A record with a single rival, not equal to it, is in conflict with that rival. */
  lemma {:induction false} JudgeSingle(records: seq<ResourceRecord>, ns: ResourceRecord, i: nat)
    requires i < |records| && Rival(records[i], ns) && !RecordsEqual(records[i], ns)
    requires forall k :: 0 <= k < |records| && k != i ==> !Rival(records[k], ns)
    ensures Judge(records, ns) == Conflict(records[i])
    decreases |records|
  {
    hide Rival, RecordsEqual;
    var front := records[..|records| - 1];
    if i < |front| {
      JudgeSingle(front, ns, i);
    } else {
      JudgeUnrelated(front, ns);
    }
  }

  /** Exactly: the verdict is a conflict with a rival when there are rivals and none is equal. */
  lemma {:induction false} JudgeMeaning(records: seq<ResourceRecord>, ns: ResourceRecord)
    ensures var v := Judge(records, ns);
            && (v.Ours? <==> exists i :: 0 <= i < |records| && Rival(records[i], ns) && RecordsEqual(records[i], ns))
            && (v.Unrelated? <==> forall i :: 0 <= i < |records| ==> !Rival(records[i], ns))
            && (v.Conflict? ==> v.rr in records && Rival(v.rr, ns) && !RecordsEqual(v.rr, ns))
  {
    hide Rival, RecordsEqual;
    if records != [] {
      var front := records[..|records| - 1];
      JudgeMeaning(front, ns);
      if Judge(front, ns).Ours? {
        var i :| 0 <= i < |front| && Rival(front[i], ns) && RecordsEqual(front[i], ns);
        assert Rival(records[i], ns) && RecordsEqual(records[i], ns);
      }
    }
  }

  // ----- our own probe coming back -----

  lemma NormalFields(rr: ResourceRecord)
    ensures var n := NormalRecord(rr);
            && n.rtype == rr.rtype && n.name == NormalizeName(rr.name)
            && (KindOf(rr.rtype) == Service ==> n.target == NormalizeName(rr.target))
            && (KindOf(rr.rtype) == Service ==> n.port == rr.port && n.priority == rr.priority && n.weight == rr.weight)
            && (KindOf(rr.rtype) == Text ==> n.text == WrittenText(rr.text))
            && (KindOf(rr.rtype) == Address4 && To4(rr.ip).Some? ==> n.ip == To4(rr.ip).value)
            && (KindOf(rr.rtype) == Address6 && To16(rr.ip).Some? ==> n.ip == To16(rr.ip).value)
  {
    hide NormalizeName, To4, To16;
  }

  lemma DottedIsNormal(s: Bytes)
    requires EndsWithDot(s)
    ensures NormalizeName(s) == s
  {
    if |s| == 1 {
      assert s == [DOT];
    }
  }

  lemma ConcatEndsWithDot(a: Bytes, b: Bytes)
    requires EndsWithDot(b)
    ensures EndsWithDot(a + b)
  {
  }

  lemma InstanceNameDotted(i: Instance)
    ensures NormalizeName(InstanceName(i)) == InstanceName(i) && NormalizeName(ServiceType(i)) == ServiceType(i)
    ensures NormalizeName(NormalizeName(i.host)) == NormalizeName(i.host)
  {
    hide NormalizeName;
    assert EndsWithDot(EnsureDomain(i.domain));
    ConcatEndsWithDot(i.stype + [DOT], EnsureDomain(i.domain));
    ConcatEndsWithDot(i.name + [DOT], ServiceType(i));
    DottedIsNormal(ServiceType(i));
    DottedIsNormal(InstanceName(i));
    DottedIsNormal(NormalizeName(i.host));
  }

  lemma OwnSrv(i: Instance)
    ensures Rival(SrvRecord(i), NormalRecord(SrvRecord(i))) && RecordsEqual(SrvRecord(i), NormalRecord(SrvRecord(i)))
  {
    hide NormalizeName, LowerName, NormalRecord, InstanceName;
    InstanceNameDotted(i);
    NormalFields(SrvRecord(i));
  }

  lemma OwnTxt(i: Instance)
    ensures Rival(TxtRecord(i), NormalRecord(TxtRecord(i)))
    ensures RecordsEqual(TxtRecord(i), NormalRecord(TxtRecord(i))) <==> i.text != []
    ensures i.text == [] ==> ProbeLoses(TxtRecord(i), NormalRecord(TxtRecord(i)))
  {
    hide NormalizeName, LowerName, NormalRecord, InstanceName;
    InstanceNameDotted(i);
    NormalFields(TxtRecord(i));
    if i.text == [] {
      assert CanonicalText([[]]) == [0];
    }
  }

  lemma OwnAddress(i: Instance, ip: Bytes)
    requires To4(ip).Some? || To16(ip).Some?
    ensures Rival(AddressRecord(i, ip), NormalRecord(AddressRecord(i, ip)))
    ensures RecordsEqual(AddressRecord(i, ip), NormalRecord(AddressRecord(i, ip)))
  {
    hide NormalizeName, LowerName, NormalRecord;
    InstanceNameDotted(i);
    NormalFields(AddressRecord(i, ip));
  }

  lemma OwnPtr(i: Instance)
    ensures Judge(ServiceRecords(i), NormalRecord(PtrRecord(i))) == Unrelated
  {
    hide NormalizeName, LowerName, NormalRecord, InstanceName, ServiceType, Judge, ServiceRecords;
    NormalFields(PtrRecord(i));
    var records := ServiceRecords(i);
    forall k | 0 <= k < |records|
      ensures !Rival(records[k], NormalRecord(PtrRecord(i)))
    {
      ServiceRecordAt(i, k);
    }
    JudgeUnrelated(records, NormalRecord(PtrRecord(i)));
  }

  predicate Addressable(i: Instance) {
    forall k :: 0 <= k < |i.ips| ==> To4(i.ips[k]).Some? || To16(i.ips[k]).Some?
  }

  /** Its own records as they come back are no conflict to a service with text. */
  lemma OwnRecordKnown(i: Instance, k: nat)
    requires Addressable(i) && k < |ServiceRecords(i)| && (k == 2 ==> i.text != [])
    ensures Judge(ServiceRecords(i), NormalRecord(ServiceRecords(i)[k])) == if k == 0 then Unrelated else Ours
  {
    hide NormalRecord, Judge, ServiceRecords, Rival, RecordsEqual, PtrRecord, SrvRecord, TxtRecord, AddressRecord;
    var records := ServiceRecords(i);
    ServiceRecordAt(i, k);
    if k == 0 {
      OwnPtr(i);
    } else {
      if k == 1 {
        OwnSrv(i);
      } else if k == 2 {
        OwnTxt(i);
      } else {
        OwnAddress(i, i.ips[k - 3]);
      }
      JudgeOurs(records, NormalRecord(records[k]), k);
    }
  }

  /** A service takes a record of its own probe for a conflict exactly if it is the TXT record of a
      service without text; and then it loses to itself. */
  lemma OwnRecordVerdict(i: Instance, k: nat)
    requires Addressable(i) && k < |ServiceRecords(i)|
    ensures Loses(ServiceRecords(i), NormalRecord(ServiceRecords(i)[k])) <==> k == 2 && i.text == []
  {
    hide NormalRecord, Judge, ServiceRecords, Rival, RecordsEqual, ProbeLoses, PtrRecord, SrvRecord, TxtRecord, AddressRecord;
    if k == 2 && i.text == [] {
      ServiceRecordAt(i, k);
      OwnTxt(i);
      OnlyTxt(i);
      JudgeSingle(ServiceRecords(i), NormalRecord(ServiceRecords(i)[k]), 2);
    } else {
      OwnRecordKnown(i, k);
    }
  }

  lemma OnlyTxt(i: Instance)
    ensures var ns := NormalRecord(TxtRecord(i));
            forall k :: 0 <= k < |ServiceRecords(i)| && k != 2 ==> !Rival(ServiceRecords(i)[k], ns)
  {
    hide NormalizeName, LowerName, NormalRecord, InstanceName, ServiceType, ServiceRecords;
    NormalFields(TxtRecord(i));
    forall k | 0 <= k < |ServiceRecords(i)| && k != 2
      ensures !Rival(ServiceRecords(i)[k], NormalRecord(TxtRecord(i)))
    {
      ServiceRecordAt(i, k);
    }
  }

  // ----- the state of a service -----

  datatype State = StateIdle | StateProbing | StateAnnounced | StateConflictLost

  /** What handleProbe does to the state of a service. */
  function OnProbe(state: State, records: seq<ResourceRecord>, ns: ResourceRecord): State {
    if state == StateProbing && Loses(records, ns) then StateConflictLost else state
  }

  /** The authority section of a probe, one record at a time. */
  function OnPacket(state: State, records: seq<ResourceRecord>, authorities: seq<ResourceRecord>): State {
    if authorities == [] then state
    else OnProbe(OnPacket(state, records, authorities[..|authorities| - 1]), records, authorities[|authorities| - 1])
  }

  lemma {:induction false} PacketLoses(state: State, records: seq<ResourceRecord>, authorities: seq<ResourceRecord>)
    ensures OnPacket(state, records, authorities) ==
      if state == StateProbing && exists k :: 0 <= k < |authorities| && Loses(records, authorities[k])
      then StateConflictLost else state
  {
    hide Loses;
    if authorities != [] {
      var front := authorities[..|authorities| - 1];
      PacketLoses(state, records, front);
      if k :| 0 <= k < |front| && Loses(records, front[k]) {
        assert Loses(records, authorities[k]);
      }
    }
  }

  lemma {:induction false} RecordPacked(base: nat, table: Table, rrs: seq<ResourceRecord>, k: nat)
    requires k < |rrs| && EmitRecords(base, table, rrs).error == None
    ensures KindOf(rrs[k].rtype) == Address6 ==> To16(rrs[k].ip).Some?
    decreases |rrs|
  {
    hide EmitName, EmitStrings;
    if k < |rrs| - 1 {
      RecordPacked(base, table, rrs[..|rrs| - 1], k);
    }
  }

  lemma ProbePacked(i: Instance)
    requires Pack(Probe(ServiceRecords(i))).Ok?
    ensures Addressable(i)
  {
    hide EmitQuestions, EmitRecords, ServiceRecords, AddressRecord, To4, To16;
    var m := Probe(ServiceRecords(i));
    var q := EmitQuestions(HEADER_SIZE, map[], m.questions);
    var a := EmitSection(q, []);
    forall k | 0 <= k < |i.ips|
      ensures To4(i.ips[k]).Some? || To16(i.ips[k]).Some?
    {
      RecordPacked(HEADER_SIZE + |a.bytes|, a.table, ServiceRecords(i), k + 3);
      ServiceRecordAt(i, k + 3);
      AddressKind(i, i.ips[k]);
    }
  }

  lemma AddressKind(i: Instance, ip: Bytes)
    ensures To4(ip).None? ==> KindOf(AddressRecord(i, ip).rtype) == Address6 && AddressRecord(i, ip).ip == ip
  {
  }

  /** A service's own probe, sent, looped back and parsed, moves it out of no state at all, except
      that a service without text always loses the tiebreak against itself. */
  lemma OwnLoopback(i: Instance, state: State)
    requires ProperInstance(i)
    requires Pack(Probe(ServiceRecords(i))).Ok?
    requires Unpack(Pack(Probe(ServiceRecords(i))).value).Ok?
    ensures var heard := Unpack(Pack(Probe(ServiceRecords(i))).value).value.authorities;
            OnPacket(state, ServiceRecords(i), heard) ==
              if state == StateProbing && i.text == [] then StateConflictLost else state
  {
    hide Pack, Unpack, ServiceRecords, Loses, NormalRecord, ProperMessage;
    var records := ServiceRecords(i);
    var m := Probe(records);
    ProbePacked(i);
    ProbeProper(i);
    MessageRoundTrip(m);
    var heard := NormalRecords(records);
    PacketLoses(state, records, heard);
    forall k | 0 <= k < |heard|
      ensures Loses(records, heard[k]) <==> k == 2 && i.text == []
    {
      OwnRecordVerdict(i, k);
    }
    assert Loses(records, heard[2]) <==> i.text == [];
  }

  // ----- probes that are sent and read -----

  /** An instance whose names have at most 255 octets, without addresses, and with little text. */
  predicate SmallInstance(i: Instance) {
    && Sendable(ServiceType(i)) && Sendable(InstanceName(i)) && Sendable(NormalizeName(i.host))
    && i.ips == []
    && EmitStrings(WrittenText(i.text)).error == None && |EmitStrings(WrittenText(i.text)).bytes| <= 4000
  }

  lemma SmallSizes(i: Instance)
    requires SmallInstance(i)
    ensures Emittable(PtrRecord(i)) && Emittable(SrvRecord(i)) && Emittable(TxtRecord(i))
    ensures RecordSize(PtrRecord(i)) + RecordSize(SrvRecord(i)) + RecordSize(TxtRecord(i)) <= 6000
  {
    hide NormalizeName, NameFits, EmitStrings, WrittenText, ServiceType, InstanceName;
    HostProper(i.host);
  }

  lemma SumOfThree(a: ResourceRecord, b: ResourceRecord, c: ResourceRecord)
    ensures SumOfRecords([a, b, c]) == RecordSize(a) + RecordSize(b) + RecordSize(c)
  {
    hide RecordSize, SumOfRecords;
    NoRecords();
    SumOfRecordsSnoc([], a);
    SumOfRecordsSnoc([a], b);
    SumOfRecordsSnoc([a, b], c);
    assert [] + [a] == [a] && [a] + [b] == [a, b] && [a, b] + [c] == [a, b, c];
  }

  lemma SmallRecords(i: Instance)
    requires SmallInstance(i)
    ensures ServiceRecords(i) == [PtrRecord(i), SrvRecord(i), TxtRecord(i)]
    ensures AllEmittable(ServiceRecords(i)) && SumOfRecords(ServiceRecords(i)) <= 6000
  {
    hide RecordSize, Emittable, SumOfRecords, PtrRecord, SrvRecord, TxtRecord, Sendable, EmitStrings;
    SmallSizes(i);
    SumOfThree(PtrRecord(i), SrvRecord(i), TxtRecord(i));
    assert ServiceRecords(i) == [PtrRecord(i), SrvRecord(i), TxtRecord(i)];
  }

  lemma NoRecords()
    ensures SumOfRecords([]) == 0 && SumOfQuestions([]) == 0
  {
  }

  lemma {:induction false} ProbeQuestionsSize(records: seq<ResourceRecord>)
    requires forall k :: 0 <= k < |records| ==> Sendable(records[k].name)
    ensures NamesFit(ProbeQuestions(records)) && SumOfQuestions(ProbeQuestions(records)) <= 260 * |records|
  {
    hide NormalizeName, NameFits, NameAmong;
    if records != [] {
      var before := ProbeQuestions(records[..|records| - 1]);
      ProbeQuestionsSize(records[..|records| - 1]);
      var q := Question(records[|records| - 1].name, TYPE_ANY, CLASS_IN);
      assert (before + [q])[..|before|] == before;
    }
  }

  lemma SmallNames(i: Instance, k: nat)
    requires SmallInstance(i) && k < |ServiceRecords(i)|
    ensures Sendable(ServiceRecords(i)[k].name)
  {
    hide Sendable, NormalizeName, ServiceType, InstanceName;
    SmallRecords(i);
  }

  lemma SmallShort(i: Instance)
    requires SmallInstance(i) && ProperInstance(i)
    ensures ShortMessage(Probe(ServiceRecords(i)))
  {
    hide NormalizeName, NameFits, ServiceType, InstanceName, ProperName, ShortName, ServiceRecords, ProbeQuestions, EmitStrings;
    SmallRecords(i);
    HostProper(i.host);
    ShortEnough(ServiceType(i));
    ShortEnough(InstanceName(i));
    ShortEnough(NormalizeName(i.host));
    RootIsProper();
    RootShort();
    QuestionNames(ServiceRecords(i));
    var qs := ProbeQuestions(ServiceRecords(i));
    forall k | 0 <= k < |qs|
      ensures ShortName(qs[k].name)
    {
      assert qs[k] in qs;
    }
  }

  lemma RootShort()
    ensures ShortName([DOT])
  {
    OneDot();
  }

  /** The probe of such an instance is sent and read. */
  lemma SmallProbeReads(i: Instance)
    requires SmallInstance(i) && ProperInstance(i)
    ensures Pack(Probe(ServiceRecords(i))).Ok? && Unpack(Pack(Probe(ServiceRecords(i))).value).Ok?
    ensures Unpack(Pack(Probe(ServiceRecords(i))).value).value.authorities == NormalRecords(ServiceRecords(i))
  {
    hide SmallInstance, ProperInstance, ServiceRecords, ProbeQuestions, Pack, Unpack, SumOfQuestions, SumOfRecords,
         AllEmittable, NamesFit, Sendable, ProperMessage, ShortMessage, NormalRecords;
    var records := ServiceRecords(i);
    SmallRecords(i);
    forall k | 0 <= k < |records|
      ensures Sendable(records[k].name)
    {
      SmallNames(i, k);
    }
    ProbeQuestionsSize(records);
    NoRecords();
    NothingEmittable();
    PackSucceeds(Probe(records));
    ProbeProper(i);
    SmallShort(i);
    MessageRoundTrip(Probe(records));
  }

  lemma NothingEmittable()
    ensures AllEmittable([])
  {
  }

  /** The service a.b.c. on host d. */
  function Sample(port: U16, text: seq<Bytes>): Instance {
    Instance([97], [98], [99], [100], [], text, port, 0, 0, 0)
  }

  lemma {:induction false} ShortLabelsFit(s: Bytes)
    requires |s| <= MAX_LABEL
    ensures Fits(s)
    decreases |s|
  {
    hide IndexDot;
    if AfterFirstLabel(s) != [] {
      ShortLabelsFit(AfterFirstLabel(s));
    }
  }

  lemma PlainName(s: Bytes)
    requires NoEmptyLabel(s) && |s| <= MAX_LABEL
    ensures ProperName(s + [DOT]) && Sendable(s + [DOT]) && NormalizeName(s + [DOT]) == s + [DOT]
  {
    hide Fits, Proper;
    ProperMeans(s);
    ShortLabelsFit(s);
    assert (s + [DOT])[..|s|] == s;
  }

  lemma SampleNames(port: U16, text: seq<Bytes>)
    ensures var i := Sample(port, text);
            && ServiceType(i) == [98, DOT, 99] + [DOT] && InstanceName(i) == [97, DOT, 98, DOT, 99] + [DOT]
            && NormalizeName(i.host) == [100] + [DOT] && NormalizeName([100]) == [100] + [DOT]
  {
    assert EnsureDomain([99]) == [99, DOT];
  }

  lemma SampleIsSmall(port: U16, text: seq<Bytes>)
    requires EmitStrings(WrittenText(text)).error == None && |EmitStrings(WrittenText(text)).bytes| <= 4000
    ensures SmallInstance(Sample(port, text)) && ProperInstance(Sample(port, text))
  {
    hide NormalizeName, Sendable, ProperName, ServiceType, InstanceName, EmitStrings, WrittenText;
    SampleNames(port, text);
    PlainName([98, DOT, 99]);
    PlainName([97, DOT, 98, DOT, 99]);
    PlainName([100]);
    HostProper([100]);
  }

  /** It does happen: a service without text whose probe is sent, comes back and beats its sender. */
  lemma OwnLoopbackHappens(port: U16)
    ensures var i := Sample(port, []);
            && ProperInstance(i) && Pack(Probe(ServiceRecords(i))).Ok? && Unpack(Pack(Probe(ServiceRecords(i))).value).Ok?
            && OnPacket(StateProbing, ServiceRecords(i), Unpack(Pack(Probe(ServiceRecords(i))).value).value.authorities)
                 == StateConflictLost
  {
    hide ProperInstance, SmallInstance, ServiceRecords, Pack, Unpack, OnPacket;
    NoTextWritten();
    SampleIsSmall(port, []);
    SmallProbeReads(Sample(port, []));
    OwnLoopback(Sample(port, []), StateProbing);
  }

  lemma NoTextWritten()
    ensures EmitStrings(WrittenText([])).error == None && |EmitStrings(WrittenText([])).bytes| == 1
  {
    var one: seq<Bytes> := [[]];
    assert one[1..] == [];
  }
}
