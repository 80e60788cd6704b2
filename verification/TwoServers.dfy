/** Two servers on one network that want the same instance name: sections 8.1, 8.2 and 9 of RFC 6762.
    Probes travel through the codec; the network may lose, repeat and reorder their records, and a
    server hears its own probes too. */
module TwoServers {
  import opened Octets
  import opened Names
  import opened Records
  import opened Messages
  import opened Tiebreak
  import opened Services
  import opened Probing
  import opened Renaming
  import opened Lifecycle

  // ----- renaming keeps names proper -----

  lemma JoinedLabels(a: Bytes, b: Bytes)
    ensures NoEmptyLabel(a + [DOT] + b) <==> NoEmptyLabel(a) && NoEmptyLabel(b)
  {
    var s := a + [DOT] + b;
    assert |s| == |a| + 1 + |b|;
    assert forall k :: 0 <= k < |a| ==> s[k] == a[k];
    assert forall k :: 0 <= k < |b| ==> s[|a| + 1 + k] == b[k];
    assert s[|a|] == DOT;
    if NoEmptyLabel(s) {
      assert |a| > 0 ==> s[|a| - 1] != DOT;
      assert |b| > 0 ==> s[|a| + 1] != DOT;
      forall k | 0 <= k < |b| - 1
        ensures b[k] != DOT || b[k + 1] != DOT
      {
        assert s[|a| + 1 + k] != DOT || s[|a| + 1 + k + 1] != DOT;
      }
    }
  }

  lemma NumberedLabels(name: Bytes, stem: nat, n: int)
    requires NoEmptyLabel(name) && 0 < stem <= |name| && MIN_INT <= n <= MAX_INT
    ensures NoEmptyLabel(WithNumber(name[..stem], n))
  {
    hide Itoa, Atoi;
    ItoaReads(n);
    var s := WithNumber(name[..stem], n);
    assert forall k :: 0 <= k < stem ==> s[k] == name[k];
    assert s[stem] == SPACE && s[stem + 1] == OPEN && s[|s| - 1] == CLOSE;
    assert forall k :: stem + 2 <= k < |s| - 1 ==> s[k] == Itoa(n)[k - stem - 2];
  }

  lemma RenamedLabels(name: Bytes)
    requires NoEmptyLabel(name)
    ensures NoEmptyLabel(IncrementNameSuffix(name))
  {
    hide SplitSuffix, WithNumber, NoEmptyLabel;
    SplitNumber(name);
    NonEmpty(name);
    var s := SplitSuffix(name);
    NumberedLabels(name, s.stem, if s.stem < |name| then Successor(s.number) else 2);
  }

  lemma NonEmpty(name: Bytes)
    requires NoEmptyLabel(name)
    ensures name != []
  {
  }

  lemma InstanceLabels(i: Instance)
    ensures ProperName(InstanceName(i)) <==> NoEmptyLabel(i.name) && NoEmptyLabel(ServiceType(i)[..|ServiceType(i)| - 1])
  {
    hide NoEmptyLabel, Proper, ServiceType, NormalizeName;
    InstanceNameDotted(i);
    var t, n := ServiceType(i), InstanceName(i);
    assert n[..|n| - 1] == i.name + [DOT] + t[..|t| - 1];
    assert |n| >= 2;
    ProperMeans(n[..|n| - 1]);
    JoinedLabels(i.name, t[..|t| - 1]);
  }

  /** A service keeps proper names however often it is renamed. */
  lemma {:induction false} RenamedProper(i: Instance, n: nat)
    requires ProperInstance(i)
    ensures ProperInstance(i.(name := Renamed(i.name, n)))
  {
    hide ProperName, NoEmptyLabel, IncrementNameSuffix, InstanceName, ServiceType;
    if n == 0 {
      assert i.(name := Renamed(i.name, 0)) == i;
    } else {
      var before, after := i.(name := Renamed(i.name, n - 1)), i.(name := Renamed(i.name, n));
      RenamedProper(i, n - 1);
      SameType(before, after.name);
      InstanceLabels(before);
      InstanceLabels(after);
      RenamedLabels(before.name);
    }
  }

  // ----- what is heard of a probe -----

  /** The records of a probe as a receiver parses them; a probe that does not pack is not sent, and
      one that does not parse is dropped. */
  function OnWire(records: seq<ResourceRecord>): seq<ResourceRecord> {
    match Pack(Probe(records))
    case Err(_) => []
    case Ok(data) =>
      match Unpack(data)
      case Err(_) => []
      case Ok(m) => m.authorities
  }

  lemma OnWireIs(i: Instance)
    requires ProperInstance(i)
    ensures OnWire(ServiceRecords(i)) == [] || OnWire(ServiceRecords(i)) == NormalRecords(ServiceRecords(i))
    ensures OnWire(ServiceRecords(i)) != [] ==> Addressable(i)
  {
    hide Pack, Unpack, ServiceRecords, ProperMessage, NormalRecords, ProbeQuestions;
    if Pack(Probe(ServiceRecords(i))).Ok? {
      ProbePacked(i);
      ProbeProper(i);
      MessageRoundTrip(Probe(ServiceRecords(i)));
    }
  }

  lemma NormalSrvCanonical(i: Instance)
    ensures CanonicalRdata(NormalRecord(SrvRecord(i))) == CanonicalRdata(SrvRecord(i))
    ensures NormalRecord(SrvRecord(i)).rtype == TYPE_SRV
    ensures LowerName(NormalRecord(SrvRecord(i)).name) == LowerName(InstanceName(i))
  {
    hide NormalizeName, LowerName, NormalRecord, InstanceName, EmitName, Put16;
    InstanceNameDotted(i);
    NormalFields(SrvRecord(i));
  }

  // ----- the tie -----

  /** Two instances of one service name whose SRV records differ. */
  predicate Contest(a: Instance, b: Instance) {
    LowerName(InstanceName(a)) == LowerName(InstanceName(b)) && !RecordsEqual(SrvRecord(a), SrvRecord(b))
  }

  lemma SrvEqualityOnWire(a: Instance, b: Instance)
    ensures RecordsEqual(SrvRecord(b), NormalRecord(SrvRecord(a))) <==> RecordsEqual(SrvRecord(a), SrvRecord(b))
  {
    hide NormalizeName, LowerName, NormalRecord, InstanceName;
    InstanceNameDotted(a);
    NormalFields(SrvRecord(a));
  }

  lemma EqualSrvSameBytes(a: Instance, b: Instance)
    requires RecordsEqual(SrvRecord(a), SrvRecord(b))
    ensures CanonicalRdata(SrvRecord(a)) == CanonicalRdata(SrvRecord(b))
  {
    hide LowerName, NormalizeName, InstanceName, EmitName, Put16;
    HostProper(a.host);
    HostProper(b.host);
  }

  /** A server that hears the SRV record of another of its name loses exactly if its own is the lesser. */
  lemma SrvVerdict(mine: Instance, theirs: Instance)
    requires LowerName(InstanceName(mine)) == LowerName(InstanceName(theirs))
    ensures Loses(ServiceRecords(mine), NormalRecord(SrvRecord(theirs))) <==> ProbeLoses(SrvRecord(mine), SrvRecord(theirs))
  {
    hide LowerName, NormalRecord, InstanceName, Judge, ServiceRecords, RecordsEqual, CanonicalRdata, Less;
    var ns, records := NormalRecord(SrvRecord(theirs)), ServiceRecords(mine);
    NormalSrvCanonical(theirs);
    SrvEqualityOnWire(theirs, mine);
    SymmetricSrv(mine, theirs);
    ServiceRecordAt(mine, 1);
    if RecordsEqual(SrvRecord(mine), SrvRecord(theirs)) {
      JudgeOurs(records, ns, 1);
      EqualSrvSameBytes(mine, theirs);
      LessAsymmetric(CanonicalRdata(SrvRecord(mine)), CanonicalRdata(SrvRecord(mine)));
    } else {
      forall k | 0 <= k < |records| && k != 1
        ensures !Rival(records[k], ns)
      {
        ServiceRecordAt(mine, k);
      }
      JudgeSingle(records, ns, 1);
    }
  }

  lemma SymmetricSrv(a: Instance, b: Instance)
    ensures RecordsEqual(SrvRecord(a), SrvRecord(b)) <==> RecordsEqual(SrvRecord(b), SrvRecord(a))
  {
    hide LowerName, NormalizeName, InstanceName;
  }

  /** Of two contestants exactly one loses to the other's SRV record. */
  lemma ExactlyOneLosesOnSrv(a: Instance, b: Instance)
    requires Contest(a, b) && CarriedName(NormalizeName(a.host)) && CarriedName(NormalizeName(b.host))
    ensures Loses(ServiceRecords(a), NormalRecord(SrvRecord(b))) <==> !Loses(ServiceRecords(b), NormalRecord(SrvRecord(a)))
  {
    hide LowerName, NormalRecord, InstanceName, Loses, ServiceRecords, RecordsEqual, ProbeLoses, CarriedName;
    SymmetricSrv(a, b);
    SrvVerdict(a, b);
    SrvVerdict(b, a);
    VerdictsAreOpposite(SrvRecord(a), SrvRecord(b));
  }

  /** The text of mine is less than that of theirs as it is written. */
  predicate TextBeaten(mine: Instance, theirs: Instance) {
    Less(CanonicalText(mine.text), CanonicalText(WrittenText(theirs.text)))
  }

  lemma TxtVerdict(mine: Instance, theirs: Instance)
    requires LowerName(InstanceName(mine)) == LowerName(InstanceName(theirs))
    ensures Loses(ServiceRecords(mine), NormalRecord(TxtRecord(theirs))) <==> TextBeaten(mine, theirs)
  {
    hide LowerName, NormalizeName, NormalRecord, InstanceName, Judge, ServiceRecords, CanonicalText, Less, WrittenText;
    var ns, records := NormalRecord(TxtRecord(theirs)), ServiceRecords(mine);
    InstanceNameDotted(theirs);
    NormalFields(TxtRecord(theirs));
    ServiceRecordAt(mine, 2);
    if mine.text == WrittenText(theirs.text) {
      JudgeOurs(records, ns, 2);
      LessAsymmetric(CanonicalText(mine.text), CanonicalText(mine.text));
    } else {
      forall k | 0 <= k < |records| && k != 2
        ensures !Rival(records[k], ns)
      {
        ServiceRecordAt(mine, k);
      }
      JudgeSingle(records, ns, 2);
    }
  }

  // ----- addresses -----

  /** An address as its record is sent, empty where it has no form. */
  function WireIp(ip: Bytes): Bytes {
    if To4(ip).Some? then To4(ip).value else if To16(ip).Some? then To16(ip).value else []
  }

  /** An address as a service's own record holds it. */
  function RecordIp(ip: Bytes): Bytes {
    if To4(ip).Some? then To4(ip).value else ip
  }

  predicate SameFamily(a: Bytes, b: Bytes) {
    To4(a).Some? <==> To4(b).Some?
  }

  predicate KnownAddress(ips: seq<Bytes>, ip: Bytes) {
    exists j :: 0 <= j < |ips| && SameFamily(ips[j], ip) && IpEqual(RecordIp(ips[j]), WireIp(ip))
  }

  /** The last address of the family of ip. */
  function LastKin(ips: seq<Bytes>, ip: Bytes): Option<Bytes> {
    if ips == [] then None
    else if SameFamily(ips[|ips| - 1], ip) then Some(ips[|ips| - 1])
    else LastKin(ips[..|ips| - 1], ip)
  }

  /** ip is not among ips, and the last of its family there is less. */
  predicate Outdone(ips: seq<Bytes>, ip: Bytes) {
    !KnownAddress(ips, ip) && LastKin(ips, ip).Some? && Less(WireIp(LastKin(ips, ip).value), WireIp(ip))
  }

  /** Two services on one host name, one of whose addresses outdoes those of mine. */
  predicate AddressBeaten(mine: Instance, theirs: Instance) {
    && LowerName(NormalizeName(mine.host)) == LowerName(NormalizeName(theirs.host))
    && exists k :: 0 <= k < |theirs.ips| && Outdone(mine.ips, theirs.ips[k])
  }

  lemma AddressBytes(i: Instance, ip: Bytes)
    ensures CanonicalRdata(AddressRecord(i, ip)) == WireIp(ip)
    ensures CanonicalRdata(NormalRecord(AddressRecord(i, ip))) == WireIp(ip)
    ensures AddressRecord(i, ip).ip == RecordIp(ip) && NormalRecord(AddressRecord(i, ip)).ip == WireIp(ip)
  {
    hide NormalizeName, LowerName;
  }

  lemma AddressRivals(mine: Instance, theirs: Instance, own: Bytes, ip: Bytes)
    ensures var ns := NormalRecord(AddressRecord(theirs, ip));
            var sameHost := LowerName(NormalizeName(mine.host)) == LowerName(NormalizeName(theirs.host));
            && (Rival(AddressRecord(mine, own), ns) <==> sameHost && SameFamily(own, ip))
            && (Rival(AddressRecord(mine, own), ns) ==>
                  (RecordsEqual(AddressRecord(mine, own), ns) <==> IpEqual(RecordIp(own), WireIp(ip))))
  {
    hide NormalizeName, LowerName, NormalRecord, To4, To16, IpEqual;
    HostProper(theirs.host);
    NormalFields(AddressRecord(theirs, ip));
    AddressBytes(mine, own);
    AddressBytes(theirs, ip);
  }

  /** Another host's address is no rival, nor is an address any rival of the other records. */
  lemma OtherNoRival(mine: Instance, theirs: Instance, ip: Bytes, k: nat)
    requires k < 3
    ensures !Rival(ServiceRecords(mine)[k], NormalRecord(AddressRecord(theirs, ip)))
  {
    hide NormalizeName, LowerName, NormalRecord, InstanceName, ServiceType, ServiceRecords;
    ServiceRecordAt(mine, k);
    NormalFields(AddressRecord(theirs, ip));
    AddressTypes(theirs, ip);
  }

  lemma AddressTypes(i: Instance, ip: Bytes)
    ensures AddressRecord(i, ip).rtype == if To4(ip).Some? then TYPE_A else TYPE_AAAA
  {
  }

  lemma JudgeSnoc(records: seq<ResourceRecord>, last: ResourceRecord, ns: ResourceRecord)
    ensures Judge(records + [last], ns) ==
            if Judge(records, ns).Ours? || !Rival(last, ns) then Judge(records, ns)
            else if RecordsEqual(last, ns) then Ours else Conflict(last)
  {
    hide Rival, RecordsEqual;
    assert (records + [last])[..|records|] == records;
  }

  lemma KnownSnoc(ips: seq<Bytes>, j: nat, ip: Bytes)
    requires j < |ips|
    ensures KnownAddress(ips[..j + 1], ip) <==>
              KnownAddress(ips[..j], ip) || (SameFamily(ips[j], ip) && IpEqual(RecordIp(ips[j]), WireIp(ip)))
    ensures LastKin(ips[..j + 1], ip) == if SameFamily(ips[j], ip) then Some(ips[j]) else LastKin(ips[..j], ip)
  {
    hide SameFamily, IpEqual, RecordIp, WireIp;
    assert ips[..j + 1][..j] == ips[..j];
    if KnownAddress(ips[..j], ip) {
      var i :| 0 <= i < j && SameFamily(ips[..j][i], ip) && IpEqual(RecordIp(ips[..j][i]), WireIp(ip));
      assert ips[..j + 1][i] == ips[..j][i];
    }
    if SameFamily(ips[j], ip) && IpEqual(RecordIp(ips[j]), WireIp(ip)) {
      assert ips[..j + 1][j] == ips[j];
    }
  }

  /** The verdict on an address of a service on the same host, from the first j addresses of mine. */
  lemma {:induction false} JudgeAddresses(mine: Instance, theirs: Instance, ip: Bytes, j: nat)
    requires LowerName(NormalizeName(mine.host)) == LowerName(NormalizeName(theirs.host)) && j <= |mine.ips|
    ensures Judge(ServiceRecords(mine)[..3 + j], NormalRecord(AddressRecord(theirs, ip))) ==
            if KnownAddress(mine.ips[..j], ip) then Ours
            else match LastKin(mine.ips[..j], ip)
              case None => Unrelated
              case Some(own) => Conflict(AddressRecord(mine, own))
  {
    hide Judge, ServiceRecords, AddressRecord, NormalRecord, Rival, RecordsEqual, KnownAddress, SameFamily, IpEqual,
         NormalizeName, LowerName, RecordIp, WireIp;
    var records, ns := ServiceRecords(mine), NormalRecord(AddressRecord(theirs, ip));
    if j == 0 {
      forall k | 0 <= k < 3
        ensures !Rival(records[..3][k], ns)
      {
        OtherNoRival(mine, theirs, ip, k);
      }
      JudgeUnrelated(records[..3], ns);
      NoKin(ip);
    } else {
      JudgeAddresses(mine, theirs, ip, j - 1);
      assert records[..3 + j] == records[..3 + (j - 1)] + [records[3 + (j - 1)]];
      ServiceRecordAt(mine, 3 + (j - 1));
      JudgeSnoc(records[..3 + (j - 1)], records[3 + (j - 1)], ns);
      AddressRivals(mine, theirs, mine.ips[j - 1], ip);
      KnownSnoc(mine.ips, j - 1, ip);
    }
  }

  lemma NoKin(ip: Bytes)
    ensures !KnownAddress([], ip) && LastKin([], ip) == None
  {
  }

  /** A server loses to an address of another exactly if both have one host name and the address
      outdoes its own. */
  lemma AddressVerdict(mine: Instance, theirs: Instance, ip: Bytes)
    ensures Loses(ServiceRecords(mine), NormalRecord(AddressRecord(theirs, ip))) <==>
              LowerName(NormalizeName(mine.host)) == LowerName(NormalizeName(theirs.host)) && Outdone(mine.ips, ip)
  {
    hide Judge, ServiceRecords, AddressRecord, NormalRecord, Rival, KnownAddress, LastKin, NormalizeName, LowerName, WireIp,
         CanonicalRdata, Less;
    var records, ns := ServiceRecords(mine), NormalRecord(AddressRecord(theirs, ip));
    if LowerName(NormalizeName(mine.host)) == LowerName(NormalizeName(theirs.host)) {
      JudgeAddresses(mine, theirs, ip, |mine.ips|);
      assert records[..3 + |mine.ips|] == records && mine.ips[..|mine.ips|] == mine.ips;
      AddressBytes(theirs, ip);
      if LastKin(mine.ips, ip).Some? {
        AddressBytes(mine, LastKin(mine.ips, ip).value);
      }
    } else {
      forall k | 0 <= k < |records|
        ensures !Rival(records[k], ns)
      {
        if k < 3 {
          OtherNoRival(mine, theirs, ip, k);
        } else {
          ServiceRecordAt(mine, k);
          AddressRivals(mine, theirs, mine.ips[k - 3], ip);
        }
      }
      JudgeUnrelated(records, ns);
    }
  }

  // ----- whole probes -----

  /** Some record of a full probe of theirs makes a server with these records lose. */
  predicate LosesToProbe(mine: Instance, theirs: Instance) {
    exists k :: 0 <= k < |ServiceRecords(theirs)| && Loses(ServiceRecords(mine), NormalRecord(ServiceRecords(theirs)[k]))
  }

  predicate Beaten(mine: Instance, theirs: Instance) {
    ProbeLoses(SrvRecord(mine), SrvRecord(theirs)) || TextBeaten(mine, theirs) || AddressBeaten(mine, theirs)
  }

  /** Against the full probe of a service of its name, on any host and with any text, a server loses
      exactly if its SRV record, its text or its addresses are beaten. */
  lemma ProbeVerdict(mine: Instance, theirs: Instance)
    requires LowerName(InstanceName(mine)) == LowerName(InstanceName(theirs))
    ensures LosesToProbe(mine, theirs) <==> Beaten(mine, theirs)
  {
    hide LowerName, NormalizeName, NormalRecord, InstanceName, Loses, ServiceRecords, ProbeLoses, SrvRecord, TxtRecord,
         PtrRecord, AddressRecord, TextBeaten, Outdone;
    var records := ServiceRecords(theirs);
    SrvVerdict(mine, theirs);
    TxtVerdict(mine, theirs);
    PtrHarmless(mine, theirs);
    ServiceRecordAt(theirs, 0);
    ServiceRecordAt(theirs, 1);
    ServiceRecordAt(theirs, 2);
    forall k | 3 <= k < |records|
      ensures Loses(ServiceRecords(mine), NormalRecord(records[k])) <==>
                LowerName(NormalizeName(mine.host)) == LowerName(NormalizeName(theirs.host)) && Outdone(mine.ips, theirs.ips[k - 3])
    {
      ServiceRecordAt(theirs, k);
      AddressVerdict(mine, theirs, theirs.ips[k - 3]);
    }
    if AddressBeaten(mine, theirs) {
      var j :| 0 <= j < |theirs.ips| && Outdone(mine.ips, theirs.ips[j]);
      assert Loses(ServiceRecords(mine), NormalRecord(records[3 + j]));
    }
    assert Loses(ServiceRecords(mine), NormalRecord(records[1])) <==> ProbeLoses(SrvRecord(mine), SrvRecord(theirs));
    assert Loses(ServiceRecords(mine), NormalRecord(records[2])) <==> TextBeaten(mine, theirs);
  }

  /** Both texts beat one another exactly if there is none on either side: what is written for no
      text is more than no text. */
  lemma TextsBothBeaten(a: Instance, b: Instance)
    ensures TextBeaten(a, b) && TextBeaten(b, a) <==> a.text == [] && b.text == []
  {
    hide Less;
    EmptyText();
    if a.text != [] && b.text != [] {
      LessAsymmetric(CanonicalText(a.text), CanonicalText(b.text));
    } else if a.text == [] && b.text == [] {
      NothingIsLess([0]);
    } else if a.text == [] {
      LessThanZero(CanonicalText(b.text));
    } else {
      LessThanZero(CanonicalText(a.text));
    }
  }

  lemma EmptyText()
    ensures CanonicalText([]) == [] && CanonicalText([[]]) == [0]
  {
  }

  lemma NothingIsLess(s: Bytes)
    requires s != []
    ensures Less([], s)
  {
  }

  lemma LessThanZero(s: Bytes)
    requires s != []
    ensures !Less(s, [0])
  {
  }

  /** The comparison of one kind of record goes against a, that of another kind against b. */
  predicate Crossed(a: Instance, b: Instance) {
    || (ProbeLoses(SrvRecord(a), SrvRecord(b)) && (TextBeaten(b, a) || AddressBeaten(b, a)))
    || (TextBeaten(a, b) && AddressBeaten(b, a))
  }

  /** SRV, TXT and addresses are tied separately: two services of one name both lose to each other's
      full probe exactly when two of these ties go to different sides, or neither has a text, or
      addresses beat both. */
  lemma BothLoseIff(a: Instance, b: Instance)
    requires LowerName(InstanceName(a)) == LowerName(InstanceName(b))
    ensures LosesToProbe(a, b) && LosesToProbe(b, a) <==>
      || Crossed(a, b) || Crossed(b, a)
      || (a.text == [] && b.text == [])
      || (AddressBeaten(a, b) && AddressBeaten(b, a))
  {
    hide LowerName, InstanceName, LosesToProbe, CanonicalRdata, Less, TextBeaten, AddressBeaten;
    ProbeVerdict(a, b);
    ProbeVerdict(b, a);
    LessAsymmetric(CanonicalRdata(SrvRecord(a)), CanonicalRdata(SrvRecord(b)));
    TextsBothBeaten(a, b);
  }

  /** In particular, between contestants on different hosts and with texts: exactly when the texts
      differ and the two ties go to different sides. */
  lemma BothLoseAcrossHosts(a: Instance, b: Instance)
    requires Contest(a, b) && CarriedName(NormalizeName(a.host)) && CarriedName(NormalizeName(b.host))
    requires LowerName(NormalizeName(a.host)) != LowerName(NormalizeName(b.host))
    requires a.text != [] && b.text != [] && TextFits(a.text) && TextFits(b.text)
    ensures LosesToProbe(a, b) && LosesToProbe(b, a) <==>
      && a.text != b.text
      && (ProbeLoses(SrvRecord(a), SrvRecord(b)) <==> ProbeLoses(TxtRecord(b), TxtRecord(a)))
  {
    hide LowerName, NormalizeName, InstanceName, LosesToProbe, Less, CarriedName, CanonicalText;
    SymmetricSrv(a, b);
    BothLoseIff(a, b);
    VerdictsAreOpposite(SrvRecord(a), SrvRecord(b));
    VerdictsAreOpposite(TxtRecord(a), TxtRecord(b));
  }

  // ----- the system -----

  /** Both servers, and every record that was ever on the wire. The sides are called by the outcome
      of their first tie; they run the same steps. */
  datatype System = System(winner: Party, loser: Party, wire: set<ResourceRecord>)

  datatype Move = ByWinner(e: Event) | ByLoser(e: Event)

  function Mover(s: System, m: Move): Party {
    if m.ByWinner? then s.winner else s.loser
  }

  /** A server hears only what was sent, in any order and any number of times; a probe that does not
      pack is not sent. */
  predicate CanMove(s: System, m: Move) {
    && Enabled(Mover(s, m), m.e)
    && (m.e.Hear? ==> m.e.ns in s.wire)
    && (m.e == Send ==> Pack(Probe(Mover(s, m).records)).Ok?)
  }

  function Elements(rrs: seq<ResourceRecord>): set<ResourceRecord> {
    set k | 0 <= k < |rrs| :: rrs[k]
  }

  function Moved(s: System, m: Move): System
    requires CanMove(s, m)
  {
    var p := Mover(s, m);
    var wire := if m.e == Send then s.wire + Elements(OnWire(p.records)) else s.wire;
    if m.ByWinner? then System(Step(p, m.e), s.loser, wire) else System(s.winner, Step(p, m.e), wire)
  }

  predicate IsSystemRun(states: seq<System>, ms: seq<Move>) {
    && |states| == |ms| + 1
    && forall k :: 0 <= k < |ms| ==> CanMove(states[k], ms[k]) && states[k + 1] == Moved(states[k], ms[k])
  }

  function Start(winner: Instance, loser: Instance): System {
    System(Fresh(winner), Fresh(loser), {})
  }

  /** The two SRV records are the only ones of the two services that conflict, and the tie between
      them goes to the first; the winner has text, without which it would lose to itself. */
  predicate OnlySrvConflicts(winner: Instance, loser: Instance) {
    && Contest(winner, loser)
    && !ProbeLoses(SrvRecord(winner), SrvRecord(loser))
    && winner.text != []
    && forall k :: 0 <= k < |ServiceRecords(loser)| && k != 1 ==>
         !Judge(ServiceRecords(winner), NormalRecord(ServiceRecords(loser)[k])).Conflict?
  }

  /** Under another name nothing of the loser's rivals the winner's SRV and TXT records. */
  lemma RenamedNoRival(winner: Instance, loser: Instance, n: nat, k: nat)
    requires LowerName(InstanceName(winner)) == LowerName(InstanceName(loser))
    requires n > 0 && (k == 1 || k == 2)
    ensures var other := loser.(name := Renamed(loser.name, n));
            Judge(ServiceRecords(winner), NormalRecord(ServiceRecords(other)[k])) == Unrelated
  {
    hide NormalizeName, LowerName, NormalRecord, InstanceName, Judge, ServiceRecords, Renamed;
    var other := loser.(name := Renamed(loser.name, n));
    var records, ns := ServiceRecords(winner), NormalRecord(ServiceRecords(other)[k]);
    ServiceRecordAt(other, k);
    InstanceNameDotted(other);
    NormalFields(ServiceRecords(other)[k]);
    RenamedInstanceName(loser, n);
    forall j | 0 <= j < |records|
      ensures !Rival(records[j], ns)
    {
      ServiceRecordAt(winner, j);
    }
    JudgeUnrelated(records, ns);
  }

  lemma RenamedInstanceName(i: Instance, n: nat)
    requires n > 0
    ensures LowerName(InstanceName(i.(name := Renamed(i.name, n)))) != LowerName(InstanceName(i))
  {
    hide Renamed, NormalizeName, LowerName, ServiceType;
    var j := i.(name := Renamed(i.name, n));
    RenamingNeverRepeats(i.name, 0, n);
    assert Renamed(i.name, 0) == i.name by { RenamedZero(i.name); }
    SameType(i, j.name);
    LowerConcat(i.name, [DOT] + ServiceType(i));
    LowerConcat(j.name, [DOT] + ServiceType(i));
    assert InstanceName(i) == i.name + ([DOT] + ServiceType(i));
    assert InstanceName(j) == j.name + ([DOT] + ServiceType(i));
    if LowerName(InstanceName(i)) == LowerName(InstanceName(j)) {
      SuffixCancels(LowerName(i.name), LowerName(j.name), LowerName([DOT] + ServiceType(i)));
    }
  }

  lemma RenamedZero(name: Bytes)
    ensures Renamed(name, 0) == name
  {
  }

  lemma SuffixCancels(a: Bytes, b: Bytes, c: Bytes)
    requires a + c == b + c
    ensures a == b
  {
    assert |a| == |b|;
    assert a == (a + c)[..|a|] && b == (b + c)[..|b|];
  }

  /** No record of the loser's, under any of its names, makes the winner lose. */
  lemma LoserIsHarmless(winner: Instance, loser: Instance, n: nat, k: nat)
    requires OnlySrvConflicts(winner, loser) && Addressable(loser.(name := Renamed(loser.name, n)))
    requires k < |ServiceRecords(loser.(name := Renamed(loser.name, n)))|
    ensures !Loses(ServiceRecords(winner), NormalRecord(ServiceRecords(loser.(name := Renamed(loser.name, n)))[k]))
  {
    hide LowerName, NormalRecord, InstanceName, Judge, ServiceRecords, Renamed, RecordsEqual, ProbeLoses;
    var other := loser.(name := Renamed(loser.name, n));
    if n == 0 {
      RenamedZero(loser.name);
      assert other == loser;
      if k == 1 {
        ServiceRecordAt(loser, 1);
        SrvVerdict(winner, loser);
      }
    } else if k == 1 || k == 2 {
      RenamedNoRival(winner, loser, n, k);
    } else if k == 0 {
      ServiceRecordAt(other, 0);
      PtrHarmless(winner, other);
    } else {
      SameAddress(loser, other.name, k);
    }
  }

  lemma PtrHarmless(winner: Instance, other: Instance)
    ensures !Loses(ServiceRecords(winner), NormalRecord(PtrRecord(other)))
  {
    hide LowerName, NormalizeName, NormalRecord, InstanceName, ServiceType, Judge, ServiceRecords;
    NormalFields(PtrRecord(other));
    var records := ServiceRecords(winner);
    forall j | 0 <= j < |records|
      ensures !Rival(records[j], NormalRecord(PtrRecord(other)))
    {
      ServiceRecordAt(winner, j);
    }
    JudgeUnrelated(records, NormalRecord(PtrRecord(other)));
  }

  lemma SameAddress(i: Instance, name: Bytes, k: nat)
    requires 3 <= k < |ServiceRecords(i)|
    ensures |ServiceRecords(i.(name := name))| == |ServiceRecords(i)|
    ensures ServiceRecords(i.(name := name))[k] == ServiceRecords(i)[k]
  {
    hide NormalizeName, To4;
    ServiceRecordAt(i, k);
    ServiceRecordAt(i.(name := name), k);
  }

  predicate IsRenaming(i: Instance, first: Instance, n: nat) {
    i == first.(name := Renamed(first.name, n))
  }

  /** The winner has its first name, the loser one of its own, and nothing on the wire can beat the
      winner. */
  ghost predicate SystemInv(s: System, winner: Instance, loser: Instance) {
    && s.winner.instance == winner && s.winner.records == ServiceRecords(winner)
    && s.winner.state != StateConflictLost
    && s.winner.phase != Decided(StateConflictLost)
    && s.loser.records == ServiceRecords(s.loser.instance)
    && (exists n: nat :: IsRenaming(s.loser.instance, loser, n))
    && forall ns :: ns in s.wire ==> !Loses(ServiceRecords(winner), ns)
  }

  lemma WireHarmless(winner: Instance, loser: Instance, i: Instance)
    requires OnlySrvConflicts(winner, loser) && ProperInstance(winner) && ProperInstance(loser)
    requires i == winner || exists n: nat :: IsRenaming(i, loser, n)
    ensures forall ns :: ns in Elements(OnWire(ServiceRecords(i))) ==> !Loses(ServiceRecords(winner), ns)
  {
    hide OnWire, ServiceRecords, Loses, NormalRecord, ProperInstance, OnlySrvConflicts, Renamed;
    forall ns | ns in Elements(OnWire(ServiceRecords(i)))
      ensures !Loses(ServiceRecords(winner), ns)
    {
      var records := ServiceRecords(i);
      var k :| 0 <= k < |OnWire(records)| && OnWire(records)[k] == ns;
      if i == winner {
        OnWireIs(i);
        OwnRecordVerdict(i, k);
        WinnerHasText(winner, loser);
      } else {
        var n: nat :| IsRenaming(i, loser, n);
        RenamedProper(loser, n);
        OnWireIs(i);
        LoserIsHarmless(winner, loser, n, k);
      }
    }
  }

  lemma WinnerHasText(winner: Instance, loser: Instance)
    requires OnlySrvConflicts(winner, loser)
    ensures winner.text != []
  {
  }

  lemma MoveKeepsInv(s: System, m: Move, winner: Instance, loser: Instance)
    requires OnlySrvConflicts(winner, loser) && ProperInstance(winner) && ProperInstance(loser)
    requires SystemInv(s, winner, loser) && CanMove(s, m)
    ensures SystemInv(Moved(s, m), winner, loser)
  {
    hide OnWire, ServiceRecords, Loses, ProperInstance, OnlySrvConflicts, Renamed, Elements, IncrementNameSuffix, Pack;
    var n: nat :| IsRenaming(s.loser.instance, loser, n);
    WireHarmless(winner, loser, winner);
    WireHarmless(winner, loser, s.loser.instance);
    RenamedOnce(loser, n);
    assert IsRenaming(Moved(s, m).loser.instance, loser, n) || IsRenaming(Moved(s, m).loser.instance, loser, n + 1);
  }

  lemma RenamedOnce(i: Instance, n: nat)
    ensures RenamedInstance(i.(name := Renamed(i.name, n))) == i.(name := Renamed(i.name, n + 1))
  {
    hide IncrementNameSuffix;
  }

  /** In every run of the two servers, whatever is lost, repeated or reordered and however often the
      loser comes back under another name, the winner never gives its name up. */
  lemma {:induction false} WinnerNeverLoses(states: seq<System>, ms: seq<Move>, winner: Instance, loser: Instance, k: nat)
    requires OnlySrvConflicts(winner, loser) && ProperInstance(winner) && ProperInstance(loser)
    requires IsSystemRun(states, ms) && states[0] == Start(winner, loser) && k < |states|
    ensures SystemInv(states[k], winner, loser)
    ensures states[k].winner.state != StateConflictLost
  {
    hide CanMove, Moved, ProperInstance, OnlySrvConflicts, Renamed, Loses, ServiceRecords;
    if k == 0 {
      RenamedZero(loser.name);
      assert IsRenaming(states[0].loser.instance, loser, 0);
    } else {
      WinnerNeverLoses(states, ms, winner, loser, k - 1);
      MoveKeepsInv(states[k - 1], ms[k - 1], winner, loser);
    }
  }

  /** A probing server loses, at once, when it hears the SRV record of a rival it is less than. */
  lemma HearingSrvDecides(p: Party, mine: Instance, theirs: Instance)
    requires LowerName(InstanceName(mine)) == LowerName(InstanceName(theirs)) && p.records == ServiceRecords(mine) && p.state == StateProbing
    requires Enabled(p, Hear(NormalRecord(SrvRecord(theirs))))
    ensures Step(p, Hear(NormalRecord(SrvRecord(theirs)))).state ==
              if ProbeLoses(SrvRecord(mine), SrvRecord(theirs)) then StateConflictLost else StateProbing
  {
    hide LowerName, InstanceName, ServiceRecords, NormalRecord, SrvRecord, Loses, ProbeLoses;
    SrvVerdict(mine, theirs);
  }

  /** A move by which side hears the other's SRV record while it probes under its first name. */
  predicate HearsContestant(s: System, m: Move, mine: Instance, theirs: Instance) {
    && m.e == Hear(NormalRecord(SrvRecord(theirs)))
    && Mover(s, m).state == StateProbing && Mover(s, m).records == ServiceRecords(mine)
  }

  /** Simultaneous probes under one name are decided in every interleaving: if each side hears the
      other's SRV record while probing, at least one has lost by then. */
  lemma TieIsBroken(states: seq<System>, ms: seq<Move>, a: Instance, b: Instance, i: nat, j: nat)
    requires Contest(a, b) && CarriedName(NormalizeName(a.host)) && CarriedName(NormalizeName(b.host))
    requires IsSystemRun(states, ms) && i < |ms| && j < |ms|
    requires ms[i].ByWinner? && HearsContestant(states[i], ms[i], a, b)
    requires ms[j].ByLoser? && HearsContestant(states[j], ms[j], b, a)
    ensures states[i + 1].winner.state == StateConflictLost || states[j + 1].loser.state == StateConflictLost
    ensures states[i + 1].winner.state == StateConflictLost <==> states[j + 1].loser.state != StateConflictLost
  {
    hide Contest, ServiceRecords, NormalRecord, SrvRecord, Loses, ProbeLoses, CarriedName, Step, Enabled, OnWire, Pack;
    ContestName(a, b);
    ExactlyOneLosesOnSrv(a, b);
    SrvVerdict(a, b);
    SrvVerdict(b, a);
    assert CanMove(states[i], ms[i]) && CanMove(states[j], ms[j]);
    HearingSrvDecides(states[i].winner, a, b);
    HearingSrvDecides(states[j].loser, b, a);
  }

  lemma ContestName(a: Instance, b: Instance)
    requires Contest(a, b)
    ensures LowerName(InstanceName(a)) == LowerName(InstanceName(b))
  {
  }

  /** Where SRV is the only conflict, exactly one side loses: the one that hears the greater record
      while probing loses then, and the other never does. */
  lemma ExactlyOneLoses(states: seq<System>, ms: seq<Move>, winner: Instance, loser: Instance, j: nat)
    requires OnlySrvConflicts(winner, loser) && ProperInstance(winner) && ProperInstance(loser)
    requires CarriedName(NormalizeName(winner.host)) && CarriedName(NormalizeName(loser.host))
    requires IsSystemRun(states, ms) && states[0] == Start(winner, loser) && j < |ms|
    requires ms[j].ByLoser? && HearsContestant(states[j], ms[j], loser, winner)
    ensures states[j + 1].loser.state == StateConflictLost
    ensures forall k :: 0 <= k < |states| ==> states[k].winner.state != StateConflictLost
  {
    hide Contest, ServiceRecords, NormalRecord, SrvRecord, Loses, ProbeLoses, CarriedName, Step, Enabled, OnWire, Pack,
         ProperInstance, SystemInv, Judge;
    ContestName(winner, loser);
    ExactlyOneLosesOnSrv(winner, loser);
    SrvVerdict(winner, loser);
    SrvVerdict(loser, winner);
    assert CanMove(states[j], ms[j]);
    HearingSrvDecides(states[j].loser, loser, winner);
    forall k | 0 <= k < |states|
      ensures states[k].winner.state != StateConflictLost
    {
      WinnerNeverLoses(states, ms, winner, loser, k);
    }
  }

  // ----- one name, one owner -----

  /** The loser has given up its first name, or is held up by the race of Lifecycle. */
  ghost predicate Yielded(p: Party, first: Instance) {
    || Crashed(p)
    || (Inv(p) && p.instance == first && p.state == StateConflictLost)
    || (Inv(p) && exists n: nat :: n > 0 && IsRenaming(p.instance, first, n))
  }

  lemma InvOrCrashed(p: Party, e: Event)
    requires Inv(p) && Enabled(p, e)
    ensures Inv(Step(p, e)) || Crashed(Step(p, e))
  {
    hide Inv, Step, Enabled, Crashed;
    StepKeepsInv(p, e);
  }

  lemma StepInstance(p: Party, e: Event)
    requires Enabled(p, e)
    ensures Step(p, e).instance == if e == Rename then RenamedInstance(p.instance) else p.instance
    ensures p.state == StateConflictLost && e != Rename && e != Announce && e != Begin ==> Step(p, e).state == StateConflictLost
  {
    hide ServiceRecords, OnProbe, RenamedInstance;
  }

  lemma LostMoves(p: Party, e: Event)
    requires Inv(p) && Enabled(p, e) && p.state == StateConflictLost
    ensures e != Begin && (e == Announce ==> Crashed(Step(p, e)))
  {
    hide Loses, ServiceRecords, OnProbe;
    StepKeepsInv(p, e);
  }

  lemma StepKeepsYielded(p: Party, e: Event, first: Instance)
    requires Yielded(p, first) && Enabled(p, e)
    ensures Yielded(Step(p, e), first)
  {
    hide Inv, Step, Renamed, IncrementNameSuffix;
    EnabledNotCrashed(p, e);
    InvOrCrashed(p, e);
    StepInstance(p, e);
    if p.state == StateConflictLost {
      LostMoves(p, e);
    }
    RenamedOnce(first, 0);
    RenamedZero(first.name);
    if p.instance == first && p.state == StateConflictLost {
      assert e == Rename ==> IsRenaming(Step(p, e).instance, first, 1);
    } else {
      var n: nat :| n > 0 && IsRenaming(p.instance, first, n);
      RenamedOnce(first, n);
      assert IsRenaming(Step(p, e).instance, first, n) || IsRenaming(Step(p, e).instance, first, n + 1);
    }
  }

  lemma EnabledNotCrashed(p: Party, e: Event)
    requires Enabled(p, e)
    ensures !Crashed(p)
  {
  }

  lemma LoserStep(s: System, m: Move)
    requires CanMove(s, m)
    ensures Moved(s, m).loser == if m.ByLoser? then Step(s.loser, m.e) else s.loser
    ensures m.ByLoser? ==> Enabled(s.loser, m.e)
  {
    hide Step, Enabled, OnWire, Elements, Pack;
  }

  lemma {:induction false} LoserKeepsInv(states: seq<System>, ms: seq<Move>, winner: Instance, loser: Instance, k: nat)
    requires IsSystemRun(states, ms) && states[0] == Start(winner, loser) && k < |states|
    ensures Inv(states[k].loser) || Crashed(states[k].loser)
  {
    hide CanMove, Moved, Inv, Crashed, Fresh, Enabled, Step;
    if k == 0 {
      FreshInv(loser);
    } else {
      LoserKeepsInv(states, ms, winner, loser, k - 1);
      assert CanMove(states[k - 1], ms[k - 1]);
      LoserStep(states[k - 1], ms[k - 1]);
      if ms[k - 1].ByLoser? {
        EnabledNotCrashed(states[k - 1].loser, ms[k - 1].e);
        InvOrCrashed(states[k - 1].loser, ms[k - 1].e);
      }
    }
  }

  /** The records tell the name: under another name of its sequence a service has other records. */
  lemma RecordsNameInstance(first: Instance, n: nat)
    requires ServiceRecords(first.(name := Renamed(first.name, n))) == ServiceRecords(first)
    ensures n == 0
  {
    hide ServiceRecords, InstanceName, Renamed;
    ServiceRecordAt(first, 1);
    ServiceRecordAt(first.(name := Renamed(first.name, n)), 1);
    if n > 0 {
      RenamedInstanceName(first, n);
    }
  }

  lemma HearingYields(states: seq<System>, ms: seq<Move>, winner: Instance, loser: Instance, j: nat)
    requires OnlySrvConflicts(winner, loser) && ProperInstance(winner) && ProperInstance(loser)
    requires CarriedName(NormalizeName(winner.host)) && CarriedName(NormalizeName(loser.host))
    requires IsSystemRun(states, ms) && states[0] == Start(winner, loser) && j < |ms|
    requires ms[j].ByLoser? && HearsContestant(states[j], ms[j], loser, winner)
    ensures Yielded(states[j + 1].loser, loser)
  {
    hide OnlySrvConflicts, ProperInstance, CarriedName, CanMove, Moved, Inv, Enabled, Step, ServiceRecords, NormalRecord,
         SrvRecord, Renamed, Start, Loses;
    var p, e := states[j].loser, ms[j].e;
    assert CanMove(states[j], ms[j]);
    LoserStep(states[j], ms[j]);
    WinnerNeverLoses(states, ms, winner, loser, j);
    var n: nat :| IsRenaming(p.instance, loser, n);
    RecordsNameInstance(loser, n);
    RenamedZero(loser.name);
    LoserKeepsInv(states, ms, winner, loser, j);
    EnabledNotCrashed(p, e);
    InvOrCrashed(p, e);
    StepInstance(p, e);
    ExactlyOneLoses(states, ms, winner, loser, j);
  }

  lemma {:induction false} StaysYielded(states: seq<System>, ms: seq<Move>, loser: Instance, j: nat, k: nat)
    requires IsSystemRun(states, ms) && j <= k < |states| && Yielded(states[j].loser, loser)
    ensures Yielded(states[k].loser, loser)
  {
    hide CanMove, Moved, Yielded, Enabled, Step;
    if j < k {
      StaysYielded(states, ms, loser, j, k - 1);
      assert CanMove(states[k - 1], ms[k - 1]);
      LoserStep(states[k - 1], ms[k - 1]);
      if ms[k - 1].ByLoser? {
        StepKeepsYielded(states[k - 1].loser, ms[k - 1].e, loser);
      }
    }
  }

  predicate OneName(s: System) {
    LowerName(InstanceName(s.winner.instance)) == LowerName(InstanceName(s.loser.instance))
  }

  /** What the protocol is for: where SRV is the only conflict, once the loser has heard the winner's
      SRV record while probing under their name, the two are never both announced under one name, in
      no run and at no later time, unless the race of Lifecycle has crashed the loser. */
  lemma NeverBothUnderOneName(states: seq<System>, ms: seq<Move>, winner: Instance, loser: Instance, j: nat, k: nat)
    requires OnlySrvConflicts(winner, loser) && ProperInstance(winner) && ProperInstance(loser)
    requires CarriedName(NormalizeName(winner.host)) && CarriedName(NormalizeName(loser.host))
    requires IsSystemRun(states, ms) && states[0] == Start(winner, loser) && j < k < |states|
    requires ms[j].ByLoser? && HearsContestant(states[j], ms[j], loser, winner)
    ensures states[k].winner.state == StateAnnounced && states[k].loser.state == StateAnnounced && OneName(states[k])
            ==> Crashed(states[k].loser)
  {
    hide ProperInstance, CarriedName, Inv, Crashed, ServiceRecords, NormalRecord, SrvRecord, Renamed, Start, CanMove, Moved,
         Loses, Judge, ProbeLoses, InstanceName, LowerName, RecordsEqual;
    HearingYields(states, ms, winner, loser, j);
    StaysYielded(states, ms, loser, j + 1, k);
    WinnerNeverLoses(states, ms, winner, loser, k);
    ContestName(winner, loser);
    if !Crashed(states[k].loser) && states[k].loser.state == StateAnnounced {
      var n: nat :| n > 0 && IsRenaming(states[k].loser.instance, loser, n);
      RenamedInstanceName(loser, n);
    }
  }

  // ----- such contests happen -----

  /** Two servers that differ in their port alone: SRV is the only conflict, and the higher port wins. */
  lemma HigherPortWins(i: Instance, port: U16)
    requires port < i.port && i.text != [] && Addressable(i)
    ensures OnlySrvConflicts(i, i.(port := port))
  {
    hide LowerName, NormalizeName, NormalRecord, InstanceName, Judge, ServiceRecords, Rival, RecordsEqual, ProbeLoses;
    var other := i.(port := port);
    SrvTie(SrvRecord(i), SrvRecord(other));
    PortsDiffer(i, port);
    forall k | 0 <= k < |ServiceRecords(other)| && k != 1
      ensures !Judge(ServiceRecords(i), NormalRecord(ServiceRecords(other)[k])).Conflict?
    {
      ServiceRecordAt(i, k);
      ServiceRecordAt(other, k);
      PortOnly(i, port, k);
      OwnRecordKnown(i, k);
    }
  }

  lemma PortsDiffer(i: Instance, port: U16)
    requires port != i.port
    ensures InstanceName(i.(port := port)) == InstanceName(i)
    ensures !RecordsEqual(SrvRecord(i), SrvRecord(i.(port := port)))
  {
    hide LowerName, NormalizeName;
  }

  lemma PortOnly(i: Instance, port: U16, k: nat)
    requires k < |ServiceRecords(i)| && k != 1
    ensures |ServiceRecords(i.(port := port))| == |ServiceRecords(i)|
    ensures ServiceRecords(i.(port := port))[k] == ServiceRecords(i)[k]
  {
    hide NormalizeName, To4;
    ServiceRecordAt(i, k);
    ServiceRecordAt(i.(port := port), k);
  }

  lemma RunOn(states: seq<System>, ms: seq<Move>, m: Move)
    requires IsSystemRun(states, ms) && CanMove(states[|ms|], m)
    ensures IsSystemRun(states + [Moved(states[|ms|], m)], ms + [m])
  {
    hide CanMove, Moved;
  }

  /** A server that has begun its first round and has sent its probe k times. */
  function Prober(i: Instance, k: nat): Party {
    Party(i, ServiceRecords(i), StateProbing, 0, Sending(k), k, {})
  }

  lemma BeginsAndSends(i: Instance)
    ensures Enabled(Fresh(i), Begin) && Step(Fresh(i), Begin) == Prober(i, 0)
    ensures Enabled(Prober(i, 0), Send) && Step(Prober(i, 0), Send) == Prober(i, 1)
    ensures forall ns :: Enabled(Prober(i, 1), Hear(ns)) && Step(Prober(i, 1), Hear(ns)).records == ServiceRecords(i)
  {
    hide ServiceRecords, OnProbe;
  }

  lemma BothSend(a: Instance, b: Instance) returns (states: seq<System>, ms: seq<Move>)
    requires Pack(Probe(ServiceRecords(a))).Ok? && Pack(Probe(ServiceRecords(b))).Ok?
    ensures |ms| == 4 && IsSystemRun(states, ms) && states[0] == Start(a, b)
    ensures states[4] == System(Prober(a, 1), Prober(b, 1), Elements(OnWire(ServiceRecords(a))) + Elements(OnWire(ServiceRecords(b))))
  {
    hide ServiceRecords, Pack, OnWire, Elements, Step, Enabled, Fresh;
    BeginsAndSends(a);
    BeginsAndSends(b);
    ProberRecords(a);
    ProberRecords(b);
    var onlyA := Elements(OnWire(ServiceRecords(a)));
    ms := [ByWinner(Begin), ByLoser(Begin), ByWinner(Send), ByLoser(Send)];
    states := [
      Start(a, b),
      System(Prober(a, 0), Fresh(b), {}),
      System(Prober(a, 0), Prober(b, 0), {}),
      System(Prober(a, 1), Prober(b, 0), {} + onlyA),
      System(Prober(a, 1), Prober(b, 1), {} + onlyA + Elements(OnWire(ServiceRecords(b))))
    ];
  }

  lemma ProberRecords(i: Instance)
    ensures forall k: nat :: Prober(i, k).records == ServiceRecords(i) && Prober(i, k).state == StateProbing
  {
  }

  /** Both send, then the one hears heardByA and the other heardByB. */
  lemma BothHear(a: Instance, b: Instance, heardByA: ResourceRecord, heardByB: ResourceRecord)
    returns (states: seq<System>, ms: seq<Move>)
    requires Pack(Probe(ServiceRecords(a))).Ok? && Pack(Probe(ServiceRecords(b))).Ok?
    requires heardByA in Elements(OnWire(ServiceRecords(b))) && heardByB in Elements(OnWire(ServiceRecords(a)))
    ensures |ms| == 6 && IsSystemRun(states, ms) && states[0] == Start(a, b)
    ensures ms[4] == ByWinner(Hear(heardByA)) && ms[5] == ByLoser(Hear(heardByB))
    ensures states[4].winner == Prober(a, 1) && states[5].loser == Prober(b, 1)
    ensures Enabled(Prober(a, 1), Hear(heardByA)) && Enabled(Prober(b, 1), Hear(heardByB))
    ensures states[6].winner == Step(Prober(a, 1), Hear(heardByA)) && states[6].loser == Step(Prober(b, 1), Hear(heardByB))
  {
    hide ServiceRecords, Pack, OnWire, Elements, Step, Enabled, IsSystemRun, Prober, Start;
    BeginsAndSends(a);
    BeginsAndSends(b);
    states, ms := BothSend(a, b);
    RunLength(states, ms);
    var first, second := ByWinner(Hear(heardByA)), ByLoser(Hear(heardByB));
    RunOn(states, ms, first);
    states, ms := states + [Moved(states[4], first)], ms + [first];
    RunOn(states, ms, second);
    states, ms := states + [Moved(states[5], second)], ms + [second];
  }

  /** The tie does arise: if both probes can be packed and read, there is a run in which each side
      hears the other's SRV record while probing. */
  lemma TieArises(a: Instance, b: Instance) returns (states: seq<System>, ms: seq<Move>)
    requires ProperInstance(a) && ProperInstance(b)
    requires OnWire(ServiceRecords(a)) != [] && OnWire(ServiceRecords(b)) != []
    ensures |ms| == 6 && IsSystemRun(states, ms) && states[0] == Start(a, b)
    ensures ms[4].ByWinner? && HearsContestant(states[4], ms[4], a, b)
    ensures ms[5].ByLoser? && HearsContestant(states[5], ms[5], b, a)
  {
    hide ServiceRecords, NormalRecord, SrvRecord, Pack, OnWire, Elements, Step, Enabled, IsSystemRun, Prober, Start;
    SrvHeard(a);
    SrvHeard(b);
    ProberRecords(a);
    ProberRecords(b);
    states, ms := BothHear(a, b, NormalRecord(SrvRecord(b)), NormalRecord(SrvRecord(a)));
  }

  lemma RunLength(states: seq<System>, ms: seq<Move>)
    requires IsSystemRun(states, ms)
    ensures |states| == |ms| + 1
  {
    hide CanMove, Moved;
  }

  // ----- and end as they may -----

  /** The double close of Lifecycle happens: to any service, by the SRV record of another of its name
      with a higher port. */
  lemma DoubleCloseHappens(i: Instance, port: U16) returns (states: seq<Party>, es: seq<Event>)
    requires i.port < port
    ensures IsLife(i, states, es) && Crashed(states[|es|])
    ensures Hear(NormalRecord(SrvRecord(i.(port := port)))) in es
  {
    hide ServiceRecords, NormalRecord, SrvRecord, Loses, LowerName, InstanceName, ProbeLoses, RecordsEqual, IsLife, Crashed;
    var ns := NormalRecord(SrvRecord(i.(port := port)));
    HigherPortBeats(i, port);
    states, es := DoubleClose(i, ns);
  }

  lemma HigherPortBeats(i: Instance, port: U16)
    requires i.port < port
    ensures Loses(ServiceRecords(i), NormalRecord(SrvRecord(i.(port := port))))
  {
    hide ServiceRecords, NormalRecord, Loses, LowerName, InstanceName, ProbeLoses, RecordsEqual;
    PortsDiffer(i, port);
    SrvVerdict(i, i.(port := port));
    SrvTie(SrvRecord(i), SrvRecord(i.(port := port)));
  }

  lemma HearsAndLoses(i: Instance, ns: ResourceRecord)
    requires Loses(ServiceRecords(i), ns)
    ensures Enabled(Prober(i, 1), Hear(ns)) && Step(Prober(i, 1), Hear(ns)).state == StateConflictLost
  {
    hide ServiceRecords, Loses;
  }

  lemma RecordHeard(i: Instance, k: nat)
    requires ProperInstance(i) && OnWire(ServiceRecords(i)) != [] && k < |ServiceRecords(i)|
    ensures NormalRecord(ServiceRecords(i)[k]) in Elements(OnWire(ServiceRecords(i)))
  {
    hide ServiceRecords, NormalRecord, Pack, Unpack;
    OnWireIs(i);
    assert OnWire(ServiceRecords(i))[k] == NormalRecord(ServiceRecords(i)[k]);
  }

  lemma SentPacks(i: Instance)
    requires OnWire(ServiceRecords(i)) != []
    ensures Pack(Probe(ServiceRecords(i))).Ok?
  {
    hide Pack, Unpack, ServiceRecords;
  }

  /** Where both lose to each other's probe, there is a run in which both do. */
  lemma BothLoseInRun(a: Instance, b: Instance) returns (states: seq<System>, ms: seq<Move>)
    requires ProperInstance(a) && ProperInstance(b)
    requires OnWire(ServiceRecords(a)) != [] && OnWire(ServiceRecords(b)) != []
    requires LosesToProbe(a, b) && LosesToProbe(b, a)
    ensures |ms| == 6 && IsSystemRun(states, ms) && states[0] == Start(a, b)
    ensures states[6].winner.state == StateConflictLost && states[6].loser.state == StateConflictLost
  {
    hide ServiceRecords, NormalRecord, Pack, OnWire, Elements, Step, Enabled, IsSystemRun, Prober, Start, Loses;
    SentPacks(a);
    SentPacks(b);
    var j: nat :| j < |ServiceRecords(b)| && Loses(ServiceRecords(a), NormalRecord(ServiceRecords(b)[j]));
    var k: nat :| k < |ServiceRecords(a)| && Loses(ServiceRecords(b), NormalRecord(ServiceRecords(a)[k]));
    var fromB, fromA := NormalRecord(ServiceRecords(b)[j]), NormalRecord(ServiceRecords(a)[k]);
    RecordHeard(b, j);
    RecordHeard(a, k);
    HearsAndLoses(a, fromB);
    HearsAndLoses(b, fromA);
    states, ms := BothHear(a, b, fromB, fromA);
  }

  lemma SmallOnWire(i: Instance)
    requires SmallInstance(i) && ProperInstance(i)
    ensures OnWire(ServiceRecords(i)) != []
  {
    hide ServiceRecords, Pack, Unpack, SmallInstance, ProperInstance, NormalRecord;
    SmallProbeReads(i);
    assert |NormalRecords(ServiceRecords(i))| == |ServiceRecords(i)|;
  }

  /** Two services of one name without text, which differ in port or not at all: there is a run in
      which both lose. */
  lemma TextlessBothLose(p: U16, q: U16) returns (states: seq<System>, ms: seq<Move>)
    ensures IsSystemRun(states, ms) && states[0] == Start(Sample(p, []), Sample(q, []))
    ensures states[|ms|].winner.state == StateConflictLost && states[|ms|].loser.state == StateConflictLost
  {
    hide ServiceRecords, LosesToProbe, SmallInstance, ProperInstance, IsSystemRun, Start, OnWire, AddressBeaten;
    NoTextWritten();
    SampleIsSmall(p, []);
    SampleIsSmall(q, []);
    SmallOnWire(Sample(p, []));
    SmallOnWire(Sample(q, []));
    SampleNames(p, []);
    SampleNames(q, []);
    BothLoseIff(Sample(p, []), Sample(q, []));
    states, ms := BothLoseInRun(Sample(p, []), Sample(q, []));
  }

  lemma OneOctetTexts()
    ensures Less(CanonicalText([[0]]), CanonicalText(WrittenText([[1]])))
    ensures forall x: Byte :: EmitStrings(WrittenText([[x]])).error == None && |EmitStrings(WrittenText([[x]])).bytes| == 2
  {
    forall x: Byte
      ensures CanonicalText([[x]]) == [1, x]
      ensures EmitStrings(WrittenText([[x]])).error == None && |EmitStrings(WrittenText([[x]])).bytes| == 2
    {
      var one: seq<Bytes> := [[x]];
      assert one[1..] == [];
      assert CanonicalText(one) == [1 as Byte] + [x] + [];
    }
    LessStep([1, 0], [1, 1]);
    LessStep([0], [1]);
    assert [1 as Byte, 0][1..] == [0] && [1 as Byte, 1][1..] == [1];
  }

  /** Two services with texts, one with the greater port and the other with the greater text: there is
      a run in which both lose. */
  lemma CrossedBothLose(p: U16, q: U16) returns (states: seq<System>, ms: seq<Move>)
    requires p < q
    ensures IsSystemRun(states, ms) && states[0] == Start(Sample(p, [[1]]), Sample(q, [[0]]))
    ensures states[|ms|].winner.state == StateConflictLost && states[|ms|].loser.state == StateConflictLost
  {
    hide ServiceRecords, LosesToProbe, SmallInstance, ProperInstance, IsSystemRun, Start, OnWire, AddressBeaten, ProbeLoses,
         EmitStrings, WrittenText, CanonicalText, Less;
    var a, b := Sample(p, [[1]]), Sample(q, [[0]]);
    OneOctetTexts();
    SampleIsSmall(p, [[1]]);
    SampleIsSmall(q, [[0]]);
    SmallOnWire(a);
    SmallOnWire(b);
    SampleNames(p, [[1]]);
    SampleNames(q, [[0]]);
    SrvTie(SrvRecord(a), SrvRecord(b));
    BothLoseIff(a, b);
    states, ms := BothLoseInRun(a, b);
  }

  lemma SrvHeard(i: Instance)
    requires ProperInstance(i) && OnWire(ServiceRecords(i)) != []
    ensures Pack(Probe(ServiceRecords(i))).Ok?
    ensures NormalRecord(SrvRecord(i)) in Elements(OnWire(ServiceRecords(i)))
  {
    hide ServiceRecords, NormalRecord, SrvRecord, Pack, Unpack;
    OnWireIs(i);
    ServiceRecordAt(i, 1);
    assert OnWire(ServiceRecords(i))[1] == NormalRecord(SrvRecord(i));
  }

  /** What the theorems above ask for is met: two services alike but for their ports, one of which
      hears the other while probing. */
  lemma ContestHappens(p: U16, q: U16) returns (states: seq<System>, ms: seq<Move>)
    requires p < q
    ensures var winner, loser := Sample(q, [[1]]), Sample(p, [[1]]);
            && OnlySrvConflicts(winner, loser) && ProperInstance(winner) && ProperInstance(loser)
            && CarriedName(NormalizeName(winner.host)) && CarriedName(NormalizeName(loser.host))
            && IsSystemRun(states, ms) && states[0] == Start(winner, loser)
            && |ms| == 6 && ms[5].ByLoser? && HearsContestant(states[5], ms[5], loser, winner)
  {
    hide ServiceRecords, SmallInstance, ProperInstance, IsSystemRun, Start, OnWire, OnlySrvConflicts, HearsContestant,
         EmitStrings, WrittenText, ProperName, Fits, NormalizeName;
    var winner, loser := Sample(q, [[1]]), Sample(p, [[1]]);
    OneOctetTexts();
    SampleIsSmall(q, [[1]]);
    SampleIsSmall(p, [[1]]);
    SmallOnWire(winner);
    SmallOnWire(loser);
    HigherPortWins(winner, p);
    assert winner.(port := p) == loser;
    SampleNames(q, [[1]]);
    PlainName([100]);
    states, ms := TieArises(winner, loser);
  }
}
