/** What it means that names are compared without regard to case, said of their letters alone, and
    what it means for everything that compares names: normalizeName and lowerName of dns_name.go,
    recordsEqual and rrKey of cache.go, handleProbe of server.go and the browser's keys. */
module Folding {
  import opened Octets
  import opened Names
  import opened Records
  import opened Tiebreak
  import opened Services
  import opened Probing
  import opened TwoServers
  import opened Caching
  import opened Browsing

  // ----- letters -----

  /** One is a capital ASCII letter and the other the same letter in lower case. */
  predicate CapitalOf(a: Byte, b: Byte) {
    'A' as int <= a as int <= 'Z' as int && b as int == a as int + ('a' as int - 'A' as int)
  }

  predicate SameLetter(a: Byte, b: Byte) {
    a == b || CapitalOf(a, b) || CapitalOf(b, a)
  }

  predicate SameIgnoringCase(a: Bytes, b: Bytes) {
    |a| == |b| && forall i :: 0 <= i < |a| ==> SameLetter(a[i], b[i])
  }

  lemma LowerByteMeans(a: Byte, b: Byte)
    ensures LowerByte(a) == LowerByte(b) <==> SameLetter(a, b)
    ensures SameLetter(a, LowerByte(a)) && !('A' as int <= LowerByte(a) as int <= 'Z' as int)
  {
  }

  /** lowerName gives the one name without capitals that is the same but for case. */
  lemma LowerNameIs(name: Bytes)
    ensures SameIgnoringCase(name, LowerName(name))
    ensures forall i :: 0 <= i < |LowerName(name)| ==> !('A' as int <= LowerName(name)[i] as int <= 'Z' as int)
  {
    hide LowerByte, SameLetter;
    forall i | 0 <= i < |name|
      ensures SameLetter(name[i], LowerName(name)[i]) && !('A' as int <= LowerName(name)[i] as int <= 'Z' as int)
    {
      LowerByteMeans(name[i], name[i]);
    }
  }

  /** Two names are the same in lower case exactly if their bytes agree but for the case of letters. */
  lemma LowerNameMeans(a: Bytes, b: Bytes)
    ensures LowerName(a) == LowerName(b) <==> SameIgnoringCase(a, b)
  {
    hide LowerByte, SameLetter;
    var l, r := LowerName(a), LowerName(b);
    forall i | 0 <= i < |a| && i < |b|
      ensures l[i] == r[i] <==> SameLetter(a[i], b[i])
    {
      LowerByteMeans(a[i], b[i]);
    }
    if SameIgnoringCase(a, b) {
      assert forall i :: 0 <= i < |l| ==> l[i] == r[i];
    }
  }

  // ----- the final dot -----

  /** normalizeName gives the shortest name that begins with name and ends with a dot. */
  lemma NormalizeIsLeast(name: Bytes, other: Bytes)
    ensures name <= NormalizeName(name) && EndsWithDot(NormalizeName(name))
    ensures name <= other && EndsWithDot(other) ==> |NormalizeName(name)| <= |other|
  {
    if name <= other && EndsWithDot(other) && |name| == |other| {
      assert name == other;
    }
  }

  /** The same name but for case and a missing final dot. */
  predicate SameName(a: Bytes, b: Bytes) {
    SameIgnoringCase(NormalizeName(a), NormalizeName(b))
  }

  lemma CanonicalNameMeans(a: Bytes, b: Bytes)
    ensures CanonicalName(a) == CanonicalName(b) <==> SameName(a, b)
  {
    hide LowerName, NormalizeName, SameIgnoringCase;
    LowerNameMeans(NormalizeName(a), NormalizeName(b));
  }

  // ----- records -----

  /** recordsEqual, by the numbers of the types and the letters of the names. */
  predicate SameRecord(a: ResourceRecord, b: ResourceRecord) {
    && a.rtype == b.rtype && SameIgnoringCase(a.name, b.name)
    && match a.rtype
       case 1 => IpEqual(a.ip, b.ip)
       case 28 => IpEqual(a.ip, b.ip)
       case 2 => SameIgnoringCase(a.target, b.target)
       case 5 => SameIgnoringCase(a.target, b.target)
       case 12 => SameIgnoringCase(a.target, b.target)
       case 33 => SameIgnoringCase(a.target, b.target)
                  && a.port == b.port && a.priority == b.priority && a.weight == b.weight
       case 16 => a.text == b.text
       case _ => a.rawData == b.rawData
  }

  lemma RecordsEqualMeans(a: ResourceRecord, b: ResourceRecord)
    ensures RecordsEqual(a, b) <==> SameRecord(a, b)
  {
    hide LowerName, SameIgnoringCase, IpEqual;
    LowerNameMeans(a.name, b.name);
    LowerNameMeans(a.target, b.target);
  }

  /** Records share a cache key exactly if they are of one type and one name. */
  lemma RecordKeyMeans(a: ResourceRecord, b: ResourceRecord)
    ensures RecordKey(a) == RecordKey(b) <==> a.rtype == b.rtype && SameName(a.name, b.name)
  {
    hide LowerName, NormalizeName, SameName;
    CanonicalNameMeans(a.name, b.name);
  }

  /** PTR records tell of one instance exactly if they point at one name. */
  lemma InstanceKeyMeans(a: ResourceRecord, b: ResourceRecord)
    ensures InstanceKey(a) == InstanceKey(b) <==> SameName(a.target, b.target)
  {
    hide LowerName, NormalizeName, SameName;
    CanonicalNameMeans(a.target, b.target);
  }

  lemma MatchesMeans(rr: ResourceRecord, serviceType: Bytes)
    ensures Matches(rr, serviceType) <==> rr.rtype == 12 && SameIgnoringCase(rr.name, serviceType)
  {
    hide LowerName, SameIgnoringCase;
    LowerNameMeans(rr.name, serviceType);
  }

  /** Services share a key exactly if their instance names are the same. */
  lemma KeyOfMeans(a: Instance, b: Instance)
    ensures KeyOf(a) == KeyOf(b) <==> SameName(InstanceName(a), InstanceName(b))
  {
    hide LowerName, NormalizeName, SameName, InstanceName;
    CanonicalNameMeans(InstanceName(a), InstanceName(b));
  }

  // ----- probes -----

  lemma RivalMeans(ours: ResourceRecord, ns: ResourceRecord)
    ensures Rival(ours, ns) <==> ours.cacheFlush && ours.rtype == ns.rtype && SameIgnoringCase(ours.name, ns.name)
  {
    hide LowerName, SameIgnoringCase;
    LowerNameMeans(ours.name, ns.name);
  }

  /** A probe record is judged the same whatever the case of its name. */
  lemma {:induction false} JudgeIgnoresCase(records: seq<ResourceRecord>, ns: ResourceRecord, name: Bytes)
    requires SameIgnoringCase(ns.name, name)
    ensures Judge(records, ns.(name := name)) == Judge(records, ns)
  {
    hide LowerName, SameIgnoringCase;
    LowerNameMeans(ns.name, name);
    if records != [] {
      JudgeIgnoresCase(records[..|records| - 1], ns, name);
    }
  }

  lemma LosesIgnoresCase(records: seq<ResourceRecord>, ns: ResourceRecord, name: Bytes)
    requires SameIgnoringCase(ns.name, name)
    ensures Loses(records, ns.(name := name)) <==> Loses(records, ns)
  {
    hide Judge, Less, SameIgnoringCase, EmitName, LowerName;
    JudgeIgnoresCase(records, ns, name);
  }

  /** Two services whose names differ in case only: the one that hears the other's SRV record loses
      exactly if its own is the lesser. */
  lemma SrvVerdictAnyCase(mine: Instance, theirs: Instance)
    requires SameIgnoringCase(InstanceName(mine), InstanceName(theirs))
    ensures Loses(ServiceRecords(mine), NormalRecord(SrvRecord(theirs))) <==> SrvLess(SrvRecord(mine), SrvRecord(theirs))
  {
    hide Loses, SameIgnoringCase, LowerName, InstanceName, ServiceRecords, NormalRecord, ProbeLoses, SrvLess;
    LowerNameMeans(InstanceName(mine), InstanceName(theirs));
    SrvVerdict(mine, theirs);
    SrvTie(SrvRecord(mine), SrvRecord(theirs));
  }
}
