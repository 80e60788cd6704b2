/** Questions and resource records: dns_rr.go. */
module Records {
  import opened Octets
  import opened Names
  import opened TypeBitMaps

  const TYPE_A: U16 := 1
  const TYPE_NS: U16 := 2
  const TYPE_CNAME: U16 := 5
  const TYPE_PTR: U16 := 12
  const TYPE_TXT: U16 := 16
  const TYPE_AAAA: U16 := 28
  const TYPE_SRV: U16 := 33
  const TYPE_NSEC: U16 := 47
  const TYPE_ANY: U16 := 255
  const CLASS_IN: U16 := 1
  const CACHE_FLUSH: U16 := 0x8000

  datatype Question = Question(name: Bytes, qtype: U16, qclass: U16)

  /** A resource record with the RDATA fields of every type; only those of its own type matter.
      An absent address is the empty sequence. */
  datatype ResourceRecord = ResourceRecord(
    name: Bytes,
    rtype: U16,
    rclass: U16,
    ttl: U32,
    cacheFlush: bool,
    ip: Bytes,
    target: Bytes,
    priority: U16,
    weight: U16,
    port: U16,
    text: seq<Bytes>,
    nextDomain: Bytes,
    typeBitMaps: seq<U16>,
    rawData: Bytes
  )

  function Blank(name: Bytes, rtype: U16, rclass: U16, ttl: U32, cacheFlush: bool): ResourceRecord {
    ResourceRecord(name, rtype, rclass, ttl, cacheFlush, [], [], 0, 0, 0, [], [], [], [])
  }

  /** The cases of the switch on a record's type. */
  datatype Kind = Address4 | Address6 | Pointer | Service | Text | Negative | Opaque

  function KindOf(rtype: U16): Kind {
    if rtype == TYPE_A then Address4
    else if rtype == TYPE_AAAA then Address6
    else if rtype == TYPE_PTR || rtype == TYPE_CNAME || rtype == TYPE_NS then Pointer
    else if rtype == TYPE_SRV then Service
    else if rtype == TYPE_TXT then Text
    else if rtype == TYPE_NSEC then Negative
    else Opaque
  }

  // ----- addresses: net.IP.To4 and To16 -----

  const MAPPED: Bytes := [0, 0, 0, 0, 0, 0, 0, 0, 0, 0, 0xFF, 0xFF]

  function To4(ip: Bytes): (r: Option<Bytes>)
    ensures r.Some? ==> |r.value| == 4
  {
    if |ip| == 4 then Some(ip)
    else if |ip| == 16 && ip[..12] == MAPPED then Some(ip[12..])
    else None
  }

  function To16(ip: Bytes): (r: Option<Bytes>)
    ensures r.Some? ==> |r.value| == 16
  {
    if |ip| == 4 then Some(MAPPED + ip)
    else if |ip| == 16 then Some(ip)
    else None
  }

  // ----- TXT strings -----

  datatype Chunk = Chunk(bytes: Bytes, error: Option<Error>)

  function EmitStrings(text: seq<Bytes>): Chunk {
    if text == [] then Chunk([], None)
    else if |text[0]| > 255 then Chunk([], Some(TextTooLong))
    else
      var rest := EmitStrings(text[1..]);
      Chunk([|text[0]| as Byte] + text[0] + rest.bytes, rest.error)
  }

  function ReadStrings(bs: Bytes): Result<seq<Bytes>> {
    if bs == [] then Ok([])
    else if 1 + bs[0] as int > |bs| then Err(TextTruncated)
    else
      var rest :- ReadStrings(bs[1 + bs[0] as int..]);
      Ok([bs[1..1 + bs[0] as int]] + rest)
  }

  lemma {:induction false} StringsRoundTrip(text: seq<Bytes>)
    requires EmitStrings(text).error == None
    ensures ReadStrings(EmitStrings(text).bytes) == Ok(text)
  {
    if text != [] {
      var first, rest := text[0], EmitStrings(text[1..]).bytes;
      var bs := [|first| as Byte] + first + rest;
      StringsRoundTrip(text[1..]);
      assert bs[1..1 + |first|] == first && bs[1 + |first|..] == rest;
      assert [first] + text[1..] == text;
    }
  }

  /** A TXT record with no strings is written as one empty string. */
  function WrittenText(text: seq<Bytes>): seq<Bytes> {
    if text == [] then [[]] else text
  }

  // ----- writing -----

  /** rr.Class | cacheFlushBit */
  function FullClass(rr: ResourceRecord): U16 {
    if rr.cacheFlush && rr.rclass < CACHE_FLUSH then rr.rclass + CACHE_FLUSH else rr.rclass
  }

  /** RDATA of rr, written at offset base. */
  function EmitRdata(base: nat, table: Table, rr: ResourceRecord): Emission {
    match KindOf(rr.rtype)
    case Address4 =>
      (match To4(rr.ip)
       case None => Emission([], table, Some(NotIPv4))
       case Some(ip4) => Emission(ip4, table, None))
    case Address6 =>
      (match To16(rr.ip)
       case None => Emission([], table, Some(NotIPv6))
       case Some(ip6) => Emission(ip6, table, None))
    case Pointer => EmitName(base, table, rr.target)
    case Service =>
      var n := EmitName(base + 6, table, rr.target);
      Emission(Put16(rr.priority as int) + Put16(rr.weight as int) + Put16(rr.port as int) + n.bytes, n.table, n.error)
    case Text =>
      var c := EmitStrings(WrittenText(rr.text));
      Emission(c.bytes, table, c.error)
    case Negative =>
      var n := EmitName(base, table, rr.nextDomain);
      if n.error.Some? then n else Emission(n.bytes + Encode(rr.typeBitMaps), n.table, None)
    case Opaque => Emission(rr.rawData, table, None)
  }

  function FixedHeader(rr: ResourceRecord): (r: Bytes)
    ensures |r| == 8
  {
    Put16(rr.rtype as int) + Put16(FullClass(rr) as int) + Put32(rr.ttl as int)
  }

  /** What ResourceRecord.pack leaves at offset base once RDLENGTH is patched; where RDATA fails,
      the two placeholder bytes are still there. */
  function EmitRecord(base: nat, table: Table, rr: ResourceRecord): Emission {
    var n := EmitName(base, table, rr.name);
    if n.error.Some? then n
    else
      var d := EmitRdata(base + |n.bytes| + 10, n.table, rr);
      var rdLength := if d.error.Some? then [0, 0] else Put16(|d.bytes|);
      Emission(n.bytes + (FixedHeader(rr) + rdLength + d.bytes), d.table, d.error)
  }

  function EmitQuestion(base: nat, table: Table, q: Question): Emission {
    var n := EmitName(base, table, q.name);
    if n.error.Some? then n
    else Emission(n.bytes + (Put16(q.qtype as int) + Put16(q.qclass as int)), n.table, None)
  }

  // ----- reading -----

  datatype Parsed<+T> = Parsed(value: T, next: nat)

  /** unpackRDATA: blank with the RDATA fields of its type filled in. */
  function ReadRdata(msg: Bytes, offset: nat, rdLength: nat, blank: ResourceRecord): Result<ResourceRecord>
    requires offset + rdLength <= |msg|
  {
    var end := offset + rdLength;
    match KindOf(blank.rtype)
    case Address4 =>
      if rdLength != 4 then Err(BadALength) else Ok(blank.(ip := msg[offset..end]))
    case Address6 =>
      if rdLength != 16 then Err(BadAaaaLength) else Ok(blank.(ip := msg[offset..end]))
    case Pointer =>
      var n :- ReadNameSpec(msg, offset);
      Ok(blank.(target := n.name))
    case Service =>
      if rdLength < 7 then Err(SrvTooShort)
      else
        var n :- ReadNameSpec(msg, offset + 6);
        Ok(blank.(priority := Get16(msg, offset), weight := Get16(msg, offset + 2),
                  port := Get16(msg, offset + 4), target := n.name))
    case Text =>
      var strings :- ReadStrings(msg[offset..end]);
      Ok(blank.(text := strings))
    case Negative =>
      var n :- ReadNameSpec(msg, offset);
      var types :- Decode(if n.next <= end then msg[n.next..end] else []);
      Ok(blank.(nextDomain := n.name, typeBitMaps := types))
    case Opaque => Ok(blank.(rawData := msg[offset..end]))
  }

  function ReadRecord(msg: Bytes, offset: nat): (r: Result<Parsed<ResourceRecord>>)
    ensures r.Ok? ==> offset < r.value.next <= |msg|
  {
    var n :- ReadNameSpec(msg, offset);
    if n.next + 10 > |msg| then Err(TruncatedHeader)
    else
      var classField := Get16(msg, n.next + 2);
      var rdLength := Get16(msg, n.next + 8) as int;
      var start := n.next + 10;
      if start + rdLength > |msg| then Err(TruncatedRdata)
      else
        var rr :- ReadRdata(msg, start, rdLength,
          Blank(n.name, Get16(msg, n.next), classField % CACHE_FLUSH, Get32(msg, n.next + 4), classField >= CACHE_FLUSH));
        Ok(Parsed(rr, start + rdLength))
  }

  function ReadQuestion(msg: Bytes, offset: nat): (r: Result<Parsed<Question>>)
    ensures r.Ok? ==> offset < r.value.next <= |msg|
  {
    var n :- ReadNameSpec(msg, offset);
    if n.next + 4 > |msg| then Err(TruncatedQuestion)
    else Ok(Parsed(Question(n.name, Get16(msg, n.next), Get16(msg, n.next + 2)), n.next + 4))
  }

  // ----- what a record comes back as -----

  /** blank with the RDATA of rr as the wire can carry it. */
  function NormalRdata(rr: ResourceRecord, blank: ResourceRecord): ResourceRecord {
    match KindOf(rr.rtype)
    case Address4 => blank.(ip := if To4(rr.ip).Some? then To4(rr.ip).value else [])
    case Address6 => blank.(ip := if To16(rr.ip).Some? then To16(rr.ip).value else [])
    case Pointer => blank.(target := NormalizeName(rr.target))
    case Service => blank.(priority := rr.priority, weight := rr.weight, port := rr.port,
                           target := NormalizeName(rr.target))
    case Text => blank.(text := WrittenText(rr.text))
    case Negative => blank.(nextDomain := NormalizeName(rr.nextDomain),
                            typeBitMaps := Ascending(rr.typeBitMaps, 0, TYPE_LIMIT))
    case Opaque => blank.(rawData := rr.rawData)
  }

  function NormalHeader(rr: ResourceRecord): ResourceRecord {
    Blank(NormalizeName(rr.name), rr.rtype, rr.rclass % CACHE_FLUSH, rr.ttl, rr.cacheFlush || rr.rclass >= CACHE_FLUSH)
  }

  /** The record that a reader gets for rr: names with their final dot, the class without its top
      bit, an address in the form of its type, no empty TXT, NSEC types below 0xFF00 in increasing
      order, and the fields of other types empty. */
  function NormalRecord(rr: ResourceRecord): ResourceRecord {
    NormalRdata(rr, NormalHeader(rr))
  }

  function NormalQuestion(q: Question): Question {
    q.(name := NormalizeName(q.name))
  }

  /** The name within the RDATA, the root where there is none. */
  function RdataName(rr: ResourceRecord): Bytes {
    match KindOf(rr.rtype)
    case Pointer => rr.target
    case Service => rr.target
    case Negative => rr.nextDomain
    case _ => [DOT]
  }

  /** Every name that is written has non-empty labels. */
  predicate ProperRecord(rr: ResourceRecord) {
    ProperName(rr.name) && ProperName(RdataName(rr))
  }

  predicate ShortName(name: Bytes) {
    Dots(NormalizeName(name)) <= MAX_JUMPS
  }

  /** Every name that is written has at most 128 labels. */
  predicate ShortRecord(rr: ResourceRecord) {
    ShortName(rr.name) && ShortName(RdataName(rr))
  }

  /** r is value, or, when some name is not short, the refusal of a name's pointers. */
  ghost predicate Returns<T>(r: Result<T>, value: T, short: bool) {
    r == Ok(value) || (!short && r == Err(PointerLoop))
  }

  // ----- round trips -----

  lemma PutGet16(msg: Bytes, at: nat, v: nat)
    requires v < 0x1_0000 && At(msg, at, Put16(v))
    ensures Get16(msg, at) as int == v
  {
    AtHead(msg, at, (v / 0x100) as Byte, [(v % 0x100) as Byte]);
    AtOne(msg, at + 1, (v % 0x100) as Byte);
  }

  lemma PutGet32(msg: Bytes, at: nat, v: nat)
    requires v < 0x1_0000_0000 && At(msg, at, Put32(v))
    ensures Get32(msg, at) as int == v
  {
    var b := Put32(v);
    AtHead(msg, at, b[0], [b[1], b[2], b[3]]);
    AtHead(msg, at + 1, b[1], [b[2], b[3]]);
    AtHead(msg, at + 2, b[2], [b[3]]);
    AtOne(msg, at + 3, b[3]);
    BytesOf32(v);
  }

  lemma BytesOf32(v: nat)
    requires v < 0x1_0000_0000
    ensures v / 0x100_0000 % 0x100 * 0x100_0000 + v / 0x1_0000 % 0x100 * 0x1_0000
          + v / 0x100 % 0x100 * 0x100 + v % 0x100 == v
  {
    var a := v / 0x100;
    var b := a / 0x100;
    assert v / 0x1_0000 == b && v / 0x100_0000 == b / 0x100;
  }

  lemma ServiceRoundTrip(msg: Bytes, base: nat, table: Table, rr: ResourceRecord, blank: ResourceRecord)
    requires TableSound(msg, base, table) && ProperName(rr.target)
    requires KindOf(rr.rtype) == Service && blank.rtype == rr.rtype
    requires EmitRdata(base, table, rr).error == None
    requires At(msg, base, EmitRdata(base, table, rr).bytes)
    ensures var d := EmitRdata(base, table, rr);
            && Returns(ReadRdata(msg, base, |d.bytes|, blank), NormalRdata(rr, blank), ShortName(rr.target))
            && TableSound(msg, base + |d.bytes|, d.table)
  {
    hide At, EmitName, TableSound, Walk, Dots, Put16, Get16, NormalizeName;
    var p, w, q := Put16(rr.priority as int), Put16(rr.weight as int), Put16(rr.port as int);
    var n := EmitName(base + 6, table, rr.target);
    AtSplit(msg, base, p + w + q, n.bytes);
    AtSplit(msg, base, p + w, q);
    AtSplit(msg, base, p, w);
    PutGet16(msg, base, rr.priority as int);
    PutGet16(msg, base + 2, rr.weight as int);
    PutGet16(msg, base + 4, rr.port as int);
    TableLimit(msg, base, base + 6, table);
    NameRoundTrip(msg, base + 6, table, rr.target);
    EmitNameLength(base + 6, table, rr.target);
  }

  lemma NegativeRoundTrip(msg: Bytes, base: nat, table: Table, rr: ResourceRecord, blank: ResourceRecord)
    requires TableSound(msg, base, table) && ProperName(rr.nextDomain)
    requires KindOf(rr.rtype) == Negative && blank.rtype == rr.rtype
    requires EmitRdata(base, table, rr).error == None
    requires At(msg, base, EmitRdata(base, table, rr).bytes)
    ensures var d := EmitRdata(base, table, rr);
            && Returns(ReadRdata(msg, base, |d.bytes|, blank), NormalRdata(rr, blank), ShortName(rr.nextDomain))
            && TableSound(msg, base + |d.bytes|, d.table)
  {
    hide EmitName, TableSound, Encode, Decode, Ascending, Walk, Dots, NormalizeName;
    var n := EmitName(base, table, rr.nextDomain);
    AtSplit(msg, base, n.bytes, Encode(rr.typeBitMaps));
    NameRoundTrip(msg, base, table, rr.nextDomain);
    BitMapsRoundTrip(rr.typeBitMaps);
    TableLimit(msg, base + |n.bytes|, base + |EmitRdata(base, table, rr).bytes|, n.table);
  }

  /** Round trip of RDATA, at any offset and with any sound table. */
  lemma RdataRoundTrip(msg: Bytes, base: nat, table: Table, rr: ResourceRecord, blank: ResourceRecord)
    requires TableSound(msg, base, table) && ProperRecord(rr) && blank.rtype == rr.rtype
    requires EmitRdata(base, table, rr).error == None
    requires At(msg, base, EmitRdata(base, table, rr).bytes)
    ensures var d := EmitRdata(base, table, rr);
            && Returns(ReadRdata(msg, base, |d.bytes|, blank), NormalRdata(rr, blank), ShortRecord(rr))
            && TableSound(msg, base + |d.bytes|, d.table)
  {
    hide EmitName, TableSound, Encode, Decode, Ascending, EmitStrings, ReadStrings, Dots, Walk, NormalizeName;
    match KindOf(rr.rtype)
    case Service => ServiceRoundTrip(msg, base, table, rr, blank);
    case Negative => NegativeRoundTrip(msg, base, table, rr, blank);
    case Pointer => NameRoundTrip(msg, base, table, rr.target);
    case Text =>
      StringsRoundTrip(WrittenText(rr.text));
      TableLimit(msg, base, base + |EmitRdata(base, table, rr).bytes|, table);
    case _ =>
      TableLimit(msg, base, base + |EmitRdata(base, table, rr).bytes|, table);
  }

  /** The ten bytes after a record's name, read back. */
  lemma HeaderRoundTrip(msg: Bytes, at: nat, rr: ResourceRecord, rdLength: nat)
    requires rdLength < 0x1_0000 && At(msg, at, FixedHeader(rr) + Put16(rdLength))
    ensures Get16(msg, at) == rr.rtype && Get16(msg, at + 2) == FullClass(rr)
    ensures Get32(msg, at + 4) == rr.ttl && Get16(msg, at + 8) as int == rdLength
  {
    hide At, Put16, Put32, Get16, Get32;
    var t, c, l := Put16(rr.rtype as int), Put16(FullClass(rr) as int), Put32(rr.ttl as int);
    AtSplit(msg, at, t + c + l, Put16(rdLength));
    AtSplit(msg, at, t + c, l);
    AtSplit(msg, at, t, c);
    PutGet16(msg, at, rr.rtype as int);
    PutGet16(msg, at + 2, FullClass(rr) as int);
    PutGet32(msg, at + 4, rr.ttl as int);
    PutGet16(msg, at + 8, rdLength);
  }

  lemma FullClassHalves(rr: ResourceRecord)
    ensures FullClass(rr) % CACHE_FLUSH == rr.rclass % CACHE_FLUSH
    ensures FullClass(rr) >= CACHE_FLUSH <==> rr.cacheFlush || rr.rclass >= CACHE_FLUSH
  {
  }

  /** Writing a record keeps the table sound, whatever RDLENGTH is patched to. */
  lemma RecordTableSound(msg: Bytes, base: nat, table: Table, rr: ResourceRecord)
    requires TableSound(msg, base, table) && ProperRecord(rr)
    requires EmitRecord(base, table, rr).error == None
    requires At(msg, base, EmitRecord(base, table, rr).bytes)
    ensures var e := EmitRecord(base, table, rr); TableSound(msg, base + |e.bytes|, e.table)
  {
    hide At, EmitName, TableSound, Walk, Dots, Put16, NormalizeName, EmitRdata, ReadRdata, NormalRdata, FixedHeader;
    var n := EmitName(base, table, rr.name);
    var start := base + |n.bytes| + 10;
    var d := EmitRdata(start, n.table, rr);
    var header := FixedHeader(rr) + Put16(|d.bytes|);
    AtSplit(msg, base, n.bytes, header + d.bytes);
    AtSplit(msg, base + |n.bytes|, header, d.bytes);
    NameRoundTrip(msg, base, table, rr.name);
    TableLimit(msg, base + |n.bytes|, start, n.table);
    AtEnd(msg, start, d.bytes);
    RdataRoundTrip(msg, start, n.table, rr, NormalHeader(rr));
  }

  /** Round trip of a whole record, at any offset and with any sound table. */
  lemma RecordRoundTrip(msg: Bytes, base: nat, table: Table, rr: ResourceRecord)
    requires |msg| < 0x1_0000 && TableSound(msg, base, table) && ProperRecord(rr)
    requires EmitRecord(base, table, rr).error == None
    requires At(msg, base, EmitRecord(base, table, rr).bytes)
    ensures var e := EmitRecord(base, table, rr);
            && Returns(ReadRecord(msg, base), Parsed(NormalRecord(rr), base + |e.bytes|), ShortRecord(rr))
            && TableSound(msg, base + |e.bytes|, e.table)
  {
    hide At, EmitName, TableSound, Walk, Dots, Put16, Get16, Get32, NormalizeName;
    hide EmitRdata, ReadRdata, NormalRdata, FixedHeader, FullClass;
    var n := EmitName(base, table, rr.name);
    var start := base + |n.bytes| + 10;
    var d := EmitRdata(start, n.table, rr);
    var header := FixedHeader(rr) + Put16(|d.bytes|);
    AtSplit(msg, base, n.bytes, header + d.bytes);
    AtSplit(msg, base + |n.bytes|, header, d.bytes);
    NameRoundTrip(msg, base, table, rr.name);
    TableLimit(msg, base + |n.bytes|, start, n.table);
    AtEnd(msg, start, d.bytes);
    HeaderRoundTrip(msg, base + |n.bytes|, rr, |d.bytes|);
    FullClassHalves(rr);
    RdataRoundTrip(msg, start, n.table, rr, NormalHeader(rr));
  }

  lemma AtEnd(msg: Bytes, base: nat, part: Bytes)
    requires At(msg, base, part)
    ensures base + |part| <= |msg|
  {
  }

  lemma QuestionRoundTrip(msg: Bytes, base: nat, table: Table, q: Question)
    requires TableSound(msg, base, table) && ProperName(q.name)
    requires EmitQuestion(base, table, q).error == None
    requires At(msg, base, EmitQuestion(base, table, q).bytes)
    ensures var e := EmitQuestion(base, table, q);
            && Returns(ReadQuestion(msg, base), Parsed(NormalQuestion(q), base + |e.bytes|), ShortName(q.name))
            && TableSound(msg, base + |e.bytes|, e.table)
  {
    hide At, EmitName, TableSound, Walk, Dots, Put16, Get16, NormalizeName;
    var n := EmitName(base, table, q.name);
    var next := base + |n.bytes|;
    AtSplit(msg, base, n.bytes, Put16(q.qtype as int) + Put16(q.qclass as int));
    AtSplit(msg, next, Put16(q.qtype as int), Put16(q.qclass as int));
    AtEnd(msg, next + 2, Put16(q.qclass as int));
    NameRoundTrip(msg, base, table, q.name);
    PutGet16(msg, next, q.qtype as int);
    PutGet16(msg, next + 2, q.qclass as int);
    TableLimit(msg, next, next + 4, n.table);
  }

  // ----- what is not carried -----

  lemma ImproperQuestionLost(msg: Bytes, base: nat, table: Table, q: Question)
    requires TableSound(msg, base, table) && !ProperName(q.name)
    requires EmitQuestion(base, table, q).error == None
    requires At(msg, base, EmitQuestion(base, table, q).bytes)
    ensures ReadQuestion(msg, base).Ok? ==> ReadQuestion(msg, base).value.value != NormalQuestion(q)
  {
    hide At, EmitName, TableSound, ReadNameSpec, ProperName, Put16, NormalizeName;
    var n := EmitName(base, table, q.name);
    AtSplit(msg, base, n.bytes, Put16(q.qtype as int) + Put16(q.qclass as int));
    ImproperNameLost(msg, base, table, q.name);
  }

  lemma ImproperRdataLost(msg: Bytes, base: nat, table: Table, rr: ResourceRecord, blank: ResourceRecord)
    requires TableSound(msg, base, table) && !ProperName(RdataName(rr)) && blank.rtype == rr.rtype
    requires EmitRdata(base, table, rr).error == None
    requires At(msg, base, EmitRdata(base, table, rr).bytes)
    requires base + |EmitRdata(base, table, rr).bytes| <= |msg|
    ensures var r := ReadRdata(msg, base, |EmitRdata(base, table, rr).bytes|, blank);
            r.Ok? ==> r.value != NormalRdata(rr, blank)
  {
    hide At, EmitName, TableSound, ReadNameSpec, ProperName, Put16, NormalizeName, Encode, Decode, Ascending, Get16;
    match KindOf(rr.rtype)
    case Pointer => ImproperNameLost(msg, base, table, rr.target);
    case Service =>
      var fixed := Put16(rr.priority as int) + Put16(rr.weight as int) + Put16(rr.port as int);
      AtSplit(msg, base, fixed, EmitName(base + 6, table, rr.target).bytes);
      TableLimit(msg, base, base + 6, table);
      ImproperNameLost(msg, base + 6, table, rr.target);
    case Negative =>
      AtSplit(msg, base, EmitName(base, table, rr.nextDomain).bytes, Encode(rr.typeBitMaps));
      ImproperNameLost(msg, base, table, rr.nextDomain);
    case _ => RootIsProper();
  }

  lemma RootIsProper()
    ensures ProperName([DOT])
  {
  }

  lemma ReadRdataKeepsName(msg: Bytes, offset: nat, rdLength: nat, blank: ResourceRecord)
    requires offset + rdLength <= |msg|
    ensures var r := ReadRdata(msg, offset, rdLength, blank); r.Ok? ==> r.value.name == blank.name
  {
    hide ReadNameSpec, ReadStrings, Decode, Get16;
  }

  lemma ReadRecordName(msg: Bytes, base: nat)
    ensures ReadRecord(msg, base).Ok? ==>
              ReadNameSpec(msg, base).Ok? && ReadRecord(msg, base).value.value.name == ReadNameSpec(msg, base).value.name
  {
    hide ReadNameSpec, ReadRdata, Get16, Get32;
    var n := ReadNameSpec(msg, base);
    if n.Ok? && n.value.next + 10 <= |msg| {
      var next := n.value.next;
      var classField := Get16(msg, next + 2);
      var rdLength := Get16(msg, next + 8) as int;
      if next + 10 + rdLength <= |msg| {
        ReadRdataKeepsName(msg, next + 10, rdLength, Blank(n.value.name, Get16(msg, next), classField % CACHE_FLUSH,
                           Get32(msg, next + 4), classField >= CACHE_FLUSH));
      }
    }
  }

  lemma NormalRdataKeepsName(rr: ResourceRecord, blank: ResourceRecord)
    ensures NormalRdata(rr, blank).name == blank.name
  {
    hide To4, To16, NormalizeName, Ascending;
  }

  lemma ImproperOwnerLost(msg: Bytes, base: nat, table: Table, rr: ResourceRecord)
    requires TableSound(msg, base, table) && !ProperName(rr.name)
    requires EmitRecord(base, table, rr).error == None
    requires At(msg, base, EmitRecord(base, table, rr).bytes)
    ensures ReadRecord(msg, base).Ok? ==> ReadRecord(msg, base).value.value != NormalRecord(rr)
  {
    hide At, EmitName, EmitRdata, TableSound, ReadNameSpec, ReadRecord, ProperName, Put16, NormalizeName, NormalRdata, FixedHeader;
    var n := EmitName(base, table, rr.name);
    var d := EmitRdata(base + |n.bytes| + 10, n.table, rr);
    AtSplit(msg, base, n.bytes, FixedHeader(rr) + Put16(|d.bytes|) + d.bytes);
    ImproperNameLost(msg, base, table, rr.name);
    ReadRecordName(msg, base);
    NormalRdataKeepsName(rr, NormalHeader(rr));
  }

  /** A record with an empty label in one of its names is nowhere read back as its normal form. */
  lemma ImproperRecordLost(msg: Bytes, base: nat, table: Table, rr: ResourceRecord)
    requires |msg| < 0x1_0000 && TableSound(msg, base, table) && !ProperRecord(rr)
    requires EmitRecord(base, table, rr).error == None
    requires At(msg, base, EmitRecord(base, table, rr).bytes)
    ensures ReadRecord(msg, base).Ok? ==> ReadRecord(msg, base).value.value != NormalRecord(rr)
  {
    hide At, EmitName, TableSound, Walk, Dots, Put16, Get16, Get32, NormalizeName, ProperName;
    hide EmitRdata, ReadRdata, NormalRdata, FixedHeader, FullClass, RdataName;
    if !ProperName(rr.name) {
      ImproperOwnerLost(msg, base, table, rr);
    } else {
      var n := EmitName(base, table, rr.name);
      var start := base + |n.bytes| + 10;
      var d := EmitRdata(start, n.table, rr);
      var header := FixedHeader(rr) + Put16(|d.bytes|);
      AtSplit(msg, base, n.bytes, header + d.bytes);
      AtSplit(msg, base + |n.bytes|, header, d.bytes);
      NameRoundTrip(msg, base, table, rr.name);
      TableLimit(msg, base + |n.bytes|, start, n.table);
      AtEnd(msg, start, d.bytes);
      HeaderRoundTrip(msg, base + |n.bytes|, rr, |d.bytes|);
      FullClassHalves(rr);
      ImproperRdataLost(msg, start, n.table, rr, NormalHeader(rr));
    }
  }

  // ----- offsets -----

  lemma RecordKeepsPointable(base: nat, table: Table, rr: ResourceRecord)
    requires Pointable(table)
    ensures Pointable(EmitRecord(base, table, rr).table)
  {
    hide EmitName, Pointable, Encode, EmitStrings;
    var n := EmitName(base, table, rr.name);
    NameKeepsPointable(base, table, rr.name);
    var start := base + |n.bytes| + 10;
    NameKeepsPointable(start, n.table, rr.target);
    NameKeepsPointable(start + 6, n.table, rr.target);
    NameKeepsPointable(start, n.table, rr.nextDomain);
  }

  // ----- records that can always be written -----

  lemma ShortEnough(name: Bytes)
    requires ProperName(name) && |NormalizeName(name)| <= NAME_LIMIT
    ensures ShortName(name)
  {
    hide Proper, Dots;
    var n := NormalizeName(name);
    if n == [DOT] {
      OneDot();
    } else {
      assert n[..|n| - 1] + [DOT] == n;
      DotsBound(n[..|n| - 1]);
    }
  }

  lemma OneDot()
    ensures Dots([DOT]) == 1
  {
    assert [DOT][1..] == [];
  }

  predicate Emittable(rr: ResourceRecord) {
    NameFits(rr.name) && match KindOf(rr.rtype)
      case Address4 => To4(rr.ip).Some?
      case Address6 => To16(rr.ip).Some?
      case Pointer => NameFits(rr.target)
      case Service => NameFits(rr.target)
      case Text => EmitStrings(WrittenText(rr.text)).error == None
      case Negative => NameFits(rr.nextDomain)
      case Opaque => true
  }

  /** The octets that a name takes at most. */
  function NameSize(name: Bytes): nat {
    |NormalizeName(name)| + 1
  }

  function RdataSize(rr: ResourceRecord): nat {
    match KindOf(rr.rtype)
    case Address4 => 4
    case Address6 => 16
    case Pointer => NameSize(rr.target)
    case Service => 6 + NameSize(rr.target)
    case Text => |EmitStrings(WrittenText(rr.text)).bytes|
    case Negative => NameSize(rr.nextDomain) + |Encode(rr.typeBitMaps)|
    case Opaque => |rr.rawData|
  }

  /** The octets that a record takes at most, with no name compressed. */
  function RecordSize(rr: ResourceRecord): nat {
    NameSize(rr.name) + 10 + RdataSize(rr)
  }

  lemma RdataSizeBound(base: nat, table: Table, rr: ResourceRecord)
    requires Emittable(rr) && Pointable(table)
    ensures var d := EmitRdata(base, table, rr);
            d.error == None && Pointable(d.table) && |d.bytes| <= RdataSize(rr)
  {
    hide EmitName, Pointable, NameFits, NormalizeName, Encode, EmitStrings, Noticed;
    match KindOf(rr.rtype)
    case Pointer => EmitNameNotes(base, table, rr.target);
    case Service => EmitNameNotes(base + 6, table, rr.target);
    case Negative => EmitNameNotes(base, table, rr.nextDomain);
    case _ =>
  }

  lemma RecordSizeBound(base: nat, table: Table, rr: ResourceRecord)
    requires Emittable(rr) && Pointable(table)
    ensures var e := EmitRecord(base, table, rr);
            e.error == None && Pointable(e.table) && |e.bytes| <= RecordSize(rr)
  {
    hide EmitName, EmitRdata, RdataSize, Pointable, NormalizeName, Noticed;
    var n := EmitName(base, table, rr.name);
    EmitNameNotes(base, table, rr.name);
    RdataSizeBound(base + |n.bytes| + 10, n.table, rr);
  }

  lemma QuestionSizeBound(base: nat, table: Table, q: Question)
    requires NameFits(q.name) && Pointable(table)
    ensures var e := EmitQuestion(base, table, q);
            e.error == None && Pointable(e.table) && |e.bytes| <= NameSize(q.name) + 4
  {
    hide EmitName, Pointable, NormalizeName, Noticed;
    EmitNameNotes(base, table, q.name);
  }
}
