/** The codec as the source runs it: a buffer and a compression table updated in place, and loops
    over a received message. Each method is proved equal to the append-only functions of Names,
    Records and Messages, whose properties are proved there. */
module Codec {
  import opened Octets
  import opened Names
  import opened TypeBitMaps
  import opened Records
  import opened Messages

  /** sofar followed by what is still to be emitted. */
  ghost function Continue(sofar: Bytes, rest: Emission): Emission {
    Emission(sofar + rest.bytes, rest.table, rest.error)
  }

  lemma ContinueTwice(a: Bytes, b: Bytes, rest: Emission)
    ensures Continue(a, Continue(b, rest)) == Continue(a + b, rest)
  {
    Assoc(a, b, rest.bytes);
  }

  /** One round of writeName's loop: the suffix is noted before the rest of the name is written. */
  lemma LabelStep(base: nat, table: Table, s: Bytes)
    requires s != [] && s + [DOT] !in table && FirstDot(s) <= MAX_LABEL
    ensures var head := [FirstDot(s) as Byte] + s[..FirstDot(s)];
            var noted := Note(table, s + [DOT], base);
            EmitLabels(base, table, s) ==
              if AfterFirstLabel(s) == [] then Emission(head + [0], noted, None)
              else Continue(head, EmitLabels(base + |head|, noted, AfterFirstLabel(s)))
  {
    hide EmitLabels, FirstDot, AfterFirstLabel, Note;
    EmitLabelsStep(base, table, s);
    if AfterFirstLabel(s) != [] {
      EmitLabelsNoted(base + 1 + FirstDot(s), table, AfterFirstLabel(s), s + [DOT], base);
    }
  }

  class Packer {
    var buf: Bytes
    var comp: Table

    constructor ()
      ensures buf == [] && comp == map[]
    {
      buf, comp := [], map[];
    }

    /** The compression table points only at places of the buffer that spell out its suffixes. */
    ghost predicate Sound()
      reads this
    {
      TableSound(buf, |buf|, comp)
    }

    method WriteName(name: Bytes) returns (err: Option<Error>)
      modifies this
      ensures var e := EmitName(|old(buf)|, old(comp), name);
              buf == old(buf) + e.bytes && comp == e.table && err == e.error
      ensures old(Sound()) && ProperName(name) && err == None ==> Sound()
    {
      hide EmitLabels, ProperName, TableSound;
      var n := NormalizeName(name);
      err := None;
      if n == [DOT] {
        buf := buf + [0];
      } else {
        err := WriteLabels(n[..|n| - 1]);
      }
      if old(Sound()) && ProperName(name) && err == None {
        NameKeepsSound(old(buf), old(comp), name);
      }
    }

    /** The loop of writeName over a name without its final dot. */
    method WriteLabels(s: Bytes) returns (err: Option<Error>)
      modifies this
      ensures var e := EmitLabels(|old(buf)|, old(comp), s);
              buf == old(buf) + e.bytes && comp == e.table && err == e.error
    {
      hide EmitLabels, IndexDot;
      var stripped := s;
      ghost var whole := EmitLabels(|buf|, comp, stripped);
      ghost var sofar: Bytes := [];
      while stripped != []
        invariant buf == old(buf) + sofar
        invariant whole == Continue(sofar, EmitLabels(|buf|, comp, stripped))
      {
        var suffix := stripped + [DOT];
        if suffix in comp {
          var offset := comp[suffix];
          EmitLabelsStep(|buf|, comp, stripped);
          if offset > MAX_OFFSET {
            return Some(InvalidPointer);
          }
          Assoc(old(buf), sofar, PointerBytes(offset));
          buf := buf + PointerBytes(offset);
          return None;
        }
        var first := stripped[..FirstDot(stripped)];
        var rest := AfterFirstLabel(stripped);
        if |first| > MAX_LABEL {
          EmitLabelsStep(|buf|, comp, stripped);
          return Some(LabelTooLong);
        }
        LabelStep(|buf|, comp, stripped);
        ghost var head := [|first| as Byte] + first;
        ghost var before := buf;
        var offset := |buf|;
        if offset <= MAX_OFFSET {
          comp := comp[suffix := offset];
        }
        buf := buf + [|first| as Byte];
        buf := buf + first;
        Assoc(before, [|first| as Byte], first);
        Assoc(old(buf), sofar, head);
        if rest == [] {
          Assoc(before, head, [0]);
          Assoc(old(buf), sofar, head + [0]);
          buf := buf + [0];
          return None;
        }
        ContinueTwice(sofar, head, EmitLabels(|buf|, comp, rest));
        sofar := sofar + head;
        stripped := rest;
      }
      NothingEmitted(|buf|, comp);
      return None;
    }

    /** The switch of ResourceRecord.pack writes RDATA and keeps the table sound. */
    method WriteRdata(rr: ResourceRecord) returns (err: Option<Error>)
      modifies this
      ensures var e := EmitRdata(|old(buf)|, old(comp), rr);
              buf == old(buf) + e.bytes && comp == e.table && err == e.error
      ensures old(Sound()) && ProperRecord(rr) && err == None ==> Sound()
    {
      err := WriteRdataFields(rr);
      hide EmitRdata, ProperRecord, TableSound;
      if old(Sound()) && ProperRecord(rr) && err == None {
        RdataKeepsSound(old(buf), old(comp), rr);
      }
    }

    method WriteRdataFields(rr: ResourceRecord) returns (err: Option<Error>)
      modifies this
      ensures var e := EmitRdata(|old(buf)|, old(comp), rr);
              buf == old(buf) + e.bytes && comp == e.table && err == e.error
    {
      hide EmitName, Encode, Put16, EmitStrings, TableSound;
      match KindOf(rr.rtype) {
        case Address4 =>
          var ip4 := To4(rr.ip);
          if ip4.None? {
            return Some(NotIPv4);
          }
          buf := buf + ip4.value;
          return None;
        case Address6 =>
          var ip6 := To16(rr.ip);
          if ip6.None? {
            return Some(NotIPv6);
          }
          buf := buf + ip6.value;
          return None;
        case Pointer =>
          err := WriteName(rr.target);
        case Service =>
          buf := buf + Put16(rr.priority as int);
          buf := buf + Put16(rr.weight as int);
          buf := buf + Put16(rr.port as int);
          err := WriteName(rr.target);
        case Text =>
          err := WriteStrings(rr.text);
        case Negative =>
          err := WriteName(rr.nextDomain);
          if err.None? {
            Assoc(old(buf), EmitName(|old(buf)|, old(comp), rr.nextDomain).bytes, Encode(rr.typeBitMaps));
            buf := EncodeTypeBitMaps(buf, rr.typeBitMaps);
          }
        case Opaque =>
          buf := buf + rr.rawData;
          return None;
      }
    }

    method WriteStrings(text: seq<Bytes>) returns (err: Option<Error>)
      modifies this`buf
      ensures var c := EmitStrings(WrittenText(text)); buf == old(buf) + c.bytes && err == c.error
    {
      hide EmitStrings;
      if |text| == 0 {
        EmptyString();
        buf := buf + [0];
        return None;
      }
      ghost var whole := EmitStrings(text);
      ghost var sofar: Bytes := [];
      assert text[0..] == text;
      for i := 0 to |text|
        invariant buf == old(buf) + sofar
        invariant whole == ContinueChunk(sofar, EmitStrings(text[i..]))
      {
        var s := text[i];
        StringStep(text, i);
        if |s| > 255 {
          return Some(TextTooLong);
        }
        ghost var before := buf;
        buf := buf + [|s| as Byte];
        buf := buf + s;
        Assoc(before, [|s| as Byte], s);
        Assoc(old(buf), sofar, [|s| as Byte] + s);
        Assoc(sofar, [|s| as Byte] + s, EmitStrings(text[i + 1..]).bytes);
        sofar := sofar + ([|s| as Byte] + s);
      }
      StringsEnd(text);
      return None;
    }

    /** ResourceRecord.pack: RDLENGTH is patched into the buffer once RDATA has been written. */
    method PackRecord(rr: ResourceRecord) returns (err: Option<Error>)
      modifies this
      ensures var e := EmitRecord(|old(buf)|, old(comp), rr);
              buf == old(buf) + e.bytes && comp == e.table && err == e.error
      ensures old(Sound()) && ProperRecord(rr) && err == None ==> Sound()
    {
      hide EmitName, EmitRdata, TableSound, ProperName, FullClass, Put32;
      ghost var n := EmitName(|buf|, comp, rr.name);
      err := WriteName(rr.name);
      if err.Some? {
        return;
      }
      ghost var named := buf;
      buf := buf + Put16(rr.rtype as int);
      buf := buf + Put16(FullClass(rr) as int);
      buf := buf + Put32(rr.ttl as int);
      HeaderWritten(named, rr);
      var rdLenPos := |buf|;
      buf := buf + [0, 0];
      var rdStart := |buf|;
      if old(Sound()) && ProperRecord(rr) {
        TableExtends(named, buf, |named|, |buf|, comp);
        assert Sound();
      }
      ghost var d := EmitRdata(|buf|, comp, rr);
      err := WriteRdata(rr);
      RecordLayout(old(buf), n.bytes, FixedHeader(rr), [0, 0], d.bytes);
      if err.Some? {
        return;
      }
      var rdLen := |buf| - rdStart;
      Patch(named + FixedHeader(rr), Put16(rdLen), d.bytes);
      buf := buf[rdLenPos := (rdLen / 0x100 % 0x100) as Byte];
      buf := buf[rdLenPos + 1 := (rdLen % 0x100) as Byte];
      RecordLayout(old(buf), n.bytes, FixedHeader(rr), Put16(rdLen), d.bytes);
      if old(Sound()) && ProperRecord(rr) {
        RecordKeepsSound(old(buf), old(comp), rr);
      }
    }

    method PackQuestion(q: Question) returns (err: Option<Error>)
      modifies this
      ensures var e := EmitQuestion(|old(buf)|, old(comp), q);
              buf == old(buf) + e.bytes && comp == e.table && err == e.error
      ensures old(Sound()) && ProperName(q.name) && err == None ==> Sound()
    {
      hide EmitName, TableSound, ProperName, Put16;
      ghost var n := EmitName(|buf|, comp, q.name);
      err := WriteName(q.name);
      if err.Some? {
        return;
      }
      ghost var named := buf;
      buf := buf + Put16(q.qtype as int);
      buf := buf + Put16(q.qclass as int);
      Assoc(named, Put16(q.qtype as int), Put16(q.qclass as int));
      Assoc(old(buf), n.bytes, Put16(q.qtype as int) + Put16(q.qclass as int));
      if old(Sound()) && ProperName(q.name) {
        QuestionKeepsSound(old(buf), old(comp), q);
      }
    }
  }

  // ----- Message.Pack -----

  method PackRecords(p: Packer, rrs: seq<ResourceRecord>) returns (err: Option<Error>)
    modifies p
    ensures var e := EmitRecords(|old(p.buf)|, old(p.comp), rrs);
            p.buf == old(p.buf) + e.bytes && p.comp == e.table && err == e.error
    ensures old(p.Sound()) && ProperSection(rrs) && err == None ==> p.Sound()
  {
    hide EmitRecord, ProperRecord, TableSound;
    for i := 0 to |rrs|
      invariant old(p.buf) <= p.buf
      invariant EmitRecords(|old(p.buf)|, old(p.comp), rrs[..i])
             == Emission(p.buf[|old(p.buf)|..], p.comp, None)
      invariant old(p.Sound()) && ProperSection(rrs) ==> p.Sound()
    {
      assert rrs[..i + 1][..i] == rrs[..i];
      ghost var before := p.buf;
      err := p.PackRecord(rrs[i]);
      SuffixGrows(old(p.buf), before, p.buf[|before|..]);
      if err.Some? {
        RecordsStop(|old(p.buf)|, old(p.comp), rrs, i + 1);
        return;
      }
    }
    assert rrs[..|rrs|] == rrs;
    return None;
  }

  method PackQuestions(p: Packer, qs: seq<Question>) returns (err: Option<Error>)
    modifies p
    ensures var e := EmitQuestions(|old(p.buf)|, old(p.comp), qs);
            p.buf == old(p.buf) + e.bytes && p.comp == e.table && err == e.error
    ensures old(p.Sound()) && (forall q :: q in qs ==> ProperName(q.name)) && err == None ==> p.Sound()
  {
    hide EmitQuestion, ProperName, TableSound;
    for i := 0 to |qs|
      invariant old(p.buf) <= p.buf
      invariant EmitQuestions(|old(p.buf)|, old(p.comp), qs[..i])
             == Emission(p.buf[|old(p.buf)|..], p.comp, None)
      invariant old(p.Sound()) && (forall q :: q in qs ==> ProperName(q.name)) ==> p.Sound()
    {
      assert qs[..i + 1][..i] == qs[..i];
      ghost var before := p.buf;
      err := p.PackQuestion(qs[i]);
      SuffixGrows(old(p.buf), before, p.buf[|before|..]);
      if err.Some? {
        QuestionsStop(|old(p.buf)|, old(p.comp), qs, i + 1);
        return;
      }
    }
    assert qs[..|qs|] == qs;
    return None;
  }

  /** Message.Pack. */
  method PackMessage(m: Message) returns (r: Result<Bytes>)
    ensures r == Pack(m)
  {
    hide EmitQuestions, EmitRecords, TableSound, ProperSection;
    var p := new Packer();
    p.buf := HeaderBytes(m);
    var err := PackQuestions(p, m.questions);
    ghost var q := EmitQuestions(HEADER_SIZE, map[], m.questions);
    if err.Some? {
      return Err(err.value);
    }
    err := PackRecords(p, m.answers);
    ghost var a := EmitSection(q, m.answers);
    if err.Some? {
      return Err(err.value);
    }
    Assoc(HeaderBytes(m), q.bytes, EmitRecords(HEADER_SIZE + |q.bytes|, q.table, m.answers).bytes);
    err := PackRecords(p, m.authorities);
    ghost var n := EmitSection(a, m.authorities);
    if err.Some? {
      return Err(err.value);
    }
    Assoc(HeaderBytes(m), a.bytes, EmitRecords(HEADER_SIZE + |a.bytes|, a.table, m.authorities).bytes);
    err := PackRecords(p, m.additionals);
    if err.Some? {
      return Err(err.value);
    }
    Assoc(HeaderBytes(m), n.bytes, EmitRecords(HEADER_SIZE + |n.bytes|, n.table, m.additionals).bytes);
    if |p.buf| > MAX_MESSAGE {
      return Err(MessageTooLarge);
    }
    return Ok(p.buf);
  }

  lemma SuffixGrows(start: Bytes, before: Bytes, more: Bytes)
    requires start <= before
    ensures (before + more)[|start|..] == before[|start|..] + more
  {
  }

  /** A section that fails on a prefix fails there as a whole. */
  lemma {:induction false} RecordsStop(base: nat, table: Table, rrs: seq<ResourceRecord>, i: nat)
    requires i <= |rrs| && EmitRecords(base, table, rrs[..i]).error.Some?
    ensures EmitRecords(base, table, rrs) == EmitRecords(base, table, rrs[..i])
    decreases |rrs|
  {
    hide EmitRecord;
    if i < |rrs| {
      assert rrs[..|rrs| - 1][..i] == rrs[..i];
      RecordsStop(base, table, rrs[..|rrs| - 1], i);
    } else {
      assert rrs[..i] == rrs;
    }
  }

  lemma {:induction false} QuestionsStop(base: nat, table: Table, qs: seq<Question>, i: nat)
    requires i <= |qs| && EmitQuestions(base, table, qs[..i]).error.Some?
    ensures EmitQuestions(base, table, qs) == EmitQuestions(base, table, qs[..i])
    decreases |qs|
  {
    hide EmitQuestion;
    if i < |qs| {
      assert qs[..|qs| - 1][..i] == qs[..i];
      QuestionsStop(base, table, qs[..|qs| - 1], i);
    } else {
      assert qs[..i] == qs;
    }
  }

  // ----- UnpackMessage -----

  method UnpackStrings(msg: Bytes, offset: nat, end: nat) returns (r: Result<seq<Bytes>>)
    requires offset <= end <= |msg|
    ensures r == ReadStrings(msg[offset..end])
  {
    hide ReadStrings;
    var text: seq<Bytes> := [];
    var pos := offset;
    ghost var whole := ReadStrings(msg[offset..end]);
    PrependStrings([], [], whole);
    while pos < end
      invariant offset <= pos <= end
      invariant whole == Prepended(text, ReadStrings(msg[pos..end]))
    {
      ReadStringsStep(msg, pos, end);
      var l := msg[pos] as int;
      pos := pos + 1;
      if pos + l > end {
        return Err(TextTruncated);
      }
      PrependStrings(text, [msg[pos..pos + l]], ReadStrings(msg[pos + l..end]));
      text := text + [msg[pos..pos + l]];
      pos := pos + l;
    }
    ReadStringsStep(msg, pos, end);
    assert text + [] == text;
    return Ok(text);
  }

  /** unpackRDATA. */
  method UnpackRdata(msg: Bytes, offset: nat, rdLength: nat, blank: ResourceRecord)
    returns (r: Result<ResourceRecord>)
    requires offset + rdLength <= |msg|
    ensures r == ReadRdata(msg, offset, rdLength, blank)
  {
    hide ReadNameSpec, Decode, ReadStrings, Get16;
    var end := offset + rdLength;
    match KindOf(blank.rtype) {
      case Address4 =>
        if rdLength != 4 {
          return Err(BadALength);
        }
        return Ok(blank.(ip := msg[offset..end]));
      case Address6 =>
        if rdLength != 16 {
          return Err(BadAaaaLength);
        }
        return Ok(blank.(ip := msg[offset..end]));
      case Pointer =>
        var name :- ReadName(msg, offset);
        return Ok(blank.(target := name.name));
      case Service =>
        if rdLength < 7 {
          return Err(SrvTooShort);
        }
        var rr := blank.(priority := Get16(msg, offset), weight := Get16(msg, offset + 2), port := Get16(msg, offset + 4));
        var target :- ReadName(msg, offset + 6);
        return Ok(rr.(target := target.name));
      case Text =>
        var text :- UnpackStrings(msg, offset, end);
        return Ok(blank.(text := text));
      case Negative =>
        var next :- ReadName(msg, offset);
        var types: seq<U16> := [];
        DecodeNothing();
        if next.next <= end {
          types :- DecodeTypeBitMaps(msg, next.next, end);
        }
        return Ok(blank.(nextDomain := next.name, typeBitMaps := types));
      case Opaque =>
        return Ok(blank.(rawData := msg[offset..end]));
    }
  }

  /** readRRs. It reads no byte outside data, whatever data holds. */
  method UnpackRecords(data: Bytes, start: nat, count: nat) returns (r: Result<Parsed<seq<ResourceRecord>>>)
    ensures r == ReadRecords(data, start, count)
  {
    hide ReadNameSpec, ReadRdata, Get16, Get32;
    var rrs: seq<ResourceRecord> := [];
    var offset: nat := start;
    for i := 0 to count
      invariant ReadRecords(data, start, i) == Ok(Parsed(rrs, offset))
    {
      ReadRecordsStop(data, start, i + 1, count);
      var name :- ReadName(data, offset);
      offset := name.next;
      if offset + 10 > |data| {
        return Err(TruncatedHeader);
      }
      var classField := Get16(data, offset + 2);
      var rr := Blank(name.name, Get16(data, offset), classField % CACHE_FLUSH, Get32(data, offset + 4), classField >= CACHE_FLUSH);
      var rdLength := Get16(data, offset + 8) as int;
      offset := offset + 10;
      if offset + rdLength > |data| {
        return Err(TruncatedRdata);
      }
      rr :- UnpackRdata(data, offset, rdLength, rr);
      offset := offset + rdLength;
      rrs := rrs + [rr];
    }
    return Ok(Parsed(rrs, offset));
  }

  method UnpackQuestions(data: Bytes, start: nat, count: nat) returns (r: Result<Parsed<seq<Question>>>)
    ensures r == ReadQuestions(data, start, count)
  {
    hide ReadNameSpec, Get16;
    var qs: seq<Question> := [];
    var offset: nat := start;
    for i := 0 to count
      invariant ReadQuestions(data, start, i) == Ok(Parsed(qs, offset))
    {
      ReadQuestionsStop(data, start, i + 1, count);
      var name :- ReadName(data, offset);
      offset := name.next;
      if offset + 4 > |data| {
        return Err(TruncatedQuestion);
      }
      qs := qs + [Question(name.name, Get16(data, offset), Get16(data, offset + 2))];
      offset := offset + 4;
    }
    return Ok(Parsed(qs, offset));
  }

  /** UnpackMessage, on any bytes at all. */
  method UnpackMessage(data: Bytes) returns (r: Result<Message>)
    ensures r == Unpack(data)
  {
    hide ReadRecords, ReadQuestions, Get16;
    if |data| < HEADER_SIZE {
      return Err(MessageTooShort);
    }
    var qd, an, ns, ar := Get16(data, 4), Get16(data, 6), Get16(data, 8), Get16(data, 10);
    var q :- UnpackQuestions(data, HEADER_SIZE, qd as int);
    var a :- UnpackRecords(data, q.next, an as int);
    var n :- UnpackRecords(data, a.next, ns as int);
    var x :- UnpackRecords(data, n.next, ar as int);
    return Ok(Message(Get16(data, 0), Get16(data, 2), qd, an, ns, ar, q.value, a.value, n.value, x.value));
  }

  // ----- steps of the reader -----

  ghost function Prepended(text: seq<Bytes>, r: Result<seq<Bytes>>): Result<seq<Bytes>> {
    match r
    case Err(e) => Err(e)
    case Ok(rest) => Ok(text + rest)
  }

  lemma PrependStrings(a: seq<Bytes>, b: seq<Bytes>, r: Result<seq<Bytes>>)
    ensures Prepended(a, Prepended(b, r)) == Prepended(a + b, r)
    ensures Prepended([], r) == r
  {
    if r.Ok? {
      assert a + (b + r.value) == a + b + r.value;
      assert [] + r.value == r.value;
    }
  }

  lemma ReadStringsStep(msg: Bytes, pos: nat, end: nat)
    requires pos <= end <= |msg|
    ensures pos == end ==> ReadStrings(msg[pos..end]) == Ok([])
    ensures pos < end ==>
              ReadStrings(msg[pos..end]) ==
                var next := pos + 1 + msg[pos] as int;
                if next > end then Err(TextTruncated)
                else Prepended([msg[pos + 1..next]], ReadStrings(msg[next..end]))
  {
    if pos < end && pos + 1 + msg[pos] as int <= end {
      var next := pos + 1 + msg[pos] as int;
      SubSlice(msg, pos, end, 1, next - pos);
      SubSlice(msg, pos, end, next - pos, end - pos);
      assert msg[pos..end][next - pos..] == msg[pos..end][next - pos..end - pos];
    }
  }

  lemma DecodeNothing()
    ensures Decode([]) == Ok([])
  {
  }

  lemma {:induction false} ReadRecordsStop(data: Bytes, start: nat, i: nat, count: nat)
    requires i <= count
    ensures ReadRecords(data, start, i).Err? ==>
              ReadRecords(data, start, count) == Err(ReadRecords(data, start, i).error)
    decreases count - i
  {
    hide ReadRecord;
    if i < count {
      ReadRecordsStop(data, start, i, count - 1);
    }
  }

  lemma {:induction false} ReadQuestionsStop(data: Bytes, start: nat, i: nat, count: nat)
    requires i <= count
    ensures ReadQuestions(data, start, i).Err? ==>
              ReadQuestions(data, start, count) == Err(ReadQuestions(data, start, i).error)
    decreases count - i
  {
    hide ReadQuestion;
    if i < count {
      ReadQuestionsStop(data, start, i, count - 1);
    }
  }

  // ----- steps of the writer -----

  ghost function ContinueChunk(sofar: Bytes, rest: Chunk): Chunk {
    Chunk(sofar + rest.bytes, rest.error)
  }

  lemma EmptyString()
    ensures EmitStrings([[]]) == Chunk([0], None)
  {
  }

  lemma StringStep(text: seq<Bytes>, i: nat)
    requires i < |text|
    ensures EmitStrings(text[i..]) ==
      if |text[i]| > 255 then Chunk([], Some(TextTooLong))
      else ContinueChunk([|text[i]| as Byte] + text[i], EmitStrings(text[i + 1..]))
  {
    assert text[i..][1..] == text[i + 1..];
  }

  lemma StringsEnd(text: seq<Bytes>)
    ensures EmitStrings(text[|text|..]) == Chunk([], None)
  {
  }

  lemma HeaderWritten(named: Bytes, rr: ResourceRecord)
    ensures named + Put16(rr.rtype as int) + Put16(FullClass(rr) as int) + Put32(rr.ttl as int)
         == named + FixedHeader(rr)
  {
    hide Put16, Put32, FullClass;
    var t, c, l := Put16(rr.rtype as int), Put16(FullClass(rr) as int), Put32(rr.ttl as int);
    Assoc(named, t, c);
    Assoc(named, t + c, l);
  }

  lemma RecordLayout(buf: Bytes, name: Bytes, header: Bytes, rdLength: Bytes, rdata: Bytes)
    ensures buf + name + header + rdLength + rdata == buf + (name + (header + rdLength + rdata))
  {
  }

  /** Two bytes overwritten in place: the buffer is as if they had been written at first. */
  lemma Patch(before: Bytes, patch: Bytes, after: Bytes)
    requires |patch| == 2
    ensures (before + [0, 0] + after)[|before| := patch[0]][|before| + 1 := patch[1]] == before + patch + after
  {
  }

  lemma AtAfter(buf: Bytes, part: Bytes)
    ensures At(buf + part, |buf|, part)
  {
  }

  lemma NameKeepsSound(buf: Bytes, table: Table, name: Bytes)
    requires TableSound(buf, |buf|, table) && ProperName(name)
    requires EmitName(|buf|, table, name).error == None
    ensures var e := EmitName(|buf|, table, name); TableSound(buf + e.bytes, |buf + e.bytes|, e.table)
  {
    hide EmitName, TableSound, At, ProperName;
    var e := EmitName(|buf|, table, name);
    TableExtends(buf, buf + e.bytes, |buf|, |buf|, table);
    AtAfter(buf, e.bytes);
    NameRoundTrip(buf + e.bytes, |buf|, table, name);
  }

  lemma RdataKeepsSound(buf: Bytes, table: Table, rr: ResourceRecord)
    requires TableSound(buf, |buf|, table) && ProperRecord(rr)
    requires EmitRdata(|buf|, table, rr).error == None
    ensures var e := EmitRdata(|buf|, table, rr); TableSound(buf + e.bytes, |buf + e.bytes|, e.table)
  {
    hide EmitRdata, TableSound, At, ReadRdata, NormalRdata;
    var e := EmitRdata(|buf|, table, rr);
    TableExtends(buf, buf + e.bytes, |buf|, |buf|, table);
    AtAfter(buf, e.bytes);
    RdataRoundTrip(buf + e.bytes, |buf|, table, rr, NormalHeader(rr));
  }

  lemma RecordKeepsSound(buf: Bytes, table: Table, rr: ResourceRecord)
    requires TableSound(buf, |buf|, table) && ProperRecord(rr)
    requires EmitRecord(|buf|, table, rr).error == None
    ensures var e := EmitRecord(|buf|, table, rr); TableSound(buf + e.bytes, |buf + e.bytes|, e.table)
  {
    hide EmitRecord, TableSound, At;
    var e := EmitRecord(|buf|, table, rr);
    TableExtends(buf, buf + e.bytes, |buf|, |buf|, table);
    AtAfter(buf, e.bytes);
    RecordTableSound(buf + e.bytes, |buf|, table, rr);
  }

  lemma QuestionKeepsSound(buf: Bytes, table: Table, q: Question)
    requires TableSound(buf, |buf|, table) && ProperName(q.name)
    requires EmitQuestion(|buf|, table, q).error == None
    ensures var e := EmitQuestion(|buf|, table, q); TableSound(buf + e.bytes, |buf + e.bytes|, e.table)
  {
    hide EmitQuestion, TableSound, At, ProperName, ReadQuestion, NormalQuestion, ShortName, Returns;
    var e := EmitQuestion(|buf|, table, q);
    TableExtends(buf, buf + e.bytes, |buf|, |buf|, table);
    AtAfter(buf, e.bytes);
    QuestionRoundTrip(buf + e.bytes, |buf|, table, q);
  }
}
