/** How many pointers a reader follows for each name of a message, from the names alone, and so
    exactly which messages are read back: dns_name.go and dns_message.go. */
module JumpDepth {
  import opened Octets
  import opened Names
  import opened TypeBitMaps
  import opened Records
  import opened Messages

  /** The pointers that lead to each suffix written so far. */
  type Depths = map<Bytes, nat>

  // ----- the names in the order of writing -----

  /** The pointers in s, a name without its final dot: none, if it is spelled out to its end, or one
      to the first suffix written before and those that this one takes. */
  function Depth(known: Depths, s: Bytes): nat
    decreases |s|
  {
    if s == [] then 0
    else if s + [DOT] in known then known[s + [DOT]] + 1
    else Depth(known, AfterFirstLabel(s))
  }

  function Learn(known: Depths, s: Bytes): Depths
    decreases |s|
  {
    if s == [] || s + [DOT] in known then known
    else Learn(known, AfterFirstLabel(s))[s + [DOT] := Depth(known, s)]
  }

  function NameDepth(known: Depths, name: Bytes): nat {
    var n := NormalizeName(name);
    if n == [DOT] then 0 else Depth(known, n[..|n| - 1])
  }

  function LearnName(known: Depths, name: Bytes): Depths {
    var n := NormalizeName(name);
    if n == [DOT] then known else Learn(known, n[..|n| - 1])
  }

  predicate ShallowName(known: Depths, name: Bytes) {
    NameDepth(known, name) <= MAX_JUMPS
  }

  predicate ShallowRecord(known: Depths, rr: ResourceRecord) {
    ShallowName(known, rr.name) && ShallowName(LearnName(known, rr.name), RdataName(rr))
  }

  function LearnRecord(known: Depths, rr: ResourceRecord): Depths {
    LearnName(LearnName(known, rr.name), RdataName(rr))
  }

  function LearnQuestions(known: Depths, qs: seq<Question>): Depths {
    if qs == [] then known else LearnName(LearnQuestions(known, qs[..|qs| - 1]), qs[|qs| - 1].name)
  }

  function LearnRecords(known: Depths, rrs: seq<ResourceRecord>): Depths {
    if rrs == [] then known else LearnRecord(LearnRecords(known, rrs[..|rrs| - 1]), rrs[|rrs| - 1])
  }

  predicate ShallowQuestions(known: Depths, qs: seq<Question>) {
    qs == [] ||
    (ShallowQuestions(known, qs[..|qs| - 1]) && ShallowName(LearnQuestions(known, qs[..|qs| - 1]), qs[|qs| - 1].name))
  }

  predicate ShallowRecords(known: Depths, rrs: seq<ResourceRecord>) {
    rrs == [] ||
    (ShallowRecords(known, rrs[..|rrs| - 1]) && ShallowRecord(LearnRecords(known, rrs[..|rrs| - 1]), rrs[|rrs| - 1]))
  }

  /** No name of the message, in the order of writing, takes more than 128 pointers. */
  predicate ShallowMessage(m: Message) {
    var q := LearnQuestions(map[], m.questions);
    var a := LearnRecords(q, m.answers);
    var n := LearnRecords(a, m.authorities);
    && ShallowQuestions(map[], m.questions) && ShallowRecords(q, m.answers)
    && ShallowRecords(a, m.authorities) && ShallowRecords(n, m.additionals)
  }

  // ----- and on the wire -----

  /** known counts the pointers behind each entry of the table. */
  ghost predicate Counts(msg: Bytes, table: Table, known: Depths) {
    && known.Keys == table.Keys
    && forall k :: k in table ==> Chain(msg, table[k], table[k]).Whole? && Chain(msg, table[k], table[k]).jumps == known[k]
  }

  ghost predicate Takes(msg: Bytes, start: nat, pos: nat, jumps: nat) {
    start <= pos && Chain(msg, start, pos).Whole? && Chain(msg, start, pos).jumps == jumps
  }

  lemma CountsNote(msg: Bytes, table: Table, known: Depths, s: Bytes, base: nat, jumps: nat)
    requires Counts(msg, table, known) && base <= MAX_OFFSET && Takes(msg, base, base, jumps)
    ensures Counts(msg, Note(table, s, base), known[s := jumps])
  {
    hide Chain;
  }

  lemma TakesFromHere(msg: Bytes, start: nat, pos: nat, jumps: nat)
    requires Takes(msg, start, pos, jumps)
    ensures Takes(msg, pos, pos, jumps)
  {
    hide Chain;
    ChainLaterStart(msg, start, pos, pos);
  }

  lemma PointerTakes(msg: Bytes, start: nat, base: nat, table: Table, known: Depths, s: Bytes)
    requires start <= base && TableSound(msg, start, table) && Counts(msg, table, known)
    requires s + [DOT] in table && table[s + [DOT]] <= MAX_OFFSET && At(msg, base, PointerBytes(table[s + [DOT]]))
    ensures Takes(msg, start, base, known[s + [DOT]] + 1)
  {
    hide Chain, Dots, Fits, Proper, At;
    ChainOfPointer(msg, start, base, table[s + [DOT]]);
  }

  lemma LabelTakes(msg: Bytes, start: nat, base: nat, s: Bytes, jumps: nat)
    requires start <= base && s != [] && 0 < FirstDot(s) <= MAX_LABEL
    requires At(msg, base, [FirstDot(s) as Byte] + s[..FirstDot(s)])
    requires Takes(msg, start, base + 1 + FirstDot(s), jumps)
    ensures Takes(msg, start, base, jumps)
  {
    hide Chain, IndexDot, At;
    ChainOfLabel(msg, start, base, s[..FirstDot(s)]);
  }

  lemma EndTakes(msg: Bytes, start: nat, pos: nat)
    requires start <= pos && At(msg, pos, [0])
    ensures Takes(msg, start, pos, 0)
  {
    hide Chain, At;
    ChainOfEnd(msg, start, pos);
  }

  lemma DepthStep(known: Depths, s: Bytes)
    requires s != []
    ensures s + [DOT] in known ==> Depth(known, s) == known[s + [DOT]] + 1 && Learn(known, s) == known
    ensures s + [DOT] !in known ==>
              && Depth(known, s) == Depth(known, AfterFirstLabel(s))
              && Learn(known, s) == Learn(known, AfterFirstLabel(s))[s + [DOT] := Depth(known, s)]
    ensures Depth(known, []) == 0 && Learn(known, []) == known
  {
  }

  /** A name is written with exactly that many pointers, and the table goes on being counted. */
  lemma {:induction false} LabelsTake(msg: Bytes, start: nat, base: nat, table: Table, known: Depths, s: Bytes)
    requires start <= base && TableSound(msg, start, table) && Counts(msg, table, known) && Proper(s)
    requires EmitLabels(base, table, s).error == None && |msg| <= MAX_OFFSET
    requires At(msg, base, EmitLabels(base, table, s).bytes)
    ensures Takes(msg, start, base, Depth(known, s))
    ensures Counts(msg, EmitLabels(base, table, s).table, Learn(known, s))
    decreases |s|
  {
    hide TableSound, Takes, At, Proper, IndexDot, EmitLabels, Depth, Learn, Note;
    ProperStep(s);
    EmitLabelsStep(base, table, s);
    DepthStep(known, s);
    AtEnd(msg, base, EmitLabels(base, table, s).bytes);
    if s + [DOT] in table {
      SoundEntry(msg, start, table, s);
      PointerTakes(msg, start, base, table, known, s);
    } else {
      var head := [FirstDot(s) as Byte] + s[..FirstDot(s)];
      var next := base + 1 + FirstDot(s);
      if AfterFirstLabel(s) == [] {
        AtSplit(msg, base, head, [0]);
        EndTakes(msg, start, next);
      } else {
        AtSplit(msg, base, head, EmitLabels(next, table, AfterFirstLabel(s)).bytes);
        LabelsTake(msg, start, next, table, known, AfterFirstLabel(s));
      }
      LabelTakes(msg, start, base, s, Depth(known, s));
      TakesFromHere(msg, start, base, Depth(known, s));
      CountsNote(msg, if AfterFirstLabel(s) == [] then table else EmitLabels(next, table, AfterFirstLabel(s)).table,
                 Learn(known, AfterFirstLabel(s)), s + [DOT], base, Depth(known, s));
    }
  }

  lemma TakesReads(msg: Bytes, pos: nat, jumps: nat)
    requires Takes(msg, pos, pos, jumps)
    ensures ReadNameSpec(msg, pos).Ok? <==> jumps <= MAX_JUMPS
  {
    hide Chain, Walk;
    ChainIsWalk(msg, pos, pos, 0);
  }

  /** A name without empty labels is read exactly if it takes at most 128 pointers. */
  lemma NameReadIff(msg: Bytes, base: nat, table: Table, known: Depths, name: Bytes)
    requires TableSound(msg, base, table) && Counts(msg, table, known) && ProperName(name) && |msg| <= MAX_OFFSET
    requires EmitName(base, table, name).error == None
    requires At(msg, base, EmitName(base, table, name).bytes)
    ensures ReadNameSpec(msg, base).Ok? <==> ShallowName(known, name)
    ensures Counts(msg, EmitName(base, table, name).table, LearnName(known, name))
  {
    hide TableSound, Takes, At, Proper, EmitLabels, Depth, Learn, Counts, ReadNameSpec;
    var n := NormalizeName(name);
    if n == [DOT] {
      EndTakes(msg, base, base);
      TakesReads(msg, base, 0);
    } else {
      assert n[..|n| - 1] + [DOT] == n;
      LabelsTake(msg, base, base, table, known, n[..|n| - 1]);
      TakesReads(msg, base, Depth(known, n[..|n| - 1]));
    }
  }

  lemma RootIsShallow(known: Depths)
    ensures ShallowName(known, [DOT]) && LearnName(known, [DOT]) == known
  {
  }

  // ----- records and questions -----

  lemma NamedRdataReadIff(msg: Bytes, base: nat, table: Table, known: Depths, rr: ResourceRecord, blank: ResourceRecord)
    requires TableSound(msg, base, table) && Counts(msg, table, known) && ProperName(RdataName(rr)) && |msg| <= MAX_OFFSET
    requires KindOf(rr.rtype) == Service || KindOf(rr.rtype) == Negative
    requires blank.rtype == rr.rtype && EmitRdata(base, table, rr).error == None
    requires At(msg, base, EmitRdata(base, table, rr).bytes) && base + |EmitRdata(base, table, rr).bytes| <= |msg|
    ensures var d := EmitRdata(base, table, rr);
            && (ReadRdata(msg, base, |d.bytes|, blank).Ok? <==> ShallowName(known, RdataName(rr)))
            && Counts(msg, d.table, LearnName(known, RdataName(rr)))
  {
    hide At, EmitName, TableSound, Counts, ReadNameSpec, ProperName, Put16, NormalizeName, Encode, Decode, Ascending, Get16,
         ShallowName, LearnName, ReadsBack;
    if KindOf(rr.rtype) == Service {
      var n := EmitName(base + 6, table, rr.target);
      AtSplit(msg, base, Put16(rr.priority as int) + Put16(rr.weight as int) + Put16(rr.port as int), n.bytes);
      TableLimit(msg, base, base + 6, table);
      NameReadIff(msg, base + 6, table, known, rr.target);
      EmitNameLength(base + 6, table, rr.target);
    } else {
      var n := EmitName(base, table, rr.nextDomain);
      AtSplit(msg, base, n.bytes, Encode(rr.typeBitMaps));
      NameReadIff(msg, base, table, known, rr.nextDomain);
      NameRoundTrip(msg, base, table, rr.nextDomain);
      NextOfName(msg, base, rr.nextDomain, base + |n.bytes|);
      AtEncoded(msg, base + |n.bytes|, Encode(rr.typeBitMaps));
      BitMapsRoundTrip(rr.typeBitMaps);
    }
  }

  lemma NextOfName(msg: Bytes, base: nat, name: Bytes, next: nat)
    requires ReadsBack(ReadNameSpec(msg, base), name, next)
    ensures ReadNameSpec(msg, base).Ok? ==> ReadNameSpec(msg, base).value.next == next
  {
    hide ReadNameSpec, NormalizeName, Dots;
  }

  lemma AtEncoded(msg: Bytes, base: nat, part: Bytes)
    requires At(msg, base, part)
    ensures base + |part| <= |msg| && msg[base..base + |part|] == part
  {
  }

  lemma PlainRdataReads(msg: Bytes, base: nat, table: Table, rr: ResourceRecord, blank: ResourceRecord)
    requires KindOf(rr.rtype) != Service && KindOf(rr.rtype) != Negative && KindOf(rr.rtype) != Pointer
    requires blank.rtype == rr.rtype && EmitRdata(base, table, rr).error == None
    requires At(msg, base, EmitRdata(base, table, rr).bytes) && base + |EmitRdata(base, table, rr).bytes| <= |msg|
    ensures ReadRdata(msg, base, |EmitRdata(base, table, rr).bytes|, blank).Ok?
    ensures EmitRdata(base, table, rr).table == table && RdataName(rr) == [DOT]
  {
    hide EmitStrings, ReadStrings;
    if KindOf(rr.rtype) == Text {
      StringsRoundTrip(WrittenText(rr.text));
    }
  }

  lemma RdataReadIff(msg: Bytes, base: nat, table: Table, known: Depths, rr: ResourceRecord, blank: ResourceRecord)
    requires TableSound(msg, base, table) && Counts(msg, table, known) && ProperName(RdataName(rr)) && |msg| <= MAX_OFFSET
    requires blank.rtype == rr.rtype && EmitRdata(base, table, rr).error == None
    requires At(msg, base, EmitRdata(base, table, rr).bytes) && base + |EmitRdata(base, table, rr).bytes| <= |msg|
    ensures var d := EmitRdata(base, table, rr);
            && (ReadRdata(msg, base, |d.bytes|, blank).Ok? <==> ShallowName(known, RdataName(rr)))
            && Counts(msg, d.table, LearnName(known, RdataName(rr)))
  {
    hide At, EmitName, TableSound, Counts, ReadNameSpec, ProperName, Put16, NormalizeName, Encode, Decode, Ascending, Get16,
         ShallowName, LearnName, EmitStrings, ReadStrings;
    RootIsShallow(known);
    if KindOf(rr.rtype) == Service || KindOf(rr.rtype) == Negative {
      NamedRdataReadIff(msg, base, table, known, rr, blank);
    } else if KindOf(rr.rtype) == Pointer {
      NameReadIff(msg, base, table, known, rr.target);
    } else {
      PlainRdataReads(msg, base, table, rr, blank);
    }
  }

  lemma RecordReadIff(msg: Bytes, base: nat, table: Table, known: Depths, rr: ResourceRecord)
    requires TableSound(msg, base, table) && Counts(msg, table, known) && ProperRecord(rr) && |msg| <= MAX_OFFSET
    requires EmitRecord(base, table, rr).error == None
    requires At(msg, base, EmitRecord(base, table, rr).bytes)
    ensures ReadRecord(msg, base).Ok? <==> ShallowRecord(known, rr)
    ensures Counts(msg, EmitRecord(base, table, rr).table, LearnRecord(known, rr))
  {
    hide At, EmitName, TableSound, Counts, ReadNameSpec, Put16, Get16, Get32, NormalizeName, ProperName, ShallowName, LearnName;
    hide EmitRdata, ReadRdata, NormalRdata, FixedHeader, FullClass, RdataName, ReadsBack;
    var n := EmitName(base, table, rr.name);
    var start := base + |n.bytes| + 10;
    var d := EmitRdata(start, n.table, rr);
    var header := FixedHeader(rr) + Put16(|d.bytes|);
    AtSplit(msg, base, n.bytes, header + d.bytes);
    AtSplit(msg, base + |n.bytes|, header, d.bytes);
    NameReadIff(msg, base, table, known, rr.name);
    NameRoundTrip(msg, base, table, rr.name);
    NextOfName(msg, base, rr.name, base + |n.bytes|);
    TableLimit(msg, base + |n.bytes|, start, n.table);
    AtEnd(msg, start, d.bytes);
    HeaderRoundTrip(msg, base + |n.bytes|, rr, |d.bytes|);
    RdataReadIff(msg, start, n.table, LearnName(known, rr.name), rr,
                 Blank(if ReadNameSpec(msg, base).Ok? then ReadNameSpec(msg, base).value.name else [], rr.rtype,
                       FullClass(rr) % CACHE_FLUSH, rr.ttl, FullClass(rr) >= CACHE_FLUSH));
  }

  lemma QuestionReadIff(msg: Bytes, base: nat, table: Table, known: Depths, q: Question)
    requires TableSound(msg, base, table) && Counts(msg, table, known) && ProperName(q.name) && |msg| <= MAX_OFFSET
    requires EmitQuestion(base, table, q).error == None
    requires At(msg, base, EmitQuestion(base, table, q).bytes)
    ensures ReadQuestion(msg, base).Ok? <==> ShallowName(known, q.name)
    ensures Counts(msg, EmitQuestion(base, table, q).table, LearnName(known, q.name))
  {
    hide At, EmitName, TableSound, Counts, ReadNameSpec, Put16, Get16, NormalizeName, ProperName, ShallowName, LearnName, ReadsBack;
    var n := EmitName(base, table, q.name);
    var fixed := Put16(q.qtype as int) + Put16(q.qclass as int);
    AtSplit(msg, base, n.bytes, fixed);
    AtEnd(msg, base + |n.bytes|, fixed);
    NameReadIff(msg, base, table, known, q.name);
    NameRoundTrip(msg, base, table, q.name);
    NextOfName(msg, base, q.name, base + |n.bytes|);
  }

  // ----- sections -----

  lemma {:induction false} QuestionsReadIff(msg: Bytes, base: nat, table: Table, known: Depths, qs: seq<Question>)
    requires TableSound(msg, base, table) && Counts(msg, table, known) && |msg| <= MAX_OFFSET
    requires forall i :: 0 <= i < |qs| ==> ProperName(qs[i].name)
    requires EmitQuestions(base, table, qs).error == None
    requires At(msg, base, EmitQuestions(base, table, qs).bytes)
    ensures ReadQuestions(msg, base, |qs|).Ok? <==> ShallowQuestions(known, qs)
    ensures Counts(msg, EmitQuestions(base, table, qs).table, LearnQuestions(known, qs))
  {
    hide At, TableSound, Counts, EmitQuestion, ReadQuestion, NormalQuestions, ShortName, ProperName, ShallowName, LearnName;
    if qs != [] {
      var front, last := qs[..|qs| - 1], qs[|qs| - 1];
      var before := EmitQuestions(base, table, front);
      AtSplit(msg, base, before.bytes, EmitQuestion(base + |before.bytes|, before.table, last).bytes);
      QuestionsReadIff(msg, base, table, known, front);
      QuestionsRoundTrip(msg, base, table, front);
      QuestionReadIff(msg, base + |before.bytes|, before.table, LearnQuestions(known, front), last);
    }
  }

  lemma {:induction false} RecordsReadIff(msg: Bytes, base: nat, table: Table, known: Depths, rrs: seq<ResourceRecord>)
    requires TableSound(msg, base, table) && Counts(msg, table, known) && |msg| <= MAX_OFFSET && ProperSection(rrs)
    requires EmitRecords(base, table, rrs).error == None
    requires At(msg, base, EmitRecords(base, table, rrs).bytes)
    ensures ReadRecords(msg, base, |rrs|).Ok? <==> ShallowRecords(known, rrs)
    ensures Counts(msg, EmitRecords(base, table, rrs).table, LearnRecords(known, rrs))
  {
    hide At, TableSound, Counts, EmitRecord, ReadRecord, NormalRecords, ShortSection, ProperRecord, ShallowRecord, LearnRecord;
    if rrs != [] {
      var front, last := rrs[..|rrs| - 1], rrs[|rrs| - 1];
      var before := EmitRecords(base, table, front);
      AtSplit(msg, base, before.bytes, EmitRecord(base + |before.bytes|, before.table, last).bytes);
      RecordsReadIff(msg, base, table, known, front);
      RecordsRoundTrip(msg, base, table, front);
      RecordReadIff(msg, base + |before.bytes|, before.table, LearnRecords(known, front), last);
    }
  }

  lemma SectionReadIff(msg: Bytes, e: Emission, known: Depths, rrs: seq<ResourceRecord>)
    requires |msg| <= MAX_OFFSET && e.error == None && ProperSection(rrs)
    requires TableSound(msg, HEADER_SIZE + |e.bytes|, e.table) && Counts(msg, e.table, known)
    requires EmitSection(e, rrs).error == None && At(msg, HEADER_SIZE, EmitSection(e, rrs).bytes)
    ensures ReadRecords(msg, HEADER_SIZE + |e.bytes|, |rrs|).Ok? <==> ShallowRecords(known, rrs)
    ensures Counts(msg, EmitSection(e, rrs).table, LearnRecords(known, rrs))
  {
    hide At, TableSound, Counts, EmitRecords, ReadRecords, ShallowRecords, LearnRecords, ProperSection;
    AtSplit(msg, HEADER_SIZE, e.bytes, EmitRecords(HEADER_SIZE + |e.bytes|, e.table, rrs).bytes);
    RecordsReadIff(msg, HEADER_SIZE + |e.bytes|, e.table, known, rrs);
  }

  lemma NothingCounted(msg: Bytes)
    ensures Counts(msg, map[], map[])
  {
  }

  // ----- messages -----

  /** e, a body so far, is part of data and its table is sound there. */
  ghost predicate Stands(data: Bytes, e: Emission) {
    e.error == None && At(data, HEADER_SIZE, e.bytes) && TableSound(data, HEADER_SIZE + |e.bytes|, e.table)
  }

  lemma SectionStands(data: Bytes, e: Emission, rrs: seq<ResourceRecord>)
    requires |data| <= MAX_OFFSET && Stands(data, e) && ProperSection(rrs)
    requires EmitSection(e, rrs).error == None && At(data, HEADER_SIZE, EmitSection(e, rrs).bytes)
    ensures Stands(data, EmitSection(e, rrs))
  {
    hide At, TableSound, EmitSection, ReadRecords, ProperSection, NormalRecords, ShortSection, Returns;
    SectionCarried(data, e, rrs);
  }

  lemma QuestionsStand(data: Bytes, qs: seq<Question>)
    requires forall i :: 0 <= i < |qs| ==> ProperName(qs[i].name)
    requires EmitQuestions(HEADER_SIZE, map[], qs).error == None
    requires At(data, HEADER_SIZE, EmitQuestions(HEADER_SIZE, map[], qs).bytes)
    ensures Stands(data, EmitQuestions(HEADER_SIZE, map[], qs))
  {
    hide At, TableSound, EmitQuestions, ReadQuestions, ProperName, NormalQuestions, ShortName, Returns;
    EmptyTableSound(data, HEADER_SIZE);
    QuestionsRoundTrip(data, HEADER_SIZE, map[], qs);
  }

  lemma StandingSectionReadIff(data: Bytes, e: Emission, known: Depths, rrs: seq<ResourceRecord>)
    requires |data| <= MAX_OFFSET && Stands(data, e) && Counts(data, e.table, known) && ProperSection(rrs)
    requires EmitSection(e, rrs).error == None && At(data, HEADER_SIZE, EmitSection(e, rrs).bytes)
    ensures Stands(data, EmitSection(e, rrs))
    ensures ReadRecords(data, HEADER_SIZE + |e.bytes|, |rrs|).Ok? <==> ShallowRecords(known, rrs)
    ensures Counts(data, EmitSection(e, rrs).table, LearnRecords(known, rrs))
  {
    hide At, TableSound, Counts, EmitSection, ReadRecords, ShallowRecords, LearnRecords, ProperSection;
    SectionReadIff(data, e, known, rrs);
    SectionStands(data, e, rrs);
  }

  /** Of a message whose names have no empty label, each section can be read exactly if it is shallow. */
  lemma BodyReadIff(data: Bytes, m: Message)
    requires ProperMessage(m) && |data| <= MAX_OFFSET
    requires EmitBody(m).error == None && At(data, HEADER_SIZE, EmitBody(m).bytes)
    ensures var q := EmitQuestions(HEADER_SIZE, map[], m.questions);
            var a := EmitSection(q, m.answers);
            var n := EmitSection(a, m.authorities);
            ShallowMessage(m) <==>
              && ReadQuestions(data, HEADER_SIZE, |m.questions|).Ok?
              && ReadRecords(data, HEADER_SIZE + |q.bytes|, |m.answers|).Ok?
              && ReadRecords(data, HEADER_SIZE + |a.bytes|, |m.authorities|).Ok?
              && ReadRecords(data, HEADER_SIZE + |n.bytes|, |m.additionals|).Ok?
  {
    hide At, Stands, Counts, EmitQuestions, EmitSection, ReadQuestions, ReadRecords, ShallowQuestions, ShallowRecords,
         LearnQuestions, LearnRecords, ProperSection, ProperName, TableSound;
    var q := EmitQuestions(HEADER_SIZE, map[], m.questions);
    var a := EmitSection(q, m.answers);
    var n := EmitSection(a, m.authorities);
    var inQ := LearnQuestions(map[], m.questions);
    var inA := LearnRecords(inQ, m.answers);
    SectionPrefix(data, n, m.additionals);
    SectionPrefix(data, a, m.authorities);
    SectionPrefix(data, q, m.answers);
    EmptyTableSound(data, HEADER_SIZE);
    NothingCounted(data);
    QuestionsReadIff(data, HEADER_SIZE, map[], map[], m.questions);
    QuestionsStand(data, m.questions);
    StandingSectionReadIff(data, q, inQ, m.answers);
    StandingSectionReadIff(data, a, inA, m.authorities);
    StandingSectionReadIff(data, n, LearnRecords(inA, m.authorities), m.additionals);
  }

  lemma SectionsRead(data: Bytes, m: Message, q: nat, a: nat, n: nat, x: nat)
    requires |data| >= HEADER_SIZE
    requires Get16(data, 4) as int == |m.questions| && Get16(data, 6) as int == |m.answers|
    requires Get16(data, 8) as int == |m.authorities| && Get16(data, 10) as int == |m.additionals|
    requires Returns(ReadQuestions(data, HEADER_SIZE, |m.questions|), Parsed(NormalQuestions(m.questions), q),
                     forall i :: 0 <= i < |m.questions| ==> ShortName(m.questions[i].name))
    requires Returns(ReadRecords(data, q, |m.answers|), Parsed(NormalRecords(m.answers), a), ShortSection(m.answers))
    requires Returns(ReadRecords(data, a, |m.authorities|), Parsed(NormalRecords(m.authorities), n), ShortSection(m.authorities))
    requires Returns(ReadRecords(data, n, |m.additionals|), Parsed(NormalRecords(m.additionals), x), ShortSection(m.additionals))
    ensures Unpack(data).Ok? <==>
              && ReadQuestions(data, HEADER_SIZE, |m.questions|).Ok? && ReadRecords(data, q, |m.answers|).Ok?
              && ReadRecords(data, a, |m.authorities|).Ok? && ReadRecords(data, n, |m.additionals|).Ok?
  {
    hide ReadQuestions, ReadRecords, NormalQuestions, NormalRecords, ShortSection, ShortName, Get16;
  }

  /** Of every message without empty labels that packs, exactly whether it can be read back: it comes
      back as its normal form if no name takes more than 128 pointers, and is refused otherwise. */
  lemma MessageReadIff(m: Message)
    requires ProperMessage(m) && Pack(m).Ok?
    ensures CountsFit(m)
    ensures Unpack(Pack(m).value) == if ShallowMessage(m) then Ok(NormalMessage(m)) else Err(PointerLoop)
  {
    hide At, TableSound, EmitQuestions, EmitSection, ReadQuestions, ReadRecords, ProperMessage, Unpack, ShallowMessage;
    hide ShortSection, ShortMessage, ShortName, Get16, HeaderBytes, NormalMessage, NormalQuestions, NormalRecords;
    var q := EmitQuestions(HEADER_SIZE, map[], m.questions);
    var a := EmitSection(q, m.answers);
    var n := EmitSection(a, m.authorities);
    var body := EmitBody(m).bytes;
    var data := HeaderBytes(m) + body;
    PackSize(m);
    AtWhole(data);
    AtSplit(data, 0, HeaderBytes(m), body);
    HeaderCarried(data, m);
    BodyRoundTrip(data, m);
    BodyReadIff(data, m);
    MessageRoundTrip(m);
    SectionsRead(data, m, HEADER_SIZE + |q.bytes|, HEADER_SIZE + |a.bytes|, HEADER_SIZE + |n.bytes|, HEADER_SIZE + |body|);
  }

  /** Of all messages that pack: exactly those come back as their normal form whose names have no
      empty label and take at most 128 pointers each. */
  lemma CarriedIff(m: Message)
    requires Pack(m).Ok?
    ensures CountsFit(m)
    ensures Unpack(Pack(m).value) == Ok(NormalMessage(m)) <==> ProperMessage(m) && ShallowMessage(m)
  {
    hide Pack, Unpack, ProperMessage, ShallowMessage, NormalMessage;
    PackSize(m);
    if ProperMessage(m) {
      MessageReadIff(m);
    } else if Unpack(Pack(m).value) == Ok(NormalMessage(m)) {
      MessageWasProper(m);
    }
  }
}
