/** How far the reader's limit of 128 pointers reaches: every message whose names have at most 128
    labels can be read back, and one label more is too many. */
module JumpLimit {
  import opened Octets
  import opened Names
  import opened Records
  import opened Messages

  const LETTER: Byte := 97

  /** "a.a. ... .a" with n labels, without its final dot. */
  function Rungs(n: nat): (s: Bytes)
    requires n > 0
    ensures |s| == 2 * n - 1 && s[0] == LETTER && (n > 1 ==> s[1] == DOT)
  {
    if n == 1 then [LETTER] else [LETTER, DOT] + Rungs(n - 1)
  }

  function Rung(n: nat): Bytes
    requires n > 0
  {
    Rungs(n) + [DOT]
  }

  /** Questions for the names of 1, 2, ..., n labels: each is written as one label and a pointer to
      the one before. */
  function Ladder(n: nat): (qs: seq<Question>)
    ensures |qs| == n
  {
    if n == 0 then [] else Ladder(n - 1) + [Question(Rung(n), TYPE_ANY, CLASS_IN)]
  }

  lemma RungShape(n: nat)
    requires n > 0
    ensures FirstDot(Rungs(n)) == 1 && NormalizeName(Rung(n)) == Rung(n)
    ensures Rung(n)[..|Rung(n)| - 1] == Rungs(n) && Rung(n) != [DOT]
    ensures n == 1 ==> AfterFirstLabel(Rungs(n)) == []
    ensures n > 1 ==> AfterFirstLabel(Rungs(n)) == Rungs(n - 1)
    ensures Rungs(n)[..1] == [LETTER]
  {
    var s := Rungs(n);
    assert IndexDot(s, 0) == IndexDot(s, 1) == 1;
    if n > 1 {
      assert s[2..] == Rungs(n - 1);
    }
  }

  lemma {:induction false} RungProper(n: nat)
    requires n > 0
    ensures Proper(Rungs(n)) && ProperName(Rung(n)) && Dots(Rung(n)) == n
  {
    hide IndexDot;
    RungShape(n);
    DotsSplit(Rungs(n));
    if n > 1 {
      RungProper(n - 1);
    }
  }

  /** The name at pos is read in exactly that many jumps. */
  ghost predicate Climbs(msg: Bytes, pos: nat, jumps: int) {
    Chain(msg, pos, pos).Whole? && Chain(msg, pos, pos).jumps == jumps
  }

  /** The state of the writer after the first n questions of a ladder. */
  ghost predicate Climbed(msg: Bytes, n: nat, e: Emission) {
    && e.error == None
    && |e.bytes| <= 8 * n
    && (forall k :: k in e.table <==> exists i :: 1 <= i <= n && k == Rung(i))
    && (forall i :: 1 <= i <= n ==>
          && e.table[Rung(i)] < HEADER_SIZE + |e.bytes|
          && Climbs(msg, e.table[Rung(i)], i - 1))
  }

  function Tail(table: Table, n: nat): (tail: Bytes)
    requires n > 1 ==> Rung(n - 1) in table && table[Rung(n - 1)] <= MAX_OFFSET
    requires n > 0
    ensures |tail| <= 2
  {
    if n == 1 then [0] else PointerBytes(table[Rung(n - 1)])
  }

  lemma EmitRung(base: nat, table: Table, n: nat)
    requires n > 0 && base <= MAX_OFFSET && Rung(n) !in table
    requires n > 1 ==> Rung(n - 1) in table && table[Rung(n - 1)] <= MAX_OFFSET
    ensures EmitName(base, table, Rung(n))
         == Emission([1, LETTER] + Tail(table, n), table[Rung(n) := base], None)
  {
    hide IndexDot, Rungs;
    RungShape(n);
    assert [1 as Byte] + Rungs(n)[..1] == [1, LETTER];
    if n > 1 {
      assert EmitLabels(base + 2, table, Rungs(n - 1)) == Emission(PointerBytes(table[Rung(n - 1)]), table, None);
    }
  }

  lemma RungsDiffer(i: nat, j: nat)
    requires i > 0 && j > 0
    ensures Rung(i) == Rung(j) <==> i == j
  {
    assert |Rung(i)| == 2 * i && |Rung(j)| == 2 * j;
  }

  lemma RungChain(msg: Bytes, base: nat, table: Table, n: nat)
    requires n > 1 ==> Rung(n - 1) in table && table[Rung(n - 1)] <= MAX_OFFSET && table[Rung(n - 1)] < base
    requires n > 0 && At(msg, base, [1, LETTER] + Tail(table, n))
    requires n > 1 ==> Climbs(msg, table[Rung(n - 1)], n - 2)
    ensures Climbs(msg, base, n - 1)
  {
    hide Chain, Rungs, At;
    AtSplit(msg, base, [1, LETTER], Tail(table, n));
    assert [1, LETTER] == [1 as Byte] + [LETTER];
    ChainOfLabel(msg, base, base, [LETTER]);
    if n == 1 {
      ChainOfEnd(msg, base, base + 2);
    } else {
      ChainOfPointer(msg, base, base + 2, table[Rung(n - 1)]);
    }
  }

  lemma ClimbStep(msg: Bytes, n: nat, e: Emission)
    requires Climbed(msg, n, e) && HEADER_SIZE + 8 * n <= MAX_OFFSET
    requires var q := EmitQuestion(HEADER_SIZE + |e.bytes|, e.table, Question(Rung(n + 1), TYPE_ANY, CLASS_IN));
             At(msg, HEADER_SIZE + |e.bytes|, q.bytes)
    ensures var q := EmitQuestion(HEADER_SIZE + |e.bytes|, e.table, Question(Rung(n + 1), TYPE_ANY, CLASS_IN));
            Climbed(msg, n + 1, Emission(e.bytes + q.bytes, q.table, q.error))
  {
    hide Chain, Rungs, Rung, At, EmitName, Climbs, Tail, Put16;
    var base := HEADER_SIZE + |e.bytes|;
    forall i | 1 <= i <= n
      ensures Rung(i) != Rung(n + 1)
    {
      RungsDiffer(i, n + 1);
    }
    assert n > 0 ==> Rung(n) in e.table && e.table[Rung(n)] < base;
    EmitRung(base, e.table, n + 1);
    AtSplit(msg, base, [1, LETTER] + Tail(e.table, n + 1), Put16(TYPE_ANY as int) + Put16(CLASS_IN as int));
    RungChain(msg, base, e.table, n + 1);
  }

  lemma {:induction false} Climb(msg: Bytes, n: nat)
    requires HEADER_SIZE + 8 * n <= MAX_OFFSET
    requires At(msg, HEADER_SIZE, EmitQuestions(HEADER_SIZE, map[], Ladder(n)).bytes)
    ensures Climbed(msg, n, EmitQuestions(HEADER_SIZE, map[], Ladder(n)))
  {
    hide At, EmitQuestion, EmitQuestions, Climbed, Rungs;
    LadderEmits(n);
    if n > 0 {
      ClimbPrefix(msg, n);
      Climb(msg, n - 1);
      ClimbNoError(msg, n - 1, EmitQuestions(HEADER_SIZE, map[], Ladder(n - 1)));
      ClimbStep(msg, n - 1, EmitQuestions(HEADER_SIZE, map[], Ladder(n - 1)));
    } else {
      ClimbStart(msg);
    }
  }

  lemma ClimbStart(msg: Bytes)
    ensures Climbed(msg, 0, Emission([], map[], None))
  {
  }

  lemma ClimbNoError(msg: Bytes, n: nat, e: Emission)
    requires Climbed(msg, n, e)
    ensures e.error == None
  {
  }

  lemma LadderEmits(n: nat)
    ensures n == 0 ==> EmitQuestions(HEADER_SIZE, map[], Ladder(n)) == Emission([], map[], None)
    ensures n > 0 ==>
      var before := EmitQuestions(HEADER_SIZE, map[], Ladder(n - 1));
      var e := EmitQuestion(HEADER_SIZE + |before.bytes|, before.table, Question(Rung(n), TYPE_ANY, CLASS_IN));
      before.error == None ==>
        EmitQuestions(HEADER_SIZE, map[], Ladder(n)) == Emission(before.bytes + e.bytes, e.table, e.error)
  {
    hide EmitQuestion, Rungs;
    if n > 0 {
      assert Ladder(n)[..n - 1] == Ladder(n - 1);
    }
  }

  lemma ClimbPrefix(msg: Bytes, n: nat)
    requires n > 0 && At(msg, HEADER_SIZE, EmitQuestions(HEADER_SIZE, map[], Ladder(n)).bytes)
    ensures var e := EmitQuestions(HEADER_SIZE, map[], Ladder(n - 1));
            && At(msg, HEADER_SIZE, e.bytes)
            && (e.error == None ==>
                  At(msg, HEADER_SIZE + |e.bytes|,
                     EmitQuestion(HEADER_SIZE + |e.bytes|, e.table, Question(Rung(n), TYPE_ANY, CLASS_IN)).bytes))
  {
    hide At, EmitQuestion, Rungs;
    var qs := Ladder(n);
    assert qs[..|qs| - 1] == Ladder(n - 1);
    var e := EmitQuestions(HEADER_SIZE, map[], Ladder(n - 1));
    if e.error == None {
      AtSplit(msg, HEADER_SIZE, e.bytes,
              EmitQuestion(HEADER_SIZE + |e.bytes|, e.table, Question(Rung(n), TYPE_ANY, CLASS_IN)).bytes);
    }
  }

  /** The ladder to n labels with its last name asked once more: that name is a bare pointer. */
  function LadderMessage(n: nat): Message
    requires n > 0
  {
    Message(0, 0, 0, 0, 0, 0, Ladder(n) + [Question(Rung(n), TYPE_ANY, CLASS_IN)], [], [], [])
  }

  predicate AtMostLabels(m: Message, n: nat) {
    && (forall i :: 0 <= i < |m.questions| ==> Dots(NormalizeName(m.questions[i].name)) <= n)
    && (forall i :: 0 <= i < |m.answers| ==> RecordLabels(m.answers[i], n))
    && (forall i :: 0 <= i < |m.authorities| ==> RecordLabels(m.authorities[i], n))
    && (forall i :: 0 <= i < |m.additionals| ==> RecordLabels(m.additionals[i], n))
  }

  predicate RecordLabels(rr: ResourceRecord, n: nat) {
    Dots(NormalizeName(rr.name)) <= n && Dots(NormalizeName(RdataName(rr))) <= n
  }

  lemma {:induction false} LadderNames(n: nat)
    ensures forall i :: 0 <= i < n ==> Ladder(n)[i] == Question(Rung(i + 1), TYPE_ANY, CLASS_IN)
  {
    if n > 0 {
      LadderNames(n - 1);
    }
  }

  lemma LadderMessageProper(n: nat)
    requires n > 0
    ensures ProperMessage(LadderMessage(n)) && AtMostLabels(LadderMessage(n), n)
  {
    hide Rungs, Dots, Proper, NormalizeName;
    LadderNames(n);
    forall i | 1 <= i <= n
      ensures ProperName(Rung(i)) && Dots(NormalizeName(Rung(i))) == i
    {
      RungProper(i);
      RungShape(i);
    }
    var qs := LadderMessage(n).questions;
    forall i | 0 <= i < |qs|
      ensures exists k :: 1 <= k <= n && qs[i].name == Rung(k)
    {
      assert qs[i].name == Rung(if i < n then i + 1 else n);
    }
  }

  /** The last question of a ladder message is the bare pointer that its reader follows n times. */
  lemma LastRung(msg: Bytes, n: nat)
    requires MAX_JUMPS < n && HEADER_SIZE + 8 * n <= MAX_OFFSET
    requires var e := EmitQuestions(HEADER_SIZE, map[], Ladder(n));
             var base := HEADER_SIZE + |e.bytes|;
             && Climbed(msg, n, e)
             && At(msg, base, EmitName(base, e.table, Rung(n)).bytes)
    ensures ReadNameSpec(msg, HEADER_SIZE + |EmitQuestions(HEADER_SIZE, map[], Ladder(n)).bytes|) == Err(PointerLoop)
  {
    hide Chain, Walk, Rungs, At, EmitQuestions, IndexDot;
    var e := EmitQuestions(HEADER_SIZE, map[], Ladder(n));
    var base := HEADER_SIZE + |e.bytes|;
    RungShape(n);
    assert Rung(n) in e.table;
    assert EmitName(base, e.table, Rung(n)).bytes == PointerBytes(e.table[Rung(n)]);
    ChainOfPointer(msg, base, base, e.table[Rung(n)]);
    ChainIsWalk(msg, base, base, 0);
  }

  /** Every ladder message of up to 1000 labels packs. */
  lemma LadderPacks(n: nat)
    requires 0 < n <= 1000
    ensures Pack(LadderMessage(n)).Ok?
    ensures Climbed(Pack(LadderMessage(n)).value, n, EmitQuestions(HEADER_SIZE, map[], Ladder(n)))
    ensures var e := EmitQuestions(HEADER_SIZE, map[], Ladder(n));
            var base := HEADER_SIZE + |e.bytes|;
            && At(Pack(LadderMessage(n)).value, HEADER_SIZE, e.bytes)
            && At(Pack(LadderMessage(n)).value, base, EmitName(base, e.table, Rung(n)).bytes)
  {
    hide At, EmitQuestions, Rungs, Climbed, EmitName, Put16;
    var m, e := LadderMessage(n), EmitQuestions(HEADER_SIZE, map[], Ladder(n));
    var base := HEADER_SIZE + |e.bytes|;
    var q := EmitQuestion(base, e.table, Question(Rung(n), TYPE_ANY, CLASS_IN));
    LadderBody(n);
    var probe := HeaderBytes(m) + e.bytes;
    AtWhole(probe);
    AtSplit(probe, 0, HeaderBytes(m), e.bytes);
    Climb(probe, n);
    ClimbNoError(probe, n, e);
    BareRung(probe, n, e);
    var data := HeaderBytes(m) + (e.bytes + q.bytes);
    assert EmitBody(m).bytes == e.bytes + q.bytes;
    AtWhole(data);
    AtSplit(data, 0, HeaderBytes(m), e.bytes + q.bytes);
    AtSplit(data, HEADER_SIZE, e.bytes, q.bytes);
    AtSplit(data, base, EmitName(base, e.table, Rung(n)).bytes, Put16(TYPE_ANY as int) + Put16(CLASS_IN as int));
    Climb(data, n);
  }

  lemma BareRung(msg: Bytes, n: nat, e: Emission)
    requires n > 0 && HEADER_SIZE + 8 * n <= MAX_OFFSET && Climbed(msg, n, e)
    ensures Rung(n) in e.table && e.table[Rung(n)] <= MAX_OFFSET && |e.bytes| <= 8 * n
    ensures EmitName(HEADER_SIZE + |e.bytes|, e.table, Rung(n)) == Emission(PointerBytes(e.table[Rung(n)]), e.table, None)
  {
    hide Rungs, IndexDot, Chain;
    RungShape(n);
    assert Rung(n) in e.table;
  }

  lemma LadderBody(n: nat)
    requires n > 0
    ensures var e := EmitQuestions(HEADER_SIZE, map[], Ladder(n));
            var q := EmitQuestion(HEADER_SIZE + |e.bytes|, e.table, Question(Rung(n), TYPE_ANY, CLASS_IN));
            e.error == None && q.error == None ==>
              EmitBody(LadderMessage(n)) == Emission(e.bytes + q.bytes, q.table, None)
  {
    hide EmitQuestion, Rungs;
    var qs := LadderMessage(n).questions;
    assert qs[..|qs| - 1] == Ladder(n);
    var body := EmitQuestions(HEADER_SIZE, map[], qs);
    if body.error == None {
      EmptySection(body);
    }
  }

  /** A ladder of more than 128 labels packs, and its reader refuses it. */
  lemma LadderRefused(n: nat)
    requires MAX_JUMPS < n <= 1000
    ensures Pack(LadderMessage(n)).Ok? && Unpack(Pack(LadderMessage(n)).value) == Err(PointerLoop)
  {
    hide At, EmitQuestions, Rungs, Climbed, EmitName, ReadNameSpec, Pack, Unpack, ReadQuestions, Dots, ProperName;
    var m, e := LadderMessage(n), EmitQuestions(HEADER_SIZE, map[], Ladder(n));
    LadderPacks(n);
    LadderMessageProper(n);
    var data := Pack(m).value;
    MessageRoundTrip(m);
    LastRung(data, n);
    LadderNames(n);
    EmptyTableSound(data, HEADER_SIZE);
    ClimbNoError(data, n, e);
    assert forall i :: 0 <= i < n ==> Ladder(n)[i] == m.questions[i];
    QuestionsRoundTrip(data, HEADER_SIZE, map[], Ladder(n));
    LastQuestionRefused(data, m, n);
  }

  lemma LastQuestionRefused(data: Bytes, m: Message, n: nat)
    requires CountsFit(m) && |m.questions| == n + 1
    requires Unpack(data) == Ok(NormalMessage(m)) || Unpack(data) == Err(PointerLoop)
    requires ReadQuestions(data, HEADER_SIZE, n).Ok? ==>
               ReadNameSpec(data, ReadQuestions(data, HEADER_SIZE, n).value.next) == Err(PointerLoop)
    ensures Unpack(data) == Err(PointerLoop)
  {
    hide ReadNameSpec, ReadRecords, NormalQuestions, NormalRecords;
  }

  /** The messages whose names have at most n labels can all be read back exactly when n is at
      most 128. */
  lemma LabelLimitIsExact(n: nat)
    ensures (forall m: Message :: ProperMessage(m) && AtMostLabels(m, n) && Pack(m).Ok? ==> Unpack(Pack(m).value).Ok?)
       <==> n <= 128
  {
    hide Pack, Unpack, ProperMessage, AtMostLabels;
    if n <= MAX_JUMPS {
      forall m: Message | ProperMessage(m) && AtMostLabels(m, n) && Pack(m).Ok?
        ensures Unpack(Pack(m).value).Ok?
      {
        MessageRoundTrip(m);
        FewLabelsAreShort(m, n);
      }
    } else {
      var m := LadderMessage(MAX_JUMPS + 1);
      LadderRefused(MAX_JUMPS + 1);
      LadderMessageProper(MAX_JUMPS + 1);
      MoreLabels(m, MAX_JUMPS + 1, n);
    }
  }

  lemma FewLabelsAreShort(m: Message, n: nat)
    requires AtMostLabels(m, n) && n <= MAX_JUMPS
    ensures ShortMessage(m)
  {
    hide Dots, NormalizeName;
  }

  lemma MoreLabels(m: Message, n: nat, more: nat)
    requires AtMostLabels(m, n) && n <= more
    ensures AtMostLabels(m, more)
  {
    hide Dots, NormalizeName;
  }
}
