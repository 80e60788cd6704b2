/** The wire form is stable: what a reader gets from a packed message packs to the same bytes. */
module WireForm {
  import opened Octets
  import opened Names
  import opened TypeBitMaps
  import opened Records
  import opened Messages

  // ----- bitmaps are determined by their bits -----

  lemma {:induction false} SameBits(a: nat, b: nat, width: nat)
    requires a < Power2(width) && b < Power2(width)
    requires forall n: nat :: n < width ==> BitAt(a, n) == BitAt(b, n)
    ensures a == b
  {
    if width > 0 {
      assert BitAt(a, 0) == BitAt(b, 0);
      assert forall n: nat :: n < width - 1 ==> BitAt(a / 2, n) == BitAt(a, n + 1) && BitAt(b / 2, n) == BitAt(b, n + 1);
      SameBits(a / 2, b / 2, width - 1);
    }
  }

  lemma SameByte(a: Bytes, b: Bytes, i: nat)
    requires i < |a| && i < |b|
    requires forall n: nat :: Bit(a, n) <==> Bit(b, n)
    ensures a[i] == b[i]
  {
    var x, y: nat := a[i] as int, b[i] as int;
    forall n: nat | n < 8
      ensures BitAt(x, n) == BitAt(y, n)
    {
      hide BitAt;
      assert Bit(a, 8 * i + (7 - n)) <==> Bit(b, 8 * i + (7 - n));
    }
    assert Power2(8) == 2 * Power2(7) == 4 * Power2(6) == 8 * Power2(5) == 16 * Power2(4) == 256;
    SameBits(x, y, 8);
  }

  /** A byte that is not zero has a bit. */
  lemma ByteHasBit(a: Bytes, i: nat) returns (n: nat)
    requires i < |a| && a[i] != 0
    ensures n / 8 == i && Bit(a, n)
  {
    if forall n: nat :: n / 8 == i ==> !Bit(a, n) {
      var x: nat := a[i] as int;
      forall n: nat | n < 8
        ensures BitAt(x, n) == BitAt(0, n)
      {
        hide BitAt;
        ZeroHasNoBit(n);
        assert !Bit(a, 8 * i + (7 - n));
      }
      assert Power2(8) == 2 * Power2(7) == 4 * Power2(6) == 8 * Power2(5) == 16 * Power2(4) == 256;
      SameBits(x, 0, 8);
    }
    n :| n / 8 == i && Bit(a, n);
  }

  lemma TrimmedLength(a: Bytes, b: Bytes)
    requires Trimmed(a) && forall n: nat :: Bit(a, n) <==> Bit(b, n)
    ensures |a| <= |b|
  {
    if a != [] {
      var n := ByteHasBit(a, |a| - 1);
      assert Bit(b, n);
    }
  }

  lemma TrimmedUnique(a: Bytes, b: Bytes)
    requires Trimmed(a) && Trimmed(b)
    requires forall n: nat :: Bit(a, n) <==> Bit(b, n)
    ensures a == b
  {
    TrimmedLength(a, b);
    TrimmedLength(b, a);
    forall i | 0 <= i < |a|
      ensures a[i] == b[i]
    {
      SameByte(a, b, i);
    }
  }

  /** Only the set of types below 0xFF00 matters to the encoding. */
  lemma {:induction false} EncodeOfAscending(types: seq<U16>, w: nat)
    ensures EncodeFrom(Ascending(types, 0, TYPE_LIMIT), w) == EncodeFrom(types, w)
    decreases WINDOWS - w
  {
    hide Bitmap, Ascending, Bit;
    if w < WINDOWS {
      var sorted := Ascending(types, 0, TYPE_LIMIT);
      AscendingHas(types, 0, TYPE_LIMIT);
      BitmapBits(types, w);
      BitmapBits(sorted, w);
      assert forall t: int :: 0 <= t < TYPE_LIMIT ==> (Lists(sorted, t) <==> Lists(types, t));
      TrimmedUnique(Bitmap(sorted, w), Bitmap(types, w));
      EncodeOfAscending(types, w + 1);
    }
  }

  // ----- records -----

  lemma EmitNormalName(base: nat, table: Table, name: Bytes)
    ensures EmitName(base, table, NormalizeName(name)) == EmitName(base, table, name)
  {
    hide EmitLabels;
  }

  lemma EmitNormalRdata(base: nat, table: Table, rr: ResourceRecord)
    requires EmitRdata(base, table, rr).error == None
    ensures EmitRdata(base, table, NormalRecord(rr)) == EmitRdata(base, table, rr)
  {
    hide EmitName, EmitStrings, Ascending, EncodeFrom, NormalizeName, Put16;
    EmitNormalName(base, table, RdataName(rr));
    EmitNormalName(base + 6, table, RdataName(rr));
    if KindOf(rr.rtype) == Negative {
      EncodeOfAscending(rr.typeBitMaps, 0);
    }
  }

  lemma EmitNormalRecord(base: nat, table: Table, rr: ResourceRecord)
    requires EmitRecord(base, table, rr).error == None
    ensures EmitRecord(base, table, NormalRecord(rr)) == EmitRecord(base, table, rr)
  {
    hide EmitName, EmitRdata, NormalizeName, Put16, Put32, Ascending;
    EmitNormalName(base, table, rr.name);
    var n := EmitName(base, table, rr.name);
    EmitNormalRdata(base + |n.bytes| + 10, n.table, rr);
    assert FullClass(NormalRecord(rr)) == FullClass(rr);
  }

  lemma {:induction false} EmitNormalRecords(base: nat, table: Table, rrs: seq<ResourceRecord>)
    requires EmitRecords(base, table, rrs).error == None
    ensures EmitRecords(base, table, NormalRecords(rrs)) == EmitRecords(base, table, rrs)
  {
    hide EmitRecord, NormalRecord;
    if rrs != [] {
      var front := rrs[..|rrs| - 1];
      var before := EmitRecords(base, table, front);
      EmitNormalRecords(base, table, front);
      EmitNormalRecord(base + |before.bytes|, before.table, rrs[|rrs| - 1]);
      assert NormalRecords(rrs)[..|rrs| - 1] == NormalRecords(front);
    } else {
      assert NormalRecords(rrs) == [];
    }
  }

  lemma EmitNormalQuestion(base: nat, table: Table, q: Question)
    ensures EmitQuestion(base, table, NormalQuestion(q)) == EmitQuestion(base, table, q)
  {
    hide EmitName, NormalizeName, Put16;
    EmitNormalName(base, table, q.name);
  }

  lemma {:induction false} EmitNormalQuestions(base: nat, table: Table, qs: seq<Question>)
    requires EmitQuestions(base, table, qs).error == None
    ensures EmitQuestions(base, table, NormalQuestions(qs)) == EmitQuestions(base, table, qs)
  {
    hide EmitQuestion, NormalQuestion;
    if qs != [] {
      var front, last := qs[..|qs| - 1], qs[|qs| - 1];
      var before := EmitQuestions(base, table, front);
      EmitNormalQuestions(base, table, front);
      EmitNormalQuestion(base + |before.bytes|, before.table, last);
      assert NormalQuestions(qs)[..|qs| - 1] == NormalQuestions(front);
    } else {
      assert NormalQuestions(qs) == [];
    }
  }

  // ----- messages -----

  lemma PackOfNormal(m: Message)
    requires Pack(m).Ok?
    ensures CountsFit(m) && Pack(NormalMessage(m)) == Pack(m)
  {
    hide EmitQuestions, EmitRecords, Put16, NormalQuestions, NormalRecords;
    PackSize(m);
    NormalLengths(m);
    var q := EmitQuestions(HEADER_SIZE, map[], m.questions);
    var a := EmitSection(q, m.answers);
    var n := EmitSection(a, m.authorities);
    EmitNormalQuestions(HEADER_SIZE, map[], m.questions);
    EmitNormalRecords(HEADER_SIZE + |q.bytes|, q.table, m.answers);
    EmitNormalRecords(HEADER_SIZE + |a.bytes|, a.table, m.authorities);
    EmitNormalRecords(HEADER_SIZE + |n.bytes|, n.table, m.additionals);
  }

  lemma NormalLengths(m: Message)
    ensures |NormalQuestions(m.questions)| == |m.questions| && |NormalRecords(m.answers)| == |m.answers|
    ensures |NormalRecords(m.authorities)| == |m.authorities| && |NormalRecords(m.additionals)| == |m.additionals|
  {
  }

  /** Packing what was unpacked from a packed message gives the same bytes again. */
  lemma RepackIsIdentity(m: Message)
    requires ProperMessage(m) && ShortMessage(m) && Pack(m).Ok?
    ensures Unpack(Pack(m).value).Ok?
    ensures Pack(Unpack(Pack(m).value).value) == Pack(m)
  {
    hide Pack, Unpack, ProperMessage, ShortMessage;
    MessageRoundTrip(m);
    PackOfNormal(m);
  }
}
