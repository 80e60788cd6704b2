/** The octets themselves, said without the functions that write and read them: section 4.1 of
    RFC 1035, section 4.1.2 of RFC 4034, and the addresses of A and AAAA records. */
module WireFormat {
  import opened Octets
  import opened Names
  import opened TypeBitMaps
  import opened Records
  import opened Messages
  import opened Tiebreak
  import opened Services

  // ----- numbers -----

  /** The number that octets stand for, the most significant first. */
  function Value(bs: Bytes): nat {
    if bs == [] then 0 else Value(bs[..|bs| - 1]) * 0x100 + bs[|bs| - 1] as int
  }

  lemma ValueSnoc(bs: Bytes, b: Byte)
    ensures Value(bs + [b]) == Value(bs) * 0x100 + b as int && Value([]) == 0
  {
    assert (bs + [b])[..|bs|] == bs;
  }

  lemma ValueOfTwo(a: Byte, b: Byte)
    ensures Value([a, b]) == a as int * 0x100 + b as int
  {
    hide Value;
    ValueSnoc([], a);
    ValueSnoc([a], b);
    assert [] + [a] == [a] && [a] + [b] == [a, b];
  }

  lemma ValueOfFour(a: Byte, b: Byte, c: Byte, d: Byte)
    ensures Value([a, b, c, d]) == ((a as int * 0x100 + b as int) * 0x100 + c as int) * 0x100 + d as int
  {
    hide Value;
    ValueOfTwo(a, b);
    ValueSnoc([a, b], c);
    ValueSnoc([a, b, c], d);
    assert [a, b] + [c] == [a, b, c] && [a, b, c] + [d] == [a, b, c, d];
  }

  lemma NumbersWritten(v: nat)
    ensures v < 0x1_0000 ==> Value(Put16(v)) == v
    ensures v < 0x1_0000_0000 ==> Value(Put32(v)) == v
  {
    hide Value;
    var p, q := Put16(v), Put32(v);
    ValueOfTwo(p[0], p[1]);
    assert p == [p[0], p[1]];
    ValueOfFour(q[0], q[1], q[2], q[3]);
    assert q == [q[0], q[1], q[2], q[3]];
    if v < 0x1_0000_0000 {
      BytesOf32(v);
    }
  }

  lemma NumbersRead(msg: Bytes, at: nat)
    ensures at + 2 <= |msg| ==> Get16(msg, at) as int == Value(msg[at..at + 2])
    ensures at + 4 <= |msg| ==> Get32(msg, at) as int == Value(msg[at..at + 4])
  {
    hide Value;
    if at + 2 <= |msg| {
      ValueOfTwo(msg[at], msg[at + 1]);
      assert msg[at..at + 2] == [msg[at], msg[at + 1]];
    }
    if at + 4 <= |msg| {
      ValueOfFour(msg[at], msg[at + 1], msg[at + 2], msg[at + 3]);
      assert msg[at..at + 4] == [msg[at], msg[at + 1], msg[at + 2], msg[at + 3]];
    }
  }

  // ----- names -----

  /** A pointer is a number of 16 bits: two ones, and 14 bits of offset. */
  lemma PointersAre(msg: Bytes, pos: nat, offset: nat)
    ensures offset < 0x4000 ==> Value(PointerBytes(offset)) == 0xC000 + offset
    ensures pos + 2 <= |msg| && msg[pos] >= 0xC0 ==> Value(msg[pos..pos + 2]) == 0xC000 + PointerTarget(msg, pos)
  {
    hide Value;
    if offset < 0x4000 {
      var p := PointerBytes(offset);
      ValueOfTwo(p[0], p[1]);
      assert p == [p[0], p[1]];
    }
    if pos + 2 <= |msg| {
      ValueOfTwo(msg[pos], msg[pos + 1]);
      assert msg[pos..pos + 2] == [msg[pos], msg[pos + 1]];
    }
  }

  /** A suffix is noted exactly where a pointer of 14 bits can reach it. */
  lemma NotedIff(table: Table, suffix: Bytes, offset: nat)
    requires suffix !in table
    ensures suffix in Note(table, suffix, offset) <==> offset <= 0x3FFF
  {
  }

  predicate DotWithin(s: Bytes, from: nat, n: nat) {
    exists j :: from <= j < from + n && j < |s| && s[j] == DOT
  }

  /** No 64 octets in a row without a dot. */
  predicate ShortLabels(s: Bytes) {
    forall i :: 0 <= i <= |s| - 64 ==> DotWithin(s, i, 64)
  }

  /** Labels fit exactly if none is longer than 63 octets. */
  lemma {:induction false} FitsMeans(s: Bytes)
    ensures Fits(s) <==> ShortLabels(s)
    decreases |s|
  {
    hide IndexDot, DotWithin;
    var d, rest := FirstDot(s), AfterFirstLabel(s);
    if d > 63 {
      NoDotWithin(s, d);
    } else if d < |s| {
      RestShort(s, d);
      FirstLabelLength(s);
      if rest != [] {
        FitsMeans(rest);
      }
    }
  }

  lemma NoDotWithin(s: Bytes, d: nat)
    requires 64 <= d <= |s| && forall i :: 0 <= i < d ==> s[i] != DOT
    ensures !ShortLabels(s)
  {
    assert !DotWithin(s, 0, 64);
  }

  lemma RestShort(s: Bytes, d: nat)
    requires d <= 63 && d < |s| && s[d] == DOT
    ensures ShortLabels(s) <==> ShortLabels(s[d + 1..])
  {
    var rest := s[d + 1..];
    forall i: nat | d < i
      ensures DotWithin(s, i, 64) <==> DotWithin(rest, i - d - 1, 64)
    {
      DotLater(s, d + 1, i - d - 1);
    }
    forall i: nat | i <= d
      ensures DotWithin(s, i, 64)
    {
      assert i <= d < i + 64 && s[d] == DOT;
    }
    if ShortLabels(s) {
      forall i | 0 <= i <= |rest| - 64
        ensures DotWithin(rest, i, 64)
      {
        assert DotWithin(s, i + d + 1, 64);
      }
    }
  }

  lemma DotLater(s: Bytes, k: nat, i: nat)
    requires k <= |s|
    ensures DotWithin(s, k + i, 64) <==> DotWithin(s[k..], i, 64)
  {
    if j :| k + i <= j < k + i + 64 && j < |s| && s[j] == DOT {
      assert s[k..][j - k] == DOT;
    }
    if j :| i <= j < i + 64 && j < |s[k..]| && s[k..][j] == DOT {
      assert s[k + j] == DOT;
    }
  }

  /** a.b. is written as two labels and the root. */
  lemma NameExample()
    ensures EmitName(0, map[], [97, DOT, 98]).bytes == [1, 97, 1, 98, 0]
  {
    hide IndexDot, EmitLabels;
    var s: Bytes := [97, DOT, 98];
    assert (s + [DOT])[..3] == s;
    assert s[0] != DOT && s[1] == DOT;
    assert FirstDot(s) == 1 && AfterFirstLabel(s) == [98] && s[..1] == [97];
    var t: Bytes := [98];
    assert t[0] != DOT;
    assert FirstDot(t) == 1 && AfterFirstLabel(t) == [] && t[..1] == [98];
    EmitLabelsStep(0, map[], s);
    EmitLabelsStep(2, map[], t);
  }

  // ----- bitmaps -----

  function Weight(n: nat): nat
    requires n < 8
  {
    [1, 2, 4, 8, 16, 32, 64, 128][n]
  }

  lemma HalfThenDivide(b: nat, n: nat)
    requires 0 < n < 8
    ensures b / 2 / Weight(n - 1) == b / Weight(n)
  {
    match n
    case 1 =>
    case 2 => assert b / 2 / 2 == b / 4;
    case 3 => assert b / 2 / 4 == b / 8;
    case 4 => assert b / 2 / 8 == b / 16;
    case 5 => assert b / 2 / 16 == b / 32;
    case 6 => assert b / 2 / 32 == b / 64;
    case 7 => assert b / 2 / 64 == b / 128;
  }

  lemma {:induction false} BitAtMeans(b: nat, n: nat)
    requires n < 8
    ensures BitAt(b, n) <==> b / Weight(n) % 2 == 1
    decreases n
  {
    if n > 0 {
      BitAtMeans(b / 2, n - 1);
      HalfThenDivide(b, n);
    }
  }

  /** Bit k of an octet, counted from the left. */
  predicate BitFromLeft(b: Byte, k: nat)
    requires k < 8
  {
    b as int / [128, 64, 32, 16, 8, 4, 2, 1][k] % 2 == 1
  }

  lemma TestBitMeans(b: Byte, k: nat)
    requires k < 8
    ensures TestBit(b, k) <==> BitFromLeft(b, k)
  {
    hide BitAt;
    BitAtMeans(b as int, 7 - k);
  }

  // ----- records -----

  /** The ten octets between the owner name and the RDATA. */
  lemma RecordLayout(base: nat, table: Table, rr: ResourceRecord)
    requires EmitRecord(base, table, rr).error == None && rr.rclass < 0x8000
    requires |EmitRecord(base, table, rr).bytes| < 0x1_0000
    ensures var e, n := EmitRecord(base, table, rr).bytes, |EmitName(base, table, rr.name).bytes|;
            && n + 10 <= |e|
            && Value(e[n..n + 2]) == rr.rtype as int
            && Value(e[n + 2..n + 4]) == rr.rclass as int + (if rr.cacheFlush then 0x8000 else 0)
            && Value(e[n + 4..n + 8]) == rr.ttl as int
            && Value(e[n + 8..n + 10]) == |e| - n - 10
  {
    hide Value, EmitName, EmitRdata, Put16, Put32;
    var n := EmitName(base, table, rr.name);
    var d := EmitRdata(base + |n.bytes| + 10, n.table, rr);
    var e := EmitRecord(base, table, rr).bytes;
    var k := |n.bytes|;
    var t, c, l, r := Put16(rr.rtype as int), Put16(FullClass(rr) as int), Put32(rr.ttl as int), Put16(|d.bytes|);
    assert e == n.bytes + (t + c + l + r + d.bytes);
    assert e[k..k + 2] == t && e[k + 2..k + 4] == c && e[k + 4..k + 8] == l && e[k + 8..k + 10] == r;
    NumbersWritten(rr.rtype as int);
    NumbersWritten(FullClass(rr) as int);
    NumbersWritten(rr.ttl as int);
    NumbersWritten(|d.bytes|);
  }

  lemma ServiceLayout(base: nat, table: Table, rr: ResourceRecord)
    requires rr.rtype == 33
    ensures var d := EmitRdata(base, table, rr).bytes;
            && |d| >= 6 && Value(d[0..2]) == rr.priority as int && Value(d[2..4]) == rr.weight as int
            && Value(d[4..6]) == rr.port as int && d[6..] == EmitName(base + 6, table, rr.target).bytes
  {
    hide Value, EmitName, Put16;
    var p, w, q := Put16(rr.priority as int), Put16(rr.weight as int), Put16(rr.port as int);
    var n := EmitName(base + 6, table, rr.target).bytes;
    var d := EmitRdata(base, table, rr).bytes;
    assert d == p + w + q + n;
    assert d[0..2] == p && d[2..4] == w && d[4..6] == q && d[6..] == n;
    NumbersWritten(rr.priority as int);
    NumbersWritten(rr.weight as int);
    NumbersWritten(rr.port as int);
  }

  /** A message whose labels and addresses have a form packs exactly if it has at most 9000 octets. */
  lemma PackLimit(m: Message)
    requires EmitBody(m).error == None
    ensures Pack(m).Ok? <==> 12 + |EmitBody(m).bytes| <= 9000
  {
    hide EmitBody;
  }

  // ----- addresses -----

  /** An A record has the RDATA a exactly if its address is a, in four octets or mapped into sixteen. */
  lemma AddressWritten4(base: nat, table: Table, rr: ResourceRecord, a: Bytes)
    requires rr.rtype == 1 && |a| == 4
    ensures EmitRdata(base, table, rr) == Emission(a, table, None) <==> IpEqual(rr.ip, a)
  {
    if |rr.ip| == 16 && rr.ip[..12] == MAPPED {
      assert rr.ip[12..] == a <==> To4(rr.ip) == Some(a);
    }
  }

  /** An AAAA record has the RDATA a exactly if its address is a or the IPv4 address mapped in it. */
  lemma AddressWritten6(base: nat, table: Table, rr: ResourceRecord, a: Bytes)
    requires rr.rtype == 28 && |a| == 16
    ensures EmitRdata(base, table, rr) == Emission(a, table, None) <==> IpEqual(rr.ip, a)
  {
    if |rr.ip| == 4 {
      assert (MAPPED + rr.ip)[..12] == MAPPED && (MAPPED + rr.ip)[12..] == rr.ip;
      assert a == a[..12] + a[12..];
    }
  }

  /** A record of an address that is neither is not written. */
  lemma AddressRefused(base: nat, table: Table, rr: ResourceRecord)
    requires rr.rtype == 1 || rr.rtype == 28
    ensures EmitRdata(base, table, rr).error == None <==>
              exists a :: |a| == (if rr.rtype == 1 then 4 else 16) && IpEqual(rr.ip, a)
  {
    if rr.rtype == 1 {
      if To4(rr.ip).Some? {
        AddressWritten4(base, table, rr, To4(rr.ip).value);
      }
      if a :| |a| == 4 && IpEqual(rr.ip, a) {
        AddressWritten4(base, table, rr, a);
      }
    } else {
      if To16(rr.ip).Some? {
        AddressWritten6(base, table, rr, To16(rr.ip).value);
      }
      if a :| |a| == 16 && IpEqual(rr.ip, a) {
        AddressWritten6(base, table, rr, a);
      }
    }
  }

  /** A service's address makes an A record exactly if it is an IPv4 address in either form, and an
      AAAA record otherwise; either way the record holds that address. */
  lemma AddressRecordMeans(i: Instance, ip: Bytes)
    ensures AddressRecord(i, ip).rtype == (if exists a :: |a| == 4 && IpEqual(ip, a) then 1 else 28)
    ensures IpEqual(AddressRecord(i, ip).ip, ip)
  {
    hide NormalizeName;
    if To4(ip).Some? {
      assert |To4(ip).value| == 4 && IpEqual(ip, To4(ip).value);
    }
  }

  // ----- the canonical form -----

  lemma {:induction false} CanonicalTextIsWire(text: seq<Bytes>)
    requires TextFits(text)
    ensures EmitStrings(text) == Chunk(CanonicalText(text), None)
  {
    if text != [] {
      CanonicalTextIsWire(text[1..]);
    }
  }

  /** The canonical bytes of a tiebreak are the RDATA as it goes on the wire by itself, its name in
      lower case; except that no text is nothing at all, where the wire has one empty string. */
  lemma CanonicalIsWire(rr: ResourceRecord)
    requires Comparable(rr) && KindOf(rr.rtype) != Negative
    ensures CanonicalRdata(rr) ==
              if rr.rtype == 16 && rr.text == [] then []
              else EmitRdata(0, map[], rr.(target := LowerName(NormalizeName(rr.target)))).bytes
  {
    hide EmitName, CarriedName, EmitStrings, CanonicalText, LowerName, NormalizeName, Put16;
    if KindOf(rr.rtype) == Text {
      CanonicalTextIsWire(rr.text);
      NoText();
    }
  }

  lemma NoText()
    ensures CanonicalText([]) == []
  {
  }

  // ----- messages -----

  /** The twelve octets of the header: id, flags, and the numbers of questions, answers, authorities
      and additionals. */
  lemma HeaderLayout(m: Message)
    requires Pack(m).Ok?
    ensures var d := Pack(m).value;
            && 12 <= |d| && Value(d[0..2]) == m.id as int && Value(d[2..4]) == m.flags as int
            && Value(d[4..6]) == |m.questions| && Value(d[6..8]) == |m.answers|
            && Value(d[8..10]) == |m.authorities| && Value(d[10..12]) == |m.additionals|
  {
    hide Value, EmitBody, Put16;
    PackSize(m);
    var i, f, q := Put16(m.id as int), Put16(m.flags as int), Put16(|m.questions|);
    var a, n, x := Put16(|m.answers|), Put16(|m.authorities|), Put16(|m.additionals|);
    var d := Pack(m).value;
    assert d == i + f + q + a + n + x + EmitBody(m).bytes;
    assert d[0..2] == i && d[2..4] == f && d[4..6] == q && d[6..8] == a && d[8..10] == n && d[10..12] == x;
    NumbersWritten(m.id as int);
    NumbersWritten(m.flags as int);
    NumbersWritten(|m.questions|);
    NumbersWritten(|m.answers|);
    NumbersWritten(|m.authorities|);
    NumbersWritten(|m.additionals|);
  }

  /** A question is its name, its type and its class. */
  lemma QuestionLayout(base: nat, table: Table, q: Question)
    requires EmitQuestion(base, table, q).error == None
    ensures var e, n := EmitQuestion(base, table, q).bytes, EmitName(base, table, q.name).bytes;
            && |e| == |n| + 4 && e[..|n|] == n
            && Value(e[|n|..|n| + 2]) == q.qtype as int && Value(e[|n| + 2..]) == q.qclass as int
  {
    hide Value, EmitName, Put16;
    var n, t, c := EmitName(base, table, q.name).bytes, Put16(q.qtype as int), Put16(q.qclass as int);
    var e := EmitQuestion(base, table, q).bytes;
    assert e == n + (t + c);
    assert e[|n|..|n| + 2] == t && e[|n| + 2..] == c;
    NumbersWritten(q.qtype as int);
    NumbersWritten(q.qclass as int);
  }

  /** The sections follow one another in the order of the counts, and share one table. */
  lemma SectionsInOrder(m: Message)
    requires Pack(m).Ok?
    ensures var q := EmitQuestions(12, map[], m.questions);
            var a := EmitRecords(12 + |q.bytes|, q.table, m.answers);
            var n := EmitRecords(12 + |q.bytes| + |a.bytes|, a.table, m.authorities);
            var x := EmitRecords(12 + |q.bytes| + |a.bytes| + |n.bytes|, n.table, m.additionals);
            Pack(m).value[12..] == q.bytes + a.bytes + n.bytes + x.bytes
  {
    hide EmitQuestions, EmitRecords, HeaderBytes;
  }

  // ----- other RDATA -----

  /** Each string is one octet of length and its octets; no text is one empty string. */
  lemma TextLayout(base: nat, table: Table, rr: ResourceRecord, s: Bytes)
    requires rr.rtype == 16 && |s| <= 255
    ensures rr.text == [s] ==> EmitRdata(base, table, rr) == Emission([|s| as Byte] + s, table, None)
    ensures rr.text == [] ==> EmitRdata(base, table, rr) == Emission([0], table, None)
    ensures rr.text != [] && rr.text[0] == s && EmitStrings(rr.text[1..]).error == None ==>
              EmitRdata(base, table, rr).bytes == [|s| as Byte] + s + EmitStrings(rr.text[1..]).bytes
  {
    hide EmitStrings;
    var text := WrittenText(rr.text);
    StringsStep(text);
    StringsStep([]);
    if |text| == 1 && |text[0]| <= 255 {
      assert text[1..] == [];
      assert EmitStrings(text).bytes == [|text[0]| as Byte] + text[0];
    }
  }

  lemma StringsStep(text: seq<Bytes>)
    ensures text == [] ==> EmitStrings(text) == Chunk([], None)
    ensures text != [] && |text[0]| <= 255 ==>
              var rest := EmitStrings(text[1..]);
              EmitStrings(text) == Chunk([|text[0]| as Byte] + text[0] + rest.bytes, rest.error)
  {
  }

  /** Types below 256 take one block: window 0, the length of the bitmap, and the bitmap. Types 1 and
      28, an address of each family, have the bitmap 40 00 00 08. */
  lemma BitMapsExample()
    ensures Encode([1, 28]) == [0, 4, 0x40, 0, 0, 0x08]
  {
    hide EncodeFrom, Bitmap;
    BitmapOfOne();
    BitmapOfBoth();
    OtherWindows([1, 28], 1);
    FirstWindow([1, 28]);
  }

  lemma BitmapOfOne()
    ensures Bitmap([1], 0) == [0x40]
  {
    var t: seq<U16> := [1];
    assert t[..0] == [];
    assert SetBit(0, 1) == 0x40;
    assert Mark([], 1) == [0x40];
  }

  lemma BitmapOfBoth()
    ensures Bitmap([1, 28], 0) == [0x40, 0, 0, 0x08]
  {
    hide Bitmap;
    var t: seq<U16> := [1, 28];
    assert t[..1] == [1];
    BitmapOfOne();
    assert SetBit(0, 4) == 0x08;
    assert Mark([0x40], 28) == [0x40, 0, 0, 0x08];
    BitmapStep(t, 0);
  }

  lemma BitmapStep(types: seq<U16>, w: nat)
    requires types != [] && types[|types| - 1] as int / 0x100 == w
    ensures Bitmap(types, w) == Mark(Bitmap(types[..|types| - 1], w), types[|types| - 1] as int % 0x100)
  {
  }

  lemma FirstWindow(types: seq<U16>)
    ensures EncodeFrom(types, 0) == Block(types, 0) + EncodeFrom(types, 1)
  {
  }

  lemma {:induction false} OtherWindows(types: seq<U16>, w: nat)
    requires w > 0 && forall i :: 0 <= i < |types| ==> types[i] < 0x100
    ensures EncodeFrom(types, w) == []
    decreases 255 - w
  {
    if w < 255 {
      NoneInWindow(types, w);
      OtherWindows(types, w + 1);
    }
  }

  lemma {:induction false} NoneInWindow(types: seq<U16>, w: nat)
    requires w > 0 && forall i :: 0 <= i < |types| ==> types[i] < 0x100
    ensures Bitmap(types, w) == []
  {
    if types != [] {
      NoneInWindow(types[..|types| - 1], w);
    }
  }

  // ----- the order of canonical bytes -----

  /** The first k octets agree, and a ends there, or is less in the next. */
  predicate LessAt(a: Bytes, b: Bytes, k: nat) {
    k <= |a| && k < |b| && a[..k] == b[..k] && (k == |a| || a[k] < b[k])
  }

  /** Canonical bytes are compared at the first octet where they differ; a proper prefix is less. */
  lemma {:induction false} LessMeans(a: Bytes, b: Bytes)
    ensures Less(a, b) <==> exists k: nat :: LessAt(a, b, k)
  {
    forall k: nat | LessAt(a, b, k) && k > 0
      ensures a != [] && b != [] && a[0] == b[0]
    {
      assert a[..k][0] == b[..k][0];
    }
    if a != [] && b != [] && a[0] == b[0] {
      LessMeans(a[1..], b[1..]);
      LessShift(a, b);
    } else {
      assert LessAt(a, b, 0) <==> b != [] && (a == [] || a[0] < b[0]);
    }
  }

  lemma LessShift(a: Bytes, b: Bytes)
    requires a != [] && b != [] && a[0] == b[0]
    ensures (exists k: nat :: LessAt(a, b, k)) <==> exists k: nat :: LessAt(a[1..], b[1..], k)
  {
    if k: nat :| LessAt(a, b, k) {
      assert k > 0;
      assert a[1..][..k - 1] == a[..k][1..] && b[1..][..k - 1] == b[..k][1..];
      assert LessAt(a[1..], b[1..], k - 1);
    }
    if k: nat :| LessAt(a[1..], b[1..], k) {
      assert a[..k + 1] == [a[0]] + a[1..][..k] && b[..k + 1] == [b[0]] + b[1..][..k];
      assert LessAt(a, b, k + 1);
    }
  }
}
