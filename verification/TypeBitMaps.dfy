/** NSEC type bitmaps (section 4.1.2 of RFC 4034): encodeTypeBitMaps and decodeTypeBitMaps. */
module TypeBitMaps {
  import opened Octets

  const WINDOWS := 255
  /** The first type that the encoder drops: its loop never reaches window 255. */
  const TYPE_LIMIT := 0xFF00

  // ----- one byte -----

  /** Bit n of b, counted from the least significant: b & (1 << n) != 0. */
  predicate BitAt(b: nat, n: nat) {
    if n == 0 then b % 2 == 1 else BitAt(b / 2, n - 1)
  }

  /** b | (1 << n) */
  function OrBit(b: nat, n: nat): nat {
    if n == 0 then b / 2 * 2 + 1 else OrBit(b / 2, n - 1) * 2 + b % 2
  }

  function Power2(n: nat): nat {
    if n == 0 then 1 else 2 * Power2(n - 1)
  }

  lemma {:induction false} OrBitAt(b: nat, n: nat, m: nat)
    ensures BitAt(OrBit(b, n), m) <==> m == n || BitAt(b, m)
  {
    if m > 0 && n > 0 {
      OrBitAt(b / 2, n - 1, m - 1);
    }
  }

  lemma {:induction false} OrBitRange(b: nat, n: nat, width: nat)
    requires n < width && b < Power2(width)
    ensures 0 < OrBit(b, n) < Power2(width)
  {
    if n > 0 {
      OrBitRange(b / 2, n - 1, width - 1);
    }
  }

  /** b & (0x80 >> k) != 0 */
  predicate TestBit(b: Byte, k: nat)
    requires k < 8
  {
    BitAt(b as int, 7 - k)
  }

  /** b | (0x80 >> k) */
  function SetBit(b: Byte, k: nat): Byte
    requires k < 8
  {
    OrBitRange(b as int, 7 - k, 8);
    OrBit(b as int, 7 - k) as Byte
  }

  lemma SetBitTest(b: Byte, k: nat, j: nat)
    requires k < 8 && j < 8
    ensures TestBit(SetBit(b, k), j) <==> j == k || TestBit(b, j)
    ensures SetBit(b, k) != 0
  {
    OrBitAt(b as int, 7 - k, 7 - j);
    OrBitRange(b as int, 7 - k, 8);
  }

  lemma {:induction false} ZeroHasNoBit(n: nat)
    ensures !BitAt(0, n)
  {
    if n > 0 {
      ZeroHasNoBit(n - 1);
    }
  }

  // ----- one window -----

  predicate Bit(bits: Bytes, n: nat) {
    n / 8 < |bits| && TestBit(bits[n / 8], n % 8)
  }

  function Grow(bits: Bytes, needed: nat): Bytes {
    if |bits| < needed then bits + seq(needed - |bits|, _ => 0 as Byte) else bits
  }

  function Mark(bits: Bytes, bit: nat): Bytes {
    var grown := Grow(bits, bit / 8 + 1);
    grown[bit / 8 := SetBit(grown[bit / 8], bit % 8)]
  }

  /** The bitmap that the types of window w build up, in the order of the list. */
  function Bitmap(types: seq<U16>, w: nat): Bytes {
    if types == [] then []
    else
      var last, before := types[|types| - 1] as int, Bitmap(types[..|types| - 1], w);
      if last / 0x100 == w then Mark(before, last % 0x100) else before
  }

  /** A bitmap as section 4.1.2 of RFC 4034 wants it: at most 32 bytes, no trailing zero byte. */
  predicate Trimmed(bits: Bytes) {
    |bits| <= 32 && (bits != [] ==> bits[|bits| - 1] != 0)
  }

  lemma MarkBit(bits: Bytes, bit: nat, n: nat)
    ensures Bit(Mark(bits, bit), n) <==> n == bit || Bit(bits, n)
  {
    hide SetBit, BitAt;
    ZeroHasNoBit(7 - n % 8);
    if n / 8 == bit / 8 {
      SetBitTest(Grow(bits, bit / 8 + 1)[bit / 8], bit % 8, n % 8);
    }
  }

  lemma MarkTrimmed(bits: Bytes, bit: nat)
    requires Trimmed(bits) && bit < 0x100
    ensures Trimmed(Mark(bits, bit)) && Mark(bits, bit) != []
  {
    SetBitTest(Grow(bits, bit / 8 + 1)[bit / 8], bit % 8, 0);
  }

  predicate Lists(types: seq<U16>, t: int) {
    0 <= t < 0x1_0000 && t as U16 in types
  }

  /** Bit n of window w is set exactly when the list has type 256 w + n; the bitmap is trimmed. */
  lemma {:induction false} BitmapBits(types: seq<U16>, w: nat)
    ensures Trimmed(Bitmap(types, w))
    ensures forall n: nat :: Bit(Bitmap(types, w), n) <==> n < 0x100 && Lists(types, w * 0x100 + n)
  {
    hide Mark, TestBit;
    if types != [] {
      var last, front := types[|types| - 1], types[..|types| - 1];
      var before := Bitmap(front, w);
      BitmapBits(front, w);
      forall n: nat
        ensures Bit(Bitmap(types, w), n) <==> n < 0x100 && Lists(types, w * 0x100 + n)
      {
        assert n < 0x100 ==> (Lists(types, w * 0x100 + n) <==>
          Lists(front, w * 0x100 + n) || w * 0x100 + n == last as int);
        MarkBit(before, last as int % 0x100, n);
      }
      MarkTrimmed(before, last as int % 0x100);
    }
  }

  // ----- the blocks -----

  function Block(types: seq<U16>, w: nat): Bytes
    requires w < 0x100
  {
    var bits := Bitmap(types, w);
    BitmapBits(types, w);
    if bits == [] then [] else [w as Byte, |bits| as Byte] + bits
  }

  /** The blocks of the windows from w on, as far as the encoder's loop goes. */
  function EncodeFrom(types: seq<U16>, w: nat): Bytes
    decreases WINDOWS - w, types
  {
    if w >= WINDOWS then [] else Block(types, w) + EncodeFrom(types, w + 1)
  }

  /** What encodeTypeBitMaps appends. */
  function Encode(types: seq<U16>): Bytes {
    EncodeFrom(types, 0)
  }

  /** The types that the bits of one block from number n on stand for; uint16 arithmetic wraps. */
  function BitsFrom(w: Byte, bits: Bytes, n: nat): seq<U16>
    decreases 8 * |bits| - n
  {
    if n >= 8 * |bits| then []
    else if Bit(bits, n) then [((w as int * 0x100 + n) % 0x1_0000) as U16] + BitsFrom(w, bits, n + 1)
    else BitsFrom(w, bits, n + 1)
  }

  /** The value of decodeTypeBitMaps on the bytes that are left for the bitmaps. */
  function Decode(bs: Bytes): Result<seq<U16>> {
    if bs == [] then Ok([])
    else if |bs| < 2 then Err(BitmapTruncated)
    else if 2 + bs[1] as int > |bs| then Err(BitmapTooLong)
    else
      var rest :- Decode(bs[2 + bs[1] as int..]);
      Ok(BitsFrom(bs[0], bs[2..2 + bs[1] as int], 0) + rest)
  }

  /** The listed types from lo up to hi, in increasing order and once each. */
  function Ascending(types: seq<U16>, lo: nat, hi: nat): seq<U16>
    requires hi <= 0x1_0000
    decreases hi - lo, types
  {
    if lo >= hi then []
    else if lo as U16 in types then [lo as U16] + Ascending(types, lo + 1, hi)
    else Ascending(types, lo + 1, hi)
  }

  predicate Increasing(types: seq<U16>) {
    forall i, j :: 0 <= i < j < |types| ==> types[i] < types[j]
  }

  lemma {:induction false} AscendingHas(types: seq<U16>, lo: nat, hi: nat)
    requires hi <= 0x1_0000
    ensures forall t :: t in Ascending(types, lo, hi) <==> lo <= t as int < hi && t in types
    decreases hi - lo
  {
    if lo < hi {
      AscendingHas(types, lo + 1, hi);
    }
  }

  lemma {:induction false} AscendingIncreases(types: seq<U16>, lo: nat, hi: nat)
    requires hi <= 0x1_0000
    ensures Increasing(Ascending(types, lo, hi))
    decreases hi - lo
  {
    if lo < hi {
      var rest := Ascending(types, lo + 1, hi);
      AscendingIncreases(types, lo + 1, hi);
      AscendingHas(types, lo + 1, hi);
      assert forall j :: 0 <= j < |rest| ==> rest[j] in rest;
    }
  }

  lemma {:induction false} AscendingSkips(types: seq<U16>, lo: nat, mid: nat, hi: nat)
    requires lo <= mid <= hi <= 0x1_0000
    requires forall t :: lo <= t < mid ==> !Lists(types, t)
    ensures Ascending(types, lo, hi) == Ascending(types, mid, hi)
    decreases mid - lo
  {
    if lo < mid {
      assert !Lists(types, lo);
      AscendingSkips(types, lo + 1, mid, hi);
    }
  }

  lemma BitsStep(w: Byte, bits: Bytes, n: nat)
    ensures n >= 8 * |bits| ==> BitsFrom(w, bits, n) == []
    ensures n < 8 * |bits| ==>
              BitsFrom(w, bits, n) == (if Bit(bits, n) then [((w as int * 0x100 + n) % 0x1_0000) as U16] else []) + BitsFrom(w, bits, n + 1)
  {
    hide Bit;
  }

  lemma AscendingStep(types: seq<U16>, lo: nat, hi: nat)
    requires lo < hi <= 0x1_0000
    ensures Ascending(types, lo, hi) == (if Lists(types, lo) then [lo as U16] else []) + Ascending(types, lo + 1, hi)
  {
  }

  /** Reading the rest of a block and then the later types gives the types from there on. */
  lemma {:induction false} BlockIsAscending(types: seq<U16>, w: nat, n: nat, hi: nat)
    requires w < 0x100 && (w + 1) * 0x100 <= hi <= 0x1_0000 && n <= 8 * |Bitmap(types, w)|
    ensures BitsFrom(w as Byte, Bitmap(types, w), n) + Ascending(types, (w + 1) * 0x100, hi)
         == Ascending(types, w * 0x100 + n, hi)
    decreases 8 * |Bitmap(types, w)| - n
  {
    hide Bitmap, Bit, BitsFrom, Ascending, Lists;
    var bits := Bitmap(types, w);
    BitmapBits(types, w);
    BitsStep(w as Byte, bits, n);
    var later := Ascending(types, (w + 1) * 0x100, hi);
    if n < 8 * |bits| {
      BlockIsAscending(types, w, n + 1, hi);
      AscendingStep(types, w * 0x100 + n, hi);
      AssocTypes(if Bit(bits, n) then [(w * 0x100 + n) as U16] else [], BitsFrom(w as Byte, bits, n + 1), later);
    } else {
      BlockEnd(types, w, n, hi);
      assert [] + later == later;
    }
  }

  lemma BlockEnd(types: seq<U16>, w: nat, n: nat, hi: nat)
    requires w < 0x100 && (w + 1) * 0x100 <= hi <= 0x1_0000 && n == 8 * |Bitmap(types, w)| <= 0x100
    ensures Ascending(types, w * 0x100 + n, hi) == Ascending(types, (w + 1) * 0x100, hi)
  {
    hide Bitmap, Ascending, Lists;
    BitmapBits(types, w);
    forall t | w * 0x100 + n <= t < (w + 1) * 0x100
      ensures !Lists(types, t)
    {
      assert !Bit(Bitmap(types, w), t - w * 0x100);
    }
    AscendingSkips(types, w * 0x100 + n, (w + 1) * 0x100, hi);
  }

  lemma NoBits(w: Byte)
    ensures BitsFrom(w, [], 0) == []
  {
  }

  lemma AssocTypes(a: seq<U16>, b: seq<U16>, c: seq<U16>)
    ensures a + b + c == a + (b + c)
  {
  }

  lemma DecodeBlock(w: Byte, bits: Bytes, rest: Bytes)
    requires 0 < |bits| <= 32 && Decode(rest).Ok?
    ensures Decode([w, |bits| as Byte] + bits + rest) == Ok(BitsFrom(w, bits, 0) + Decode(rest).value)
  {
    hide BitsFrom;
    var bs := [w, |bits| as Byte] + bits + rest;
    assert bs[2..2 + |bits|] == bits && bs[2 + |bits|..] == rest;
  }

  lemma DecodeEnd(types: seq<U16>)
    ensures Decode([]) == Ok([]) && Ascending(types, TYPE_LIMIT, TYPE_LIMIT) == []
  {
  }

  lemma {:induction false} DecodeFrom(types: seq<U16>, w: nat)
    requires w <= WINDOWS
    ensures Decode(EncodeFrom(types, w)) == Ok(Ascending(types, w * 0x100, TYPE_LIMIT))
    decreases WINDOWS - w
  {
    hide Bitmap, BitsFrom, Decode, Ascending;
    DecodeEnd(types);
    if w < WINDOWS {
      var bits, rest := Bitmap(types, w), EncodeFrom(types, w + 1);
      DecodeFrom(types, w + 1);
      BlockIsAscending(types, w, 0, TYPE_LIMIT);
      BitmapBits(types, w);
      if bits == [] {
        NoBits(w as Byte);
        assert [] + rest == rest;
        assert [] + Ascending(types, (w + 1) * 0x100, TYPE_LIMIT) == Ascending(types, (w + 1) * 0x100, TYPE_LIMIT);
      } else {
        DecodeBlock(w as Byte, bits, rest);
      }
    }
  }

  /** Round trip: whatever the order and repetitions, decoding gives the listed types below 0xFF00
      in strictly increasing order. */
  lemma BitMapsRoundTrip(types: seq<U16>)
    ensures Decode(Encode(types)) == Ok(Ascending(types, 0, TYPE_LIMIT))
    ensures var a := Ascending(types, 0, TYPE_LIMIT);
            && (forall t :: t in a <==> (t as int) < TYPE_LIMIT && t in types)
            && Increasing(a)
  {
    DecodeFrom(types, 0);
    AscendingHas(types, 0, TYPE_LIMIT);
    AscendingIncreases(types, 0, TYPE_LIMIT);
  }

  /** Nothing is lost exactly when no listed type is in window 255. */
  lemma BitMapsLoseWindow255(types: seq<U16>)
    ensures Decode(Encode(types)).Ok?
    ensures (forall t :: t in types ==> t in Decode(Encode(types)).value)
       <==> (forall t :: t in types ==> (t as int) < TYPE_LIMIT)
  {
    hide Decode, Encode, Ascending;
    BitMapsRoundTrip(types);
  }

  // ----- the loops of the source -----

  ghost predicate HoldsBitmaps(blocks: map<Byte, Bytes>, types: seq<U16>) {
    forall w: Byte :: (w in blocks <==> Bitmap(types, w as int) != [])
      && (w in blocks ==> blocks[w] == Bitmap(types, w as int))
  }

  lemma BitmapGrows(blocks: map<Byte, Bytes>, types: seq<U16>, i: nat)
    requires i < |types| && HoldsBitmaps(blocks, types[..i])
    ensures var block := (types[i] as int / 0x100) as Byte;
            HoldsBitmaps(blocks[block := Mark(if block in blocks then blocks[block] else [], types[i] as int % 0x100)], types[..i + 1])
  {
    hide Mark, BitAt;
    assert types[..i + 1][..i] == types[..i];
    BitmapBits(types[..i], types[i] as int / 0x100);
    MarkTrimmed(Bitmap(types[..i], types[i] as int / 0x100), types[i] as int % 0x100);
  }

  lemma NoBitmaps()
    ensures HoldsBitmaps(map[], [])
  {
  }

  lemma WindowWritten(blocks: map<Byte, Bytes>, types: seq<U16>, w: nat)
    requires w < WINDOWS && HoldsBitmaps(blocks, types)
    ensures |Bitmap(types, w)| <= 32
    ensures w as Byte in blocks ==> Block(types, w) == [w as Byte] + [|blocks[w as Byte]| as Byte] + blocks[w as Byte]
    ensures w as Byte !in blocks ==> Block(types, w) == []
    ensures EncodeFrom(types, w) == Block(types, w) + EncodeFrom(types, w + 1)
    ensures w as Byte in blocks ==> blocks[w as Byte] == Bitmap(types, w)
  {
    hide Bitmap, BitAt;
    BitmapBits(types, w);
  }

  lemma WindowsEnd(types: seq<U16>)
    ensures EncodeFrom(types, WINDOWS) == [] && Encode(types) == EncodeFrom(types, 0)
  {
    hide Bitmap;
  }

  /** encodeTypeBitMaps: groups the types by window in a map, then writes windows 0 to 254. */
  method EncodeTypeBitMaps(buf: Bytes, types: seq<U16>) returns (out: Bytes)
    ensures out == buf + Encode(types)
  {
    hide Mark, EncodeFrom, BitAt, Bitmap, HoldsBitmaps, Block, Encode;
    var blocks: map<Byte, Bytes> := map[];
    NoBitmaps();
    for i := 0 to |types|
      invariant HoldsBitmaps(blocks, types[..i])
    {
      BitmapGrows(blocks, types, i);
      var block := (types[i] as int / 0x100) as Byte;
      var bit := types[i] as int % 0x100;
      var bits := if block in blocks then blocks[block] else [];
      bits := Mark(bits, bit);
      blocks := blocks[block := bits];
    }
    assert types[..|types|] == types;
    out := buf;
    WindowsEnd(types);
    for block := 0 to WINDOWS
      invariant out + EncodeFrom(types, block) == buf + Encode(types)
    {
      WindowWritten(blocks, types, block);
      ghost var before, later := out, EncodeFrom(types, block + 1);
      if block as Byte in blocks {
        var bits := blocks[block as Byte];
        out := out + [block as Byte];
        out := out + [|bits| as Byte];
        out := out + bits;
        Assoc(before, [block as Byte], [|bits| as Byte]);
        Assoc(before, [block as Byte] + [|bits| as Byte], bits);
      }
      Assoc(before, Block(types, block), later);
    }
  }

  lemma {:induction false} ZeroByteAdds(w: Byte, bits: Bytes, i: nat, k: nat)
    requires i < |bits| && bits[i] == 0 && k <= 8
    ensures BitsFrom(w, bits, 8 * i + k) == BitsFrom(w, bits, 8 * i + 8)
    decreases 8 - k
  {
    hide BitAt, BitsFrom;
    if k < 8 {
      ZeroHasNoBit(7 - k);
      BitsStep(w, bits, 8 * i + k);
      assert !Bit(bits, 8 * i + k);
      ZeroByteAdds(w, bits, i, k + 1);
    }
  }

  lemma BitStep(types: seq<U16>, w: Byte, bits: Bytes, i: nat, k: nat)
    requires i < |bits| && k < 8
    ensures var t := ((w as int * 0x100 + (8 * i + k)) % 0x1_0000) as U16;
            types + BitsFrom(w, bits, 8 * i + k)
              == (if TestBit(bits[i], k) then types + [t] else types) + BitsFrom(w, bits, 8 * i + k + 1)
  {
    var t := ((w as int * 0x100 + (8 * i + k)) % 0x1_0000) as U16;
    if TestBit(bits[i], k) {
      AssocTypes(types, [t], BitsFrom(w, bits, 8 * i + k + 1));
    }
  }

  method DecodeBits(block: Byte, bits: Bytes, types: seq<U16>) returns (out: seq<U16>)
    ensures out == types + BitsFrom(block, bits, 0)
  {
    hide TestBit, BitsFrom;
    out := types;
    for i := 0 to |bits|
      invariant out + BitsFrom(block, bits, 8 * i) == types + BitsFrom(block, bits, 0)
    {
      if bits[i] == 0 {
        ZeroByteAdds(block, bits, i, 0);
        continue;
      }
      for bit := 0 to 8
        invariant out + BitsFrom(block, bits, 8 * i + bit) == types + BitsFrom(block, bits, 0)
      {
        BitStep(out, block, bits, i, bit);
        if TestBit(bits[i], bit) {
          out := out + [((block as int * 0x100 + (8 * i + bit)) % 0x1_0000) as U16];
        }
      }
    }
    NoMoreBits(block, bits);
    assert out + [] == out;
  }

  lemma NoMoreBits(w: Byte, bits: Bytes)
    ensures BitsFrom(w, bits, 8 * |bits|) == []
  {
  }

  ghost function Prepend(types: seq<U16>, r: Result<seq<U16>>): Result<seq<U16>> {
    match r
    case Err(e) => Err(e)
    case Ok(rest) => Ok(types + rest)
  }

  lemma PrependTwice(a: seq<U16>, b: seq<U16>, r: Result<seq<U16>>)
    ensures Prepend(a, Prepend(b, r)) == Prepend(a + b, r)
    ensures Prepend([], r) == r
  {
    if r.Ok? {
      AssocTypes(a, b, r.value);
      assert [] + r.value == r.value;
    }
  }

  lemma DecodeStep(msg: Bytes, pos: nat, end: nat)
    requires pos <= end <= |msg|
    ensures pos == end ==> Decode(msg[pos..end]) == Ok([])
    ensures pos + 1 == end ==> Decode(msg[pos..end]) == Err(BitmapTruncated)
    ensures pos + 1 < end ==>
              Decode(msg[pos..end]) ==
                var next := pos + 2 + msg[pos + 1] as int;
                if next > end then Err(BitmapTooLong)
                else Prepend(BitsFrom(msg[pos], msg[pos + 2..next], 0), Decode(msg[next..end]))
  {
    if pos + 1 < end && pos + 2 + msg[pos + 1] as int <= end {
      var bs, next := msg[pos..end], pos + 2 + msg[pos + 1] as int;
      SubSlice(msg, pos, end, 2, next - pos);
      SubSlice(msg, pos, end, next - pos, end - pos);
      assert bs[next - pos..] == bs[next - pos..end - pos];
    }
  }

  /** decodeTypeBitMaps on msg from offset to end. */
  method DecodeTypeBitMaps(msg: Bytes, offset: nat, end: nat) returns (r: Result<seq<U16>>)
    requires offset <= end <= |msg|
    ensures r == Decode(msg[offset..end])
  {
    hide BitsFrom, Decode;
    var types: seq<U16> := [];
    var pos := offset;
    ghost var whole := Decode(msg[offset..end]);
    PrependTwice([], [], whole);
    while pos < end
      invariant offset <= pos <= end
      invariant whole == Prepend(types, Decode(msg[pos..end]))
    {
      DecodeStep(msg, pos, end);
      if pos + 2 > end {
        return Err(BitmapTruncated);
      }
      var block := msg[pos];
      var bitmapLen := msg[pos + 1] as int;
      pos := pos + 2;
      if pos + bitmapLen > end {
        return Err(BitmapTooLong);
      }
      PrependTwice(types, BitsFrom(block, msg[pos..pos + bitmapLen], 0), Decode(msg[pos + bitmapLen..end]));
      types := DecodeBits(block, msg[pos..pos + bitmapLen], types);
      pos := pos + bitmapLen;
    }
    DecodeStep(msg, pos, end);
    assert types + [] == types;
    return Ok(types);
  }
}
