/** Bytes, fixed-width integers in network order, and the result types shared by the model.
    A Go string or byte slice is a sequence of bytes. */
module Octets {
  newtype Byte = x: int | 0 <= x < 0x100
  newtype U16 = x: int | 0 <= x < 0x1_0000
  newtype U32 = x: int | 0 <= x < 0x1_0000_0000
  type Bytes = seq<Byte>

  /** Clock ticks a second. */
  const SECOND := 1_000_000_000

  datatype Option<+T> = None | Some(value: T)

  datatype Result<+T> = Ok(value: T) | Err(error: Error) {
    predicate IsFailure() {
      Err?
    }

    function PropagateFailure<U>(): Result<U>
      requires Err?
    {
      Err(error)
    }

    function Extract(): T
      requires Ok?
    {
      value
    }
  }

  /** The failures of the codec, one constructor for each distinct error of the source. */
  datatype Error =
    | TruncatedName
    | InvalidPointer
    | PointerLoop
    | LabelLength
    | LabelTooLong
    | NotIPv4
    | NotIPv6
    | TextTooLong
    | MessageTooLarge
    | MessageTooShort
    | TruncatedQuestion
    | TruncatedHeader
    | TruncatedRdata
    | BadALength
    | BadAaaaLength
    | SrvTooShort
    | TextTruncated
    | BitmapTruncated
    | BitmapTooLong

  /** binary.BigEndian.AppendUint16 of uint16(v). */
  function Put16(v: nat): (r: Bytes)
    ensures |r| == 2
  {
    [(v / 0x100 % 0x100) as Byte, (v % 0x100) as Byte]
  }

  function Put32(v: nat): (r: Bytes)
    ensures |r| == 4
  {
    [(v / 0x100_0000 % 0x100) as Byte, (v / 0x1_0000 % 0x100) as Byte,
     (v / 0x100 % 0x100) as Byte, (v % 0x100) as Byte]
  }

  function Get16(msg: Bytes, at: nat): U16
    requires at + 2 <= |msg|
  {
    ((msg[at] as int) * 0x100 + msg[at + 1] as int) as U16
  }

  function Get32(msg: Bytes, at: nat): U32
    requires at + 4 <= |msg|
  {
    ((msg[at] as int) * 0x100_0000 + (msg[at + 1] as int) * 0x1_0000
     + (msg[at + 2] as int) * 0x100 + msg[at + 3] as int) as U32
  }

  lemma Assoc(a: Bytes, b: Bytes, c: Bytes)
    ensures a + b + c == a + (b + c)
  {
  }

  lemma SubSlice(msg: Bytes, from: nat, to: nat, lo: nat, hi: nat)
    requires from <= to <= |msg| && lo <= hi <= to - from
    ensures msg[from..to][lo..hi] == msg[from + lo..from + hi]
  {
    assert forall i :: 0 <= i < hi - lo ==> msg[from..to][lo..hi][i] == msg[from + lo + i];
  }

  /** The bytes part stand at offset base of msg. */
  predicate At(msg: Bytes, base: nat, part: Bytes) {
    base + |part| <= |msg| && msg[base..base + |part|] == part
  }

  lemma AtSplit(msg: Bytes, base: nat, a: Bytes, b: Bytes)
    requires At(msg, base, a + b)
    ensures At(msg, base, a) && At(msg, base + |a|, b)
  {
    assert forall i :: 0 <= i < |a| ==> msg[base..base + |a + b|][i] == a[i];
    assert forall i :: 0 <= i < |b| ==> msg[base..base + |a + b|][|a| + i] == b[i];
  }

  lemma AtHead(msg: Bytes, base: nat, first: Byte, rest: Bytes)
    requires At(msg, base, [first] + rest)
    ensures base < |msg| && msg[base] == first
    ensures At(msg, base + 1, rest)
  {
    AtSplit(msg, base, [first], rest);
    assert msg[base] == msg[base..base + 1][0];
  }

  lemma AtOne(msg: Bytes, base: nat, only: Byte)
    requires At(msg, base, [only])
    ensures base < |msg| && msg[base] == only
  {
    assert msg[base] == msg[base..base + 1][0];
  }

  /** strings.HasSuffix */
  predicate EndsWith(s: Bytes, suffix: Bytes) {
    |s| >= |suffix| && s[|s| - |suffix|..] == suffix
  }
}
