/**
 * The serialized literal buffer format: sequences of similarly typed
 * literals, each preceded by a one- or two-byte tag giving the sequence's
 * type and length, followed by the little-endian payloads of its elements.
 */
module SerializedLiteral {
  import opened Wrappers

  /** A byte of the buffer. */
  type Byte = x: int | 0 <= x < 256

  /** The type of a sequence of similarly typed literals. */
  datatype SeqType = NullSeq | TrueSeq | FalseSeq | NumberSeq | LongStringSeq | ShortStringSeq | UndefinedSeq | IntegerSeq

  /** The three type bits `ttt` of each tag. */
  function TypeCode(t: SeqType): (k: nat)
    ensures k < 8
  {
    match t
    case NullSeq => 0
    case TrueSeq => 1
    case FalseSeq => 2
    case NumberSeq => 3
    case LongStringSeq => 4
    case ShortStringSeq => 5
    case UndefinedSeq => 6
    case IntegerSeq => 7
  }

  /** The type whose code is `k`; the inverse of TypeCode. */
  function TypeFromCode(k: nat): (t: SeqType)
    requires k < 8
    ensures TypeCode(t) == k
  {
    if k == 0 then NullSeq else if k == 1 then TrueSeq else if k == 2 then FalseSeq
    else if k == 3 then NumberSeq else if k == 4 then LongStringSeq
    else if k == 5 then ShortStringSeq else if k == 6 then UndefinedSeq else IntegerSeq
  }

  /** The tag constant of a type: its code shifted left by four. */
  function Tag(t: SeqType): (tag: bv8)
  {
    (TypeCode(t) as bv8) << 4
  }

  const TagMask: bv8 := 0x70

  /** The largest sequence length a tag can carry: twelve length bits. */
  const SequenceMax: nat := 4095

  /** Every tag lies inside the mask, so masking a tag gives the tag back. */
  lemma TagWithinMask(t: SeqType)
    ensures Tag(t) & TagMask == Tag(t)
    ensures Tag(t) & 0x8f == 0
  {
  }

  /** The eight tags are pairwise distinct. */
  lemma TagsDistinct(a: SeqType, b: SeqType)
    ensures Tag(a) == Tag(b) <==> a == b
  {
    TagValues();
  }

  /** The tag constants' numeric values. */
  lemma TagValues()
    ensures Tag(NullSeq) == 0 && Tag(TrueSeq) == 0x10 && Tag(FalseSeq) == 0x20
    ensures Tag(NumberSeq) == 0x30 && Tag(LongStringSeq) == 0x40
    ensures Tag(ShortStringSeq) == 0x50 && Tag(UndefinedSeq) == 0x60 && Tag(IntegerSeq) == 0x70
  {
  }

  /**
   * The tag bytes of a sequence: `0ttt llll` when the sequence is shorter
   * than 16, otherwise `1ttt llll` followed by the low eight length bits.
   */
  function EncodeSeqTag(t: SeqType, len: nat): (bytes: seq<Byte>)
    requires len <= SequenceMax
    ensures |bytes| == (if len < 16 then 1 else 2)
    ensures bytes[0] < 128 <==> len < 16
    ensures (bytes[0] / 16) % 8 == TypeCode(t)
  {
    if len < 16 then [TypeCode(t) * 16 + len]
    else [128 + TypeCode(t) * 16 + len / 256, len % 256]
  }

  /** A decoded tag: the sequence type, its length and how many bytes the tag took. */
  datatype SeqTag = SeqTag(kind: SeqType, length: nat, width: nat)

  /** Reads a tag from the front of a buffer; fails on a truncated buffer. */
  function DecodeSeqTag(buf: seq<Byte>): (r: Option<SeqTag>)
    ensures r.Some? ==> r.value.width in {1, 2} && r.value.width <= |buf|
    ensures r.Some? ==> r.value.length <= SequenceMax
  {
    if |buf| == 0 then None
    else if buf[0] < 128 then Some(SeqTag(TypeFromCode(buf[0] / 16), buf[0] % 16, 1))
    else if |buf| < 2 then None
    else Some(SeqTag(TypeFromCode((buf[0] as int - 128) / 16), ((buf[0] as int - 128) % 16) * 256 + buf[1], 2))
  }

  /** The type and length can be recovered from the tag bytes, whatever follows them. */
  lemma SeqTagRoundTrip(t: SeqType, len: nat, rest: seq<Byte>)
    requires len <= SequenceMax
    ensures DecodeSeqTag(EncodeSeqTag(t, len) + rest) == Some(SeqTag(t, len, |EncodeSeqTag(t, len)|))
  {
    var buf := EncodeSeqTag(t, len) + rest;
    if len < 16 {
      assert buf[0] == TypeCode(t) * 16 + len;
      assert TypeFromCode(buf[0] / 16) == t by {
        assert buf[0] / 16 == TypeCode(t);
        TypeCodeInjective(TypeFromCode(buf[0] / 16), t);
      }
    } else {
      assert buf[0] == 128 + TypeCode(t) * 16 + len / 256 && buf[1] == len % 256;
      assert (buf[0] - 128) / 16 == TypeCode(t);
      TypeCodeInjective(TypeFromCode((buf[0] - 128) / 16), t);
    }
  }

  lemma TypeCodeInjective(a: SeqType, b: SeqType)
    requires TypeCode(a) == TypeCode(b)
    ensures a == b
  {
  }

  /** A literal value as it is serialized. */
  datatype LiteralValue =
    | LNull | LTrue | LFalse | LUndefined
    | LNumber(bits: nat)      // the raw 64-bit pattern of a double
    | LInteger(word: nat)     // the 32-bit two's complement pattern of an int32
    | LString(index: nat)     // an index into the string table

  predicate WellFormed(v: LiteralValue)
  {
    match v
    case LNumber(b) => b < 0x1_0000_0000_0000_0000
    case LInteger(w) => w < 0x1_0000_0000
    case LString(i) => i < 0x1_0000_0000
    case _ => true
  }

  /** The sequence type a value is written under; short strings have an index below 2^16. */
  function TypeOfValue(v: LiteralValue): SeqType
  {
    match v
    case LNull => NullSeq
    case LTrue => TrueSeq
    case LFalse => FalseSeq
    case LUndefined => UndefinedSeq
    case LNumber(_) => NumberSeq
    case LInteger(_) => IntegerSeq
    case LString(i) => if i < 0x1_0000 then ShortStringSeq else LongStringSeq
  }

  /** Bytes of payload per element of a sequence of this type. */
  function PayloadSize(t: SeqType): nat
  {
    match t
    case NullSeq => 0
    case TrueSeq => 0
    case FalseSeq => 0
    case UndefinedSeq => 0
    case ShortStringSeq => 2
    case IntegerSeq => 4
    case LongStringSeq => 4
    case NumberSeq => 8
  }

  function Pow256(n: nat): (p: nat)
    ensures p >= 1
  {
    if n == 0 then 1 else 256 * Pow256(n - 1)
  }

  /** `v` written as `n` little-endian bytes. */
  function LittleEndian(v: nat, n: nat): (bytes: seq<Byte>)
    ensures |bytes| == n
  {
    if n == 0 then [] else [v % 256] + LittleEndian(v / 256, n - 1)
  }

  /** The number whose little-endian bytes are `bytes`. */
  function FromLittleEndian(bytes: seq<Byte>): (v: nat)
    ensures v < Pow256(|bytes|)
  {
    if |bytes| == 0 then 0 else bytes[0] + 256 * FromLittleEndian(bytes[1..])
  }

  lemma {:induction false} LittleEndianRoundTrip(v: nat, n: nat)
    requires v < Pow256(n)
    ensures FromLittleEndian(LittleEndian(v, n)) == v
  {
    if n > 0 {
      LittleEndianRoundTrip(v / 256, n - 1);
      assert LittleEndian(v, n)[1..] == LittleEndian(v / 256, n - 1);
    }
  }

  /** The payload of one element. */
  function Payload(v: LiteralValue): (bytes: seq<Byte>)
    ensures |bytes| == PayloadSize(TypeOfValue(v))
  {
    match v
    case LNumber(b) => LittleEndian(b, 8)
    case LInteger(w) => LittleEndian(w, 4)
    case LString(i) => if i < 0x1_0000 then LittleEndian(i, 2) else LittleEndian(i, 4)
    case _ => []
  }

  /** Reads back one element of a sequence of type `t` from its payload bytes. */
  function DecodePayload(t: SeqType, bytes: seq<Byte>): (r: Option<LiteralValue>)
    ensures r.Some? ==> |bytes| == PayloadSize(t)
  {
    if |bytes| != PayloadSize(t) then None
    else match t
      case NullSeq => Some(LNull)
      case TrueSeq => Some(LTrue)
      case FalseSeq => Some(LFalse)
      case UndefinedSeq => Some(LUndefined)
      case NumberSeq => Some(LNumber(FromLittleEndian(bytes)))
      case IntegerSeq => Some(LInteger(FromLittleEndian(bytes)))
      case ShortStringSeq => Some(LString(FromLittleEndian(bytes)))
      case LongStringSeq => Some(LString(FromLittleEndian(bytes)))
  }

  /** Every well-formed value survives the trip through its payload bytes. */
  lemma PayloadRoundTrip(v: LiteralValue)
    requires WellFormed(v)
    ensures DecodePayload(TypeOfValue(v), Payload(v)) == Some(v)
  {
    assert Pow256(2) == 0x1_0000;
    assert Pow256(4) == 0x1_0000_0000;
    assert Pow256(8) == 0x1_0000_0000_0000_0000;
    match v
    case LNumber(b) => LittleEndianRoundTrip(b, 8);
    case LInteger(w) => LittleEndianRoundTrip(w, 4);
    case LString(i) =>
      if i < 0x1_0000 { LittleEndianRoundTrip(i, 2); } else { LittleEndianRoundTrip(i, 4); }
    case _ =>
  }
}
