/** `struct.pack` and `struct.unpack` for the format characters the capture encoder uses:
    `B` (unsigned char), `H` (unsigned short), `I` (unsigned int), `i` (int), with standard
    sizes and no padding, in big-endian (`>`) or native (`=`) byte order. A pack is given its
    format characters and values as one list of pairs, so the two always have the same length.
    Every value is checked against its field's range before any byte is produced, so a pack
    either raises or yields all of its bytes. */
module Struct {
  import opened Results

  datatype ByteOrder = Little | Big

  /** The `=` prefix uses the host's byte order; this model fixes it as little-endian. */
  const Native: ByteOrder := Little

  /** A format character: `B`, `H`, `I` or `i`. */
  datatype Code = B | H | I | SignedI

  function Width(c: Code): nat {
    match c
    case B => 1
    case H => 2
    case I => 4
    case SignedI => 4
  }

  /** `struct.calcsize`: with standard sizes there is no padding between fields. */
  function Size(fmt: seq<Code>): nat
    decreases |fmt|
  {
    if fmt == [] then 0 else Width(fmt[0]) + Size(fmt[1..])
  }

  /** The values a field of code `c` can hold; `struct.pack` raises `struct.error` outside it. */
  predicate InRange(c: Code, v: int) {
    match c
    case B => 0 <= v < 0x100
    case H => 0 <= v < 0x1_0000
    case I => 0 <= v < 0x1_0000_0000
    case SignedI => -0x8000_0000 <= v < 0x8000_0000
  }

  /** One argument of `struct.pack` together with its format character. */
  datatype Field = Field(code: Code, value: int)

  function Codes(fields: seq<Field>): (codes: seq<Code>)
    ensures |codes| == |fields|
    ensures forall k :: 0 <= k < |fields| ==> codes[k] == fields[k].code
  {
    seq(|fields|, k requires 0 <= k < |fields| => fields[k].code)
  }

  function Values(fields: seq<Field>): (values: seq<int>)
    ensures |values| == |fields|
    ensures forall k :: 0 <= k < |fields| ==> values[k] == fields[k].value
  {
    seq(|fields|, k requires 0 <= k < |fields| => fields[k].value)
  }

  /** Every value in its field's range. */
  predicate Fits(fields: seq<Field>) {
    forall k :: 0 <= k < |fields| ==> InRange(fields[k].code, fields[k].value)
  }

  function Pow256(n: nat): (p: nat)
    ensures p >= 1
  {
    if n == 0 then 1 else 256 * Pow256(n - 1)
  }

  /** The `n` low-order bytes of `x`, least significant first. */
  function LittleEndian(x: nat, n: nat): (bs: seq<byte>)
    ensures |bs| == n
  {
    if n == 0 then [] else [(x % 256) as byte] + LittleEndian(x / 256, n - 1)
  }

  /** The number whose bytes, least significant first, are `bs`. */
  function FromLittleEndian(bs: seq<byte>): nat
    decreases |bs|
  {
    if bs == [] then 0 else bs[0] as int + 256 * FromLittleEndian(bs[1..])
  }

  /** The `n` low-order bytes of `x`, most significant first. */
  function BigEndian(x: nat, n: nat): (bs: seq<byte>)
    ensures |bs| == n
  {
    if n == 0 then [] else BigEndian(x / 256, n - 1) + [(x % 256) as byte]
  }

  /** The number whose bytes, most significant first, are `bs`. */
  function FromBigEndian(bs: seq<byte>): nat
    decreases |bs|
  {
    if bs == [] then 0 else FromBigEndian(bs[..|bs| - 1]) * 256 + bs[|bs| - 1] as int
  }

  /** One field: the value (two's complement for `i`) in `Width(c)` bytes of the given order. */
  function EncodeField(order: ByteOrder, c: Code, v: int): (bs: seq<byte>)
    requires InRange(c, v)
    ensures |bs| == Width(c)
  {
    var u := if v < 0 then v + 0x1_0000_0000 else v;
    if order == Little then LittleEndian(u, Width(c)) else BigEndian(u, Width(c))
  }

  /** How `struct.unpack` reads one field. */
  function DecodeField(order: ByteOrder, c: Code, bs: seq<byte>): int {
    var u := if order == Little then FromLittleEndian(bs) else FromBigEndian(bs);
    if c == SignedI && u >= 0x8000_0000 then u - 0x1_0000_0000 else u
  }

  function Encode(order: ByteOrder, fields: seq<Field>): seq<byte>
    requires Fits(fields)
    decreases |fields|
  {
    if fields == [] then []
    else
      assert Fits(fields[1..]) by {
        forall k | 0 <= k < |fields| - 1
          ensures InRange(fields[1..][k].code, fields[1..][k].value)
        {
          assert fields[1..][k] == fields[k + 1];
        }
      }
      EncodeField(order, fields[0].code, fields[0].value) + Encode(order, fields[1..])
  }

  function Decode(order: ByteOrder, fmt: seq<Code>, bs: seq<byte>): seq<int>
    requires |bs| == Size(fmt)
    decreases |fmt|
  {
    if fmt == [] then []
    else
      var w := Width(fmt[0]);
      [DecodeField(order, fmt[0], bs[..w])] + Decode(order, fmt[1..], bs[w..])
  }

  /** `struct.pack(fmt, *values)`, the format characters paired with the values. */
  function Pack(order: ByteOrder, fields: seq<Field>): Result<seq<byte>> {
    if Fits(fields) then Success(Encode(order, fields)) else Failure(StructError)
  }

  /** `struct.unpack(fmt, bs)` */
  function Unpack(order: ByteOrder, fmt: seq<Code>, bs: seq<byte>): Result<seq<int>> {
    if |bs| == Size(fmt) then Success(Decode(order, fmt, bs)) else Failure(StructError)
  }

  // ---------------------------------------------------------------- lemmas

  lemma {:induction false} LittleEndianBack(x: nat, n: nat)
    requires x < Pow256(n)
    ensures FromLittleEndian(LittleEndian(x, n)) == x
    decreases n
  {
    if n > 0 {
      var bs := LittleEndian(x, n);
      assert bs[1..] == LittleEndian(x / 256, n - 1);
      LittleEndianBack(x / 256, n - 1);
    }
  }

  lemma {:induction false} BigEndianBack(x: nat, n: nat)
    requires x < Pow256(n)
    ensures FromBigEndian(BigEndian(x, n)) == x
    decreases n
  {
    if n > 0 {
      var bs := BigEndian(x, n);
      assert bs[..n - 1] == BigEndian(x / 256, n - 1);
      BigEndianBack(x / 256, n - 1);
    }
  }

  /** Reading a field back gives the value that was packed. */
  lemma FieldRoundTrip(order: ByteOrder, c: Code, v: int)
    requires InRange(c, v)
    ensures DecodeField(order, c, EncodeField(order, c, v)) == v
  {
    var u := if v < 0 then v + 0x1_0000_0000 else v;
    assert Pow256(1) == 256 && Pow256(2) == 0x1_0000 && Pow256(4) == 0x1_0000_0000 by {
      assert Pow256(3) == 0x100_0000;
    }
    if order == Little {
      LittleEndianBack(u, Width(c));
    } else {
      BigEndianBack(u, Width(c));
    }
  }

  /** Packing a list of fields packs its first field, then the rest. */
  lemma EncodeCons(order: ByteOrder, x: Field, rest: seq<Field>)
    requires Fits([x] + rest)
    ensures InRange(x.code, x.value) && Fits(rest)
    ensures Encode(order, [x] + rest) == EncodeField(order, x.code, x.value) + Encode(order, rest)
  {
    TailFits([x] + rest);
    assert ([x] + rest)[1..] == rest;
  }

  lemma TailFits(fields: seq<Field>)
    requires fields != [] && Fits(fields)
    ensures Fits(fields[1..]) && InRange(fields[0].code, fields[0].value)
  {
    forall k | 0 <= k < |fields| - 1
      ensures InRange(fields[1..][k].code, fields[1..][k].value)
    {
      assert fields[1..][k] == fields[k + 1];
    }
  }

  lemma {:induction false} EncodeSize(order: ByteOrder, fields: seq<Field>)
    requires Fits(fields)
    ensures |Encode(order, fields)| == Size(Codes(fields))
    decreases |fields|
  {
    if fields != [] {
      TailFits(fields);
      EncodeSize(order, fields[1..]);
      assert Codes(fields)[1..] == Codes(fields[1..]);
    }
  }

  /** `struct.unpack` undoes `struct.pack`: the bytes carry exactly the packed values, in format
      order, each in its declared width. */
  lemma {:induction false} PackRoundTrip(order: ByteOrder, fields: seq<Field>)
    requires Fits(fields)
    ensures Pack(order, fields).Success?
    ensures |Pack(order, fields).value| == Size(Codes(fields))
    ensures Unpack(order, Codes(fields), Pack(order, fields).value) == Success(Values(fields))
    decreases |fields|
  {
    EncodeSize(order, fields);
    if fields != [] {
      TailFits(fields);
      var bs := Encode(order, fields);
      var c, v := fields[0].code, fields[0].value;
      var w := Width(c);
      var head := EncodeField(order, c, v);
      var tail := Encode(order, fields[1..]);
      assert bs == head + tail;
      assert bs[..w] == head && bs[w..] == tail;
      FieldRoundTrip(order, c, v);
      PackRoundTrip(order, fields[1..]);
      assert Codes(fields)[1..] == Codes(fields[1..]);
      assert Values(fields) == [v] + Values(fields[1..]);
    }
  }

  /** `struct.pack` raises exactly when some value is outside its field's range. */
  lemma PackFails(order: ByteOrder, fields: seq<Field>)
    ensures Pack(order, fields).Failure? <==>
      exists k :: 0 <= k < |fields| && !InRange(fields[k].code, fields[k].value)
  {
  }
}
