/** Result and option types shared by every model in this project. */
module Wrappers {

  /** The source's `Option`; usable with `:-`, which is Rust's `?`. */
  datatype Option<+T> = None | Some(value: T) {
    predicate IsFailure() {
      None?
    }

    function PropagateFailure<U>(): Option<U>
      requires None?
    {
      None
    }

    function Extract(): T
      requires Some?
    {
      value
    }
  }

  /** The source's `Result`; usable with `:-`, which is Rust's `?`. */
  datatype Result<+T, +E> = Ok(value: T) | Err(error: E) {
    predicate IsFailure() {
      Err?
    }

    function PropagateFailure<U>(): Result<U, E>
      requires Err?
    {
      Err(error)
    }

    function Extract(): T
      requires Ok?
    {
      value
    }

    function GetOr(default: T): T {
      if Ok? then value else default
    }
  }
}

/** Machine integers, and the big-endian byte strings every codec here is built from. */
module Words {

  const U8_MAX: int := 0xff
  const U16_MAX: int := 0xffff
  const U32_MAX: int := 0xffff_ffff
  const U64_MAX: int := 0xffff_ffff_ffff_ffff
  const I64_MAX: int := 0x7fff_ffff_ffff_ffff

  type byte = x: int | 0 <= x <= U8_MAX
  type u16 = x: int | 0 <= x <= U16_MAX
  type u32 = x: int | 0 <= x <= U32_MAX
  type u64 = x: int | 0 <= x <= U64_MAX
  type i64 = x: int | -0x8000_0000_0000_0000 <= x <= I64_MAX

  function Pow256(width: nat): (p: nat)
    ensures p > 0
  {
    if width == 0 then 1 else 256 * Pow256(width - 1)
  }

  lemma {:induction false} Pow256Values()
    ensures Pow256(1) == U8_MAX + 1
    ensures Pow256(2) == U16_MAX + 1
    ensures Pow256(4) == U32_MAX + 1
    ensures Pow256(8) == U64_MAX + 1
  {
    assert Pow256(3) == 0x100_0000;
    assert Pow256(5) == 0x100_0000_0000;
    assert Pow256(6) == 0x1_0000_0000_0000;
    assert Pow256(7) == 0x100_0000_0000_0000;
  }

  /** The big-endian reading of a byte string. */
  function FromBigEndian(s: seq<byte>): (value: nat)
    ensures value < Pow256(|s|)
  {
    if s == [] then 0 else FromBigEndian(s[..|s| - 1]) * 256 + s[|s| - 1]
  }

  /** The `width`-byte big-endian form, which reads back as `value` when it fits. */
  function BigEndian(value: nat, width: nat): (s: seq<byte>)
    ensures |s| == width
    ensures value < Pow256(width) ==> FromBigEndian(s) == value
  {
    if width == 0 then []
    else
      var high := BigEndian(value / 256, width - 1);
      assert (high + [value % 256])[..width - 1] == high;
      high + [value % 256]
  }

  lemma {:induction false} DivideByteOff(high: nat, low: byte)
    ensures (high * 256 + low) / 256 == high && (high * 256 + low) % 256 == low
  {
  }

  /** Reading and rewriting a byte string changes nothing. */
  lemma {:induction false} BigEndianOfReading(s: seq<byte>)
    ensures BigEndian(FromBigEndian(s), |s|) == s
  {
    if s != [] {
      var high, low := FromBigEndian(s[..|s| - 1]), s[|s| - 1];
      BigEndianOfReading(s[..|s| - 1]);
      DivideByteOff(high, low);
      assert s == s[..|s| - 1] + [low];
    }
  }

  /** Bytewise lexicographic order, as section 4.2.1 of RFC 8949 sorts encoded map keys. */
  predicate BytesLess(a: seq<byte>, b: seq<byte>) {
    b != [] && (a == [] || a[0] < b[0] || (a[0] == b[0] && BytesLess(a[1..], b[1..])))
  }

  /** Appending to equally long strings keeps their order; equal strings defer to the suffix. */
  lemma {:induction false} BytesLessAppend(a: seq<byte>, b: seq<byte>, x: seq<byte>, y: seq<byte>)
    requires |a| == |b|
    ensures BytesLess(a + x, b + y) <==> BytesLess(a, b) || (a == b && BytesLess(x, y))
  {
    if a == [] {
      assert a + x == x && b + y == y;
    } else {
      assert (a + x)[1..] == a[1..] + x && (b + y)[1..] == b[1..] + y;
      BytesLessAppend(a[1..], b[1..], x, y);
      assert a == [a[0]] + a[1..] && b == [b[0]] + b[1..];
    }
  }

  /** At one width, numeric order is bytewise order. */
  lemma {:induction false} BigEndianOrder(a: nat, b: nat, width: nat)
    requires a < Pow256(width) && b < Pow256(width)
    ensures BytesLess(BigEndian(a, width), BigEndian(b, width)) <==> a < b
  {
    hide BytesLess;
    if width == 0 {
      NothingLess();
    } else {
      var x: byte, y: byte := a % 256, b % 256;
      var c, d := BigEndian(a / 256, width - 1), BigEndian(b / 256, width - 1);
      BigEndianOrder(a / 256, b / 256, width - 1);
      BytesLessAppend(c, d, [x], [y]);
      OneByteLess(x, y);
      assert BigEndian(a, width) == c + [x] && BigEndian(b, width) == d + [y];
      assert c == d ==> a / 256 == b / 256;
    }
  }

  lemma {:induction false} NothingLess()
    ensures !BytesLess([], [])
  {
  }

  lemma {:induction false} OneByteLess(x: byte, y: byte)
    ensures BytesLess([x], [y]) <==> x < y
  {
    assert [x][1..] == [] && [y][1..] == [];
  }
}

/** UTF-8 well-formedness, which the source gets from its string type. */
module Unicode {
  import opened Words

  /** Length of the UTF-8 scalar at the front of `s`, or 0 when there is none (RFC 3629, section 4). */
  function Utf8Width(s: seq<byte>): (n: nat)
    ensures n <= 4 && n <= |s|
  {
    if s == [] then 0
    else if s[0] <= 0x7f then 1
    else if |s| >= 2 && 0xc2 <= s[0] <= 0xdf && Continues(s[1]) then 2
    else if |s| >= 3 && 0xe0 <= s[0] <= 0xef && Continues(s[1]) && Continues(s[2])
            && (s[0] == 0xe0 ==> s[1] >= 0xa0) && (s[0] == 0xed ==> s[1] <= 0x9f) then 3
    else if |s| >= 4 && 0xf0 <= s[0] <= 0xf4 && Continues(s[1]) && Continues(s[2]) && Continues(s[3])
            && (s[0] == 0xf0 ==> s[1] >= 0x90) && (s[0] == 0xf4 ==> s[1] <= 0x8f) then 4
    else 0
  }

  predicate Continues(b: byte) {
    0x80 <= b <= 0xbf
  }

  predicate IsUtf8(s: seq<byte>) {
    s == [] || (Utf8Width(s) > 0 && IsUtf8(s[Utf8Width(s)..]))
  }

  /** The source's `String`, kept as its UTF-8 bytes. */
  type Utf8 = s: seq<byte> | IsUtf8(s) witness []
}
