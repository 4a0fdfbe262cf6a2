/** Variable-length integers (section 16 of RFC 9000): the format as arithmetic, and the
    encoder and decoder as JavaScript computes them, on 32-bit integers. */
module Varint {
  import opened Common

  const MAX_SAFE: nat := 0x1F_FFFF_FFFF_FFFF

  datatype Error = BadValue | TooLarge | Truncated | Unsafe | WrongFraming | Informational | LengthMismatch

  // ---- Big-endian integers --------------------------------------------------------

  /** The low `width` bytes of `n`, most significant first, as `DataView` stores them. */
  function Be(n: nat, width: nat): (r: Bytes)
    ensures |r| == width
    decreases width
  {
    if width == 0 then [] else Be(n / 256, width - 1) + [n % 256]
  }

  function FromBe(b: Bytes): nat {
    if b == [] then 0 else 256 * FromBe(b[..|b| - 1]) + b[|b| - 1]
  }

  lemma {:induction false} BeBack(n: nat, width: nat)
    requires n < Pow256(width)
    ensures FromBe(Be(n, width)) == n
    decreases width
  {
    if width > 0 {
      BeBack(n / 256, width - 1);
      assert Be(n, width)[..width - 1] == Be(n / 256, width - 1);
    }
  }

  lemma {:induction false} FromBeBound(b: Bytes)
    ensures FromBe(b) < Pow256(|b|)
  {
    if b != [] { FromBeBound(b[..|b| - 1]); }
  }

  lemma {:induction false} FromBeSplit(a: Bytes, b: Bytes)
    ensures FromBe(a + b) == FromBe(a) * Pow256(|b|) + FromBe(b)
    decreases |b|
  {
    if b == [] {
      assert a + b == a;
    } else {
      var k := |b| - 1;
      assert (a + b)[..|a| + k] == a + b[..k];
      FromBeSplit(a, b[..k]);
      Swap256(FromBe(a), Pow256(k));
    }
  }

  lemma Swap256(x: nat, p: nat)
    ensures 256 * (x * p) == x * (256 * p)
  {
  }

  lemma {:induction false} BeSplit(high: nat, low: nat, k: nat, width: nat)
    requires low < Pow256(k)
    ensures Be(high * Pow256(k) + low, width + k) == Be(high, width) + Be(low, k)
    decreases k
  {
    if k == 0 {
      assert Be(high, width) + [] == Be(high, width);
    } else {
      var p := Pow256(k - 1);
      Swap256(high, p);
      Shifted(high * p, low);
      BeSplit(high, low / 256, k - 1, width);
      assert Be(high, width) + (Be(low / 256, k - 1) + [low % 256]) == Be(high, width) + Be(low / 256, k - 1) + [low % 256];
    }
  }

  lemma Shifted(x: nat, low: nat)
    ensures (256 * x + low) / 256 == x + low / 256 && (256 * x + low) % 256 == low % 256
  {
  }

  // ---- The format -----------------------------------------------------------------

  /** One more than the largest value a width can hold: two bits are the tag. */
  function Cap(width: nat): nat {
    match width
    case 1 => 0x40
    case 2 => 0x4000
    case 4 => 0x4000_0000
    case _ => 0x4000_0000_0000_0000
  }

  predicate IsWidth(width: nat) {
    width == 1 || width == 2 || width == 4 || width == 8
  }

  lemma CapIs(width: nat)
    requires IsWidth(width)
    ensures 4 * Cap(width) == Pow256(width) && Cap(width) == 64 * Pow256(width - 1)
  {
    assert Pow256(1) == 256 && Pow256(3) == 0x100_0000 && Pow256(4) == 0x1_0000_0000;
    assert Pow256(7) == 0x100_0000_0000_0000;
  }

  function Width(v: nat): (w: nat)
    ensures IsWidth(w)
  {
    if v < 0x40 then 1 else if v < 0x4000 then 2 else if v < 0x4000_0000 then 4 else 8
  }

  function Tag(width: nat): nat {
    match width
    case 1 => 0
    case 2 => 1
    case 4 => 2
    case _ => 3
  }

  function WidthOf(first: byte): (w: nat)
    ensures IsWidth(w) && Tag(w) == first / 64
  {
    match first / 64
    case 0 => 1
    case 1 => 2
    case 2 => 4
    case _ => 8
  }

  function Encoded(v: int): Result<Bytes, Error> {
    if v < 0 then Err(BadValue) else
    if v > MAX_SAFE then Err(TooLarge) else
    var w := Width(v);
    Ok(Be(v + Tag(w) * Cap(w), w))
  }

  /** The value without its tag. */
  function Untagged(n: nat, width: nat): (v: nat)
    ensures v < Cap(width)
  {
    match width
    case 1 => n % 0x40
    case 2 => n % 0x4000
    case 4 => n % 0x4000_0000
    case _ => n % 0x4000_0000_0000_0000
  }

  /** The integer at the front and what follows it. */
  function Read(b: Bytes): (r: Result<(nat, Bytes), Error>)
    ensures r.Ok? ==> |r.value.1| < |b| && r.value.0 <= MAX_SAFE
  {
    if b == [] then Err(Truncated) else
    var w := WidthOf(b[0]);
    if |b| < w then Err(Truncated) else
    var v := Untagged(FromBe(b[..w]), w);
    if v > MAX_SAFE then Err(Unsafe) else Ok((v, b[w..]))
  }

  /** The tag is the top two bits of the first byte. */
  lemma FirstByte(b: Bytes, v: nat)
    requires IsWidth(|b|) && v < Cap(|b|) && FromBe(b) == v + Tag(|b|) * Cap(|b|)
    ensures WidthOf(b[0]) == |b|
  {
    assert b == [b[0]] + b[1..];
    FromBeSplit([b[0]], b[1..]);
    FromBeBound(b[1..]);
    assert FromBe([b[0]]) == b[0] by { assert [b[0]][..0] == []; }
    CapIs(|b|);
    Scaled(b[0], FromBe(b[1..]), v, Tag(|b|), Pow256(|b| - 1));
  }

  lemma Scaled(first: nat, low: nat, v: nat, tag: nat, p: nat)
    requires p >= 1 && low < p && v < 64 * p && first * p + low == v + tag * (64 * p)
    ensures first / 64 == tag
  {
    var d := first - 64 * tag;
    assert d * p == v - low;
    assert d <= -1 ==> -d * p >= p;
    assert d >= 64 ==> d * p >= 64 * p;
  }

  /** Decoding an encoding, whatever follows it, gives the value and stops at its end. */
  lemma RoundTrip(v: int, suffix: Bytes)
    requires Encoded(v).Ok?
    ensures Read(Encoded(v).value + suffix) == Ok((v, suffix))
  {
    hide Be, FromBe, Pow256;
    var w := Width(v);
    var b := Encoded(v).value;
    CapIs(w);
    BeBack(v + Tag(w) * Cap(w), w);
    FirstByte(b, v);
    assert (b + suffix)[..w] == b && (b + suffix)[w..] == suffix;
    TagGoes(v, w);
  }

  lemma TagGoes(v: nat, w: nat)
    requires v < Cap(w)
    ensures Untagged(v + Tag(w) * Cap(w), w) == v
  {
  }

  /** Encoding picks the shortest of the four widths, and no encoding the decoder accepts is shorter. */
  lemma Shortest(v: nat, b: Bytes)
    requires Read(b).Ok? && Read(b).value.0 == v
    ensures Encoded(v).Ok? && IsWidth(|Encoded(v).value|) && v < Cap(|Encoded(v).value|)
    ensures |b| - |Read(b).value.1| >= |Encoded(v).value|
    ensures forall w: nat | IsWidth(w) && v < Cap(w) :: w >= |Encoded(v).value|
  {
    var w := WidthOf(b[0]);
    assert v < Cap(w);
  }

  /** A read of a prefix is the read of every extension. */
  lemma ReadExtends(b: Bytes, x: Bytes)
    requires Read(b).Ok?
    ensures Read(b + x) == Ok((Read(b).value.0, Read(b).value.1 + x))
  {
    var w := WidthOf(b[0]);
    assert (b + x)[..w] == b[..w] && (b + x)[w..] == b[w..] + x;
  }

  /** Exactly the integers from 0 to 2^53 - 1 are encoded. */
  lemma EncodeOutcome(v: int)
    ensures Encoded(v) == Err(BadValue) <==> v < 0
    ensures Encoded(v) == Err(TooLarge) <==> v > 9_007_199_254_740_991
    ensures Encoded(v).Ok? <==> 0 <= v <= 9_007_199_254_740_991
  {
  }

  /** The bytes an integer takes, by the top two bits of the first. */
  function Need(b: Bytes): (n: nat)
    ensures n >= 1
  {
    if b == [] || b[0] < 0x40 then 1 else if b[0] < 0x80 then 2 else if b[0] < 0xc0 then 4 else 8
  }

  /** How many values that many bytes can take beside the tag. */
  function Range(need: nat): (n: nat)
    ensures n >= 1
  {
    match need case 1 => 0x40 case 2 => 0x4000 case 4 => 0x4000_0000 case _ => 0x4000_0000_0000_0000
  }

  /** What is read is the big-endian number without its top two bits; it is refused exactly
      when bytes are missing or it is 2^53 or more. */
  lemma ReadOutcome(b: Bytes)
    ensures Read(b) == Err(Truncated) <==> |b| < Need(b)
    ensures |b| >= Need(b) ==>
              var low := FromBe(b[..Need(b)]) % Range(Need(b));
              if low > 9_007_199_254_740_991 then Read(b) == Err(Unsafe) else Read(b) == Ok((low, b[Need(b)..]))
  {
    hide FromBe;
  }

  lemma BeSnoc(high: nat, low: byte, width: nat)
    ensures Be(256 * high + low, width + 1) == Be(high, width) + [low]
  {
    Shifted(high, low);
  }

  lemma FromBeNext(b: Bytes, k: nat)
    requires k < |b|
    ensures FromBe(b[..k + 1]) == 256 * FromBe(b[..k]) + b[k]
  {
    assert b[..k + 1][..k] == b[..k];
  }

  /** The examples of section A.1 of RFC 9000, the one above 2^53 refused. */
  lemma Examples()
    ensures Encoded(37) == Ok([0x25]) && Encoded(15_293) == Ok([0x7b, 0xbd])
    ensures Encoded(494_878_333) == Ok([0x9d, 0x7f, 0x3e, 0x7d])
    ensures Read([0x40, 0x25]) == Ok((37, []))
    ensures Read([0xc2, 0x19, 0x7c, 0x5e, 0xff, 0x14, 0xe8, 0x8c]) == Err(Unsafe)
  {
    hide Be, FromBe;
    ExampleBytes();
    ReadOutcome([0x40, 0x25]);
    ReadOutcome([0xc2, 0x19, 0x7c, 0x5e, 0xff, 0x14, 0xe8, 0x8c]);
    assert [0x40, 0x25][..2] == [0x40, 0x25] && [0x40, 0x25][2..] == [];
    var b: Bytes := [0xc2, 0x19, 0x7c, 0x5e, 0xff, 0x14, 0xe8, 0x8c];
    assert b[..8] == b;
  }

  lemma ExampleBytes()
    ensures Be(37, 1) == [0x25] && Be(0x7bbd, 2) == [0x7b, 0xbd] && Be(0x9d7f3e7d, 4) == [0x9d, 0x7f, 0x3e, 0x7d]
    ensures FromBe([0x40, 0x25]) == 0x4025 && FromBe([0xc2, 0x19, 0x7c, 0x5e, 0xff, 0x14, 0xe8, 0x8c]) == 0xc2197c5eff14e88c
  {
    hide Be, FromBe;
    BeByte(0x25);
    BeByte(0x7b);
    BeSnoc(0x7b, 0xbd, 1);
    BeByte(0x9d);
    BeSnoc(0x9d, 0x7f, 1);
    BeSnoc(0x9d7f, 0x3e, 2);
    BeSnoc(0x9d7f3e, 0x7d, 3);
    var two: Bytes, eight: Bytes := [0x40, 0x25], [0xc2, 0x19, 0x7c, 0x5e, 0xff, 0x14, 0xe8, 0x8c];
    FromBeNext(two, 0);
    FromBeNext(two, 1);
    FromBeNext(eight, 0);
    FromBeNext(eight, 1);
    FromBeNext(eight, 2);
    FromBeNext(eight, 3);
    FromBeNext(eight, 4);
    FromBeNext(eight, 5);
    FromBeNext(eight, 6);
    FromBeNext(eight, 7);
    assert two[..0] == [] && two[..2] == two && eight[..0] == [] && eight[..8] == eight;
    FromNothing();
  }

  lemma FromNothing()
    ensures FromBe([]) == 0
  {
  }

  lemma BeByte(v: byte)
    ensures Be(v, 1) == [v]
  {
    assert Be(v, 1) == Be(v / 256, 0) + [v % 256];
  }

  // ---- 32-bit integers ------------------------------------------------------------

  function ToUint32(x: int): (r: nat)
    ensures r < 0x1_0000_0000
  {
    x % 0x1_0000_0000
  }

  function ToInt32(x: int): int {
    var u := ToUint32(x);
    if u >= 0x8000_0000 then u - 0x1_0000_0000 else u
  }

  function AndBits(a: nat, b: nat): nat
    decreases a
  {
    if a == 0 then 0 else (if a % 2 == 1 && b % 2 == 1 then 1 else 0) + 2 * AndBits(a / 2, b / 2)
  }

  function OrBits(a: nat, b: nat): nat
    decreases a + b
  {
    if a == 0 && b == 0 then 0 else (if a % 2 == 1 || b % 2 == 1 then 1 else 0) + 2 * OrBits(a / 2, b / 2)
  }

  /** `a & b` and `a | b`: both operands become 32-bit, the result is signed. */
  function And(a: int, b: int): int {
    ToInt32(AndBits(ToUint32(a), ToUint32(b)))
  }

  function Or(a: int, b: int): int {
    ToInt32(OrBits(ToUint32(a), ToUint32(b)))
  }

  /** Masking with `2^k - 1` is the remainder modulo `2^k`. */
  lemma {:induction false} AndMask(a: nat, k: nat)
    ensures AndBits(a, Pow2(k) - 1) == a % Pow2(k)
    decreases k, a
  {
    if a == 0 {
    } else if k > 0 {
      AndMask(a / 2, k - 1);
      var p := Pow2(k - 1);
      HalfMod(a, p);
      assert (2 * p - 1) / 2 == p - 1 && (2 * p - 1) % 2 == 1;
    } else {
      AndMask(a / 2, 0);
    }
  }

  lemma HalfMod(a: nat, m: nat)
    requires m >= 1
    ensures a % (2 * m) == a % 2 + 2 * ((a / 2) % m)
  {
    var q, r := (a / 2) / m, (a / 2) % m;
    assert a == (2 * m) * q + (2 * r + a % 2) by { assert 2 * (m * q) == (2 * m) * q; }
    ModIs(a, 2 * m, q, 2 * r + a % 2);
  }

  /** Bits above the value are added by `|`. */
  lemma {:induction false} OrAbove(v: nat, k: nat, c: nat)
    requires v < Pow2(k)
    ensures OrBits(v, c * Pow2(k)) == v + c * Pow2(k)
    decreases k
  {
    if k > 0 {
      var p := Pow2(k - 1);
      Doubled(c, p);
      OrAbove(v / 2, k - 1, c);
    } else {
      OrZero(c);
    }
  }

  lemma Doubled(c: nat, p: nat)
    ensures c * (2 * p) == 2 * (c * p) && c * (2 * p) / 2 == c * p && c * (2 * p) % 2 == 0
  {
  }

  lemma {:induction false} OrZero(c: nat)
    ensures OrBits(0, c) == c
  {
    if c > 0 { OrZero(c / 2); }
  }

  lemma Powers()
    ensures Pow2(6) == 0x40 && Pow2(14) == 0x4000 && Pow2(30) == 0x4000_0000
  {
    assert Pow2(10) == 0x400 && Pow2(20) == 0x10_0000;
  }

  lemma MaskIs(a: nat, w: nat)
    requires a < 0x1_0000_0000 && (w == 1 || w == 2 || w == 4)
    ensures And(a, Cap(w) - 1) == a % Cap(w)
  {
    hide AndBits, Pow2;
    Powers();
    AndMask(a, if w == 1 then 6 else if w == 2 then 14 else 30);
    InRange(a, a % Cap(w));
  }

  lemma InRange(a: nat, b: nat)
    requires a < 0x1_0000_0000 && b < 0x8000_0000
    ensures ToUint32(a) == a && ToInt32(b) == b
  {
  }

  lemma TaggedIs(v: nat, w: nat, tag: nat)
    requires (w == 2 || w == 4) && v < Cap(w) && tag < 4
    ensures ToUint32(Or(v, tag * Cap(w))) == v + tag * Cap(w)
  {
    Powers();
    OrAbove(v, 8 * w - 2, tag);
    Unsigned(v, tag * Cap(w), v + tag * Cap(w));
  }

  lemma Unsigned(a: nat, b: nat, c: nat)
    requires a < 0x1_0000_0000 && b < 0x1_0000_0000 && c < 0x1_0000_0000
    ensures ToUint32(a) == a && ToUint32(b) == b && ToUint32(ToInt32(c)) == c
  {
  }

  // ---- The code -------------------------------------------------------------------

  method EncodeVarint(value: int) returns (r: Result<Bytes, Error>)
    ensures r == Encoded(value)
  {
    if value < 0 { return Err(BadValue); }
    if value <= 0x3f {
      OneByte(value);
      return Ok([value]);
    }
    if value <= 0x3fff {
      TaggedIs(value, 2, 1);
      return Ok(Be(ToUint32(Or(value, 0x4000)), 2));
    }
    if value <= 0x3fff_ffff {
      TaggedIs(value, 4, 2);
      return Ok(Be(ToUint32(Or(value, 0x8000_0000)), 4));
    }
    if value <= MAX_SAFE {
      var high, low := value / 0x1_0000_0000, ToUint32(value);
      TaggedIs(high, 4, 3);
      EightBytes(value, high, low);
      return Ok(Be(ToUint32(Or(high, 0xc000_0000)), 4) + Be(low, 4));
    }
    return Err(TooLarge);
  }

  lemma OneByte(v: nat)
    requires v < 0x40
    ensures Be(v, 1) == [v]
  {
    assert Be(v, 1) == Be(v / 256, 0) + [v % 256];
  }

  lemma EightBytes(v: nat, high: nat, low: nat)
    requires v == high * 0x1_0000_0000 + low && low < 0x1_0000_0000
    ensures Be(high + 3 * 0x4000_0000, 4) + Be(low, 4) == Be(v + 3 * 0x4000_0000_0000_0000, 8)
  {
    hide Be, Pow256;
    CapIs(4);
    var top := high + 3 * 0x4000_0000;
    BeSplit(top, low, 4, 4);
    assert top * 0x1_0000_0000 + low == v + 3 * 0x4000_0000_0000_0000;
  }

  /** What there is from `offset` on: past the end, nothing. */
  function From(bytes: Bytes, offset: nat): Bytes {
    if offset <= |bytes| then bytes[offset..] else []
  }

  /** A value at `offset`, with the number of bytes read, against the parse of what is there. */
  ghost predicate ReadsAs<T>(bytes: Bytes, offset: nat, r: Result<(T, nat), Error>, parse: Result<(T, Bytes), Error>) {
    match parse
    case Err(e) => r == Err(e)
    case Ok((v, rest)) => r.Ok? && r.value.0 == v && offset + r.value.1 <= |bytes| && bytes[offset + r.value.1..] == rest
  }

  /** The value at `offset` and the number of bytes it takes. */
  method DecodeVarint(bytes: Bytes, offset: nat) returns (r: Result<(nat, nat), Error>)
    ensures ReadsAs(bytes, offset, r, Read(From(bytes, offset)))
  {
    if offset >= |bytes| { return Err(Truncated); }
    var first := bytes[offset];
    var prefix := first / 64;
    var width := if prefix == 0 then 1 else if prefix == 1 then 2 else if prefix == 2 then 4 else 8;
    if offset + width > |bytes| { return Err(Truncated); }
    var view := bytes[offset..offset + width];
    assert view == bytes[offset..][..width];
    assert bytes[offset..][width..] == bytes[offset + width..];
    if width == 1 {
      MaskIs(first, 1);
      OneRead(view);
      return Ok((And(first, 0x3f), 1));
    }
    FromBeBound(view);
    CapIs(width);
    if width == 2 {
      MaskIs(FromBe(view), 2);
      return Ok((And(FromBe(view), 0x3fff), 2));
    }
    if width == 4 {
      MaskIs(FromBe(view), 4);
      return Ok((And(FromBe(view), 0x3fff_ffff), 4));
    }
    EightRead(view);
    var high, low := And(FromBe(view[..4]), 0x3fff_ffff), FromBe(view[4..]);
    var value := high * 0x1_0000_0000 + low;
    if value > MAX_SAFE { return Err(Unsafe); }
    return Ok((value, 8));
  }

  lemma OneRead(view: Bytes)
    requires |view| == 1
    ensures FromBe(view) == view[0]
  {
    assert view[..0] == [];
  }

  lemma EightRead(view: Bytes)
    requires |view| == 8
    ensures FromBe(view) % Cap(8) == And(FromBe(view[..4]), 0x3fff_ffff) * 0x1_0000_0000 + FromBe(view[4..])
    ensures And(FromBe(view[..4]), 0x3fff_ffff) >= 0
  {
    hide FromBe, Pow256, And;
    var front, back := view[..4], view[4..];
    assert view == front + back;
    FromBeSplit(front, back);
    FromBeBound(front);
    FromBeBound(back);
    CapIs(4);
    MaskIs(FromBe(front), 4);
    EightMod(FromBe(front), FromBe(back));
  }

  lemma EightMod(h: nat, l: nat)
    requires l < 0x1_0000_0000
    ensures (h * 0x1_0000_0000 + l) % Cap(8) == h % 0x4000_0000 * 0x1_0000_0000 + l
  {
    ModIs(h * 0x1_0000_0000 + l, Cap(8), h / 0x4000_0000, h % 0x4000_0000 * 0x1_0000_0000 + l);
  }
}
