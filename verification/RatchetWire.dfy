/** The wire form of a ratchet message: a header the receiver must cut off at exactly the
    byte where the sender ended it, because those bytes are the associated data. */
module RatchetWire {
  import opened Common
  import opened ByteCodec

  datatype Header = Header(dhPub: Word, pn: u32, n: u32, pqEk: Option<Bytes>, pqCt: Option<Bytes>)

  function FlagBits(h: Header): byte {
    (if h.pqEk.Some? then 1 else 0) + if h.pqCt.Some? then 2 else 0
  }

  function Prefixed(b: Option<Bytes>): Bytes {
    if b.Some? then Le(|b.value|, 2) + b.value else []
  }

  /** Two-byte length prefixes: a longer field keeps only the low bits of its length. */
  function ToBytes(h: Header): Bytes {
    Join([h.dhPub, Le(h.pn, 4), Le(h.n, 4), [FlagBits(h)]]) + (Prefixed(h.pqEk) + Prefixed(h.pqCt))
  }

  method WriteHeader(h: Header) returns (out: Bytes)
    ensures out == ToBytes(h)
  {
    var fixed := WriteFields([h.dhPub, Le(h.pn, 4), Le(h.n, 4), [FlagBits(h)]]);
    var optional: Bytes := [];
    if h.pqEk.Some? { optional := optional + (Le(|h.pqEk.value|, 2) + h.pqEk.value); }
    if h.pqCt.Some? { optional := optional + (Le(|h.pqCt.value|, 2) + h.pqCt.value); }
    assert optional == Prefixed(h.pqEk) + Prefixed(h.pqCt);
    out := fixed + optional;
  }

  /** A length-prefixed field, if its flag is set, and what follows it. */
  function Cut(present: bool, b: Bytes): Result<(Option<Bytes>, Bytes), Truncated> {
    if !present then Ok((None, b)) else
    var (len, rest) :- Split(b, [2]);
    var (field, after) :- Split(rest, [FromLe(len[0])]);
    Ok((Some(field[0]), after))
  }

  const FIXED: seq<nat> := [32, 4, 4, 1]

  function HeaderOf(fixed: seq<Bytes>, ek: Option<Bytes>, ct: Option<Bytes>): Header
    requires |fixed| == 4 && |fixed[0]| == 32 && |fixed[1]| == 4 && |fixed[2]| == 4
  {
    FromLeBound(fixed[1]);
    FromLeBound(fixed[2]);
    Widths();
    Header(fixed[0], FromLe(fixed[1]), FromLe(fixed[2]), ek, ct)
  }

  /** The two optional fields, each behind its flag. */
  function ParseOptional(flags: byte, b: Bytes): (r: Result<(Option<Bytes>, Option<Bytes>, Bytes), Truncated>)
    ensures r.Ok? ==> |r.value.2| <= |b|
  {
    var (ek, b1) :- Cut(flags % 2 == 1, b);
    var (ct, b2) :- Cut(flags / 2 % 2 == 1, b1);
    CutShorter(flags % 2 == 1, b);
    CutShorter(flags / 2 % 2 == 1, b1);
    Ok((ek, ct, b2))
  }

  /** The header, its own bytes, and the ciphertext after them. */
  function ParseWire(wire: Bytes): Result<(Header, Bytes, Bytes), Truncated> {
    var (fixed, b0) :- Split(wire, FIXED);
    assert |fixed[0]| == FIXED[0] && |fixed[1]| == FIXED[1] && |fixed[2]| == FIXED[2] && |fixed[3]| == FIXED[3];
    var (ek, ct, rest) :- ParseOptional(fixed[3][0], b0);
    JoinSplit(wire, FIXED);
    Ok((HeaderOf(fixed, ek, ct), wire[..|wire| - |rest|], rest))
  }

  lemma CutShorter(present: bool, b: Bytes)
    ensures Cut(present, b).Ok? ==> |Cut(present, b).value.1| <= |b|
  {
    if present && Cut(present, b).Ok? {
      JoinSplit(b, [2]);
      var (len, rest) := Split(b, [2]).value;
      JoinSplit(rest, [FromLe(len[0])]);
    }
  }

  method ReadOptional(wire: Bytes, present: bool, start: nat) returns (r: Result<Option<Bytes>, Truncated>, offset: nat)
    requires start <= |wire|
    ensures match Cut(present, wire[start..])
            case Err(e) => r == Err(e)
            case Ok((field, rest)) => r == Ok(field) && offset <= |wire| && wire[offset..] == rest
  {
    offset := start;
    if !present { return Ok(None), offset; }
    var len, field;
    len, offset := ReadFields(wire, offset, [2]);
    if len.Err? { return Err(len.error), offset; }
    field, offset := ReadFields(wire, offset, [FromLe(len.value[0])]);
    if field.Err? { return Err(field.error), offset; }
    return Ok(Some(field.value[0])), offset;
  }

  method ReadWire(wire: Bytes) returns (r: Result<(Header, Bytes, Bytes), Truncated>)
    ensures r == ParseWire(wire)
  {
    var fixed, offset := ReadFields(wire, 0, FIXED);
    assert wire[0..] == wire;
    if fixed.Err? { return Err(fixed.error); }
    var f := fixed.value;
    assert |f[0]| == FIXED[0] && |f[1]| == FIXED[1] && |f[2]| == FIXED[2] && |f[3]| == FIXED[3];
    var flags := f[3][0];
    var ek, ct;
    ek, offset := ReadOptional(wire, flags % 2 == 1, offset);
    if ek.Err? { return Err(ek.error); }
    ct, offset := ReadOptional(wire, flags / 2 % 2 == 1, offset);
    if ct.Err? { return Err(ct.error); }
    assert offset == |wire| - |wire[offset..]|;
    return Ok((HeaderOf(f, ek.value, ct.value), wire[..offset], wire[offset..]));
  }

  // ---- There and back -------------------------------------------------------------

  function Size(b: Option<Bytes>): nat {
    if b.Some? then |b.value| else 0
  }

  lemma CutBack(field: Option<Bytes>, rest: Bytes)
    requires Size(field) < 0x1_0000
    ensures Cut(field.Some?, Prefixed(field) + rest) == Ok((field, rest))
  {
    match field
    case None => assert [] + rest == rest;
    case Some(b) =>
      var len := Le(|b|, 2);
      LeRoundTrip(|b|, 2);
      Widths();
      JoinOne(len);
      JoinOne(b);
      SplitJoin([len], [2], b + rest);
      SplitJoin([b], [|b|], rest);
      assert Prefixed(field) + rest == len + (b + rest);
  }

  lemma CutBound(present: bool, b: Bytes)
    ensures Cut(present, b).Ok? ==> Size(Cut(present, b).value.0) < 0x1_0000
  {
    if present && Cut(present, b).Ok? {
      var (len, rest) := Split(b, [2]).value;
      assert |len[0]| == [2 as nat][0];
      FromLeBound(len[0]);
      Widths();
      assert |Split(rest, [FromLe(len[0])]).value.0[0]| == [FromLe(len[0])][0];
    }
  }

  /** What the sender wrote is what the receiver reads, and the receiver's associated data
      are the sender's header bytes, whatever ciphertext follows, if and only if both
      optional fields fit their two-byte lengths. */
  lemma WireRoundTrip(h: Header, ct: Bytes)
    ensures ParseWire(ToBytes(h) + ct) == Ok((h, ToBytes(h), ct)) <==> Size(h.pqEk) < 0x1_0000 && Size(h.pqCt) < 0x1_0000
  {
    var wire := ToBytes(h) + ct;
    if Size(h.pqEk) < 0x1_0000 && Size(h.pqCt) < 0x1_0000 {
      WireBack(h, ct);
    } else if ParseWire(wire).Ok? {
      var (fixed, b0) := Split(wire, FIXED).value;
      assert |fixed[3]| == FIXED[3];
      var flags := fixed[3][0];
      CutBound(flags % 2 == 1, b0);
      CutBound(flags / 2 % 2 == 1, Cut(flags % 2 == 1, b0).value.1);
    }
  }

  lemma OptionalBack(h: Header, rest: Bytes)
    requires Size(h.pqEk) < 0x1_0000 && Size(h.pqCt) < 0x1_0000
    ensures ParseOptional(FlagBits(h), Prefixed(h.pqEk) + (Prefixed(h.pqCt) + rest)) == Ok((h.pqEk, h.pqCt, rest))
  {
    CutBack(h.pqEk, Prefixed(h.pqCt) + rest);
    CutBack(h.pqCt, rest);
  }

  function FixedFields(h: Header): (r: seq<Bytes>)
    ensures |r| == 4 && |r[0]| == 32 && |r[1]| == 4 && |r[2]| == 4 && |r[3]| == 1
  {
    [h.dhPub, Le(h.pn, 4), Le(h.n, 4), [FlagBits(h)]]
  }

  lemma FixedBack(h: Header)
    ensures HeaderOf(FixedFields(h), h.pqEk, h.pqCt) == h
  {
    LeRoundTrip(h.pn, 4);
    LeRoundTrip(h.n, 4);
    Widths();
  }

  lemma WireBack(h: Header, ct: Bytes)
    requires Size(h.pqEk) < 0x1_0000 && Size(h.pqCt) < 0x1_0000
    ensures ParseWire(ToBytes(h) + ct) == Ok((h, ToBytes(h), ct))
  {
    var optional := Prefixed(h.pqEk) + (Prefixed(h.pqCt) + ct);
    SplitJoin(FixedFields(h), FIXED, optional);
    OptionalBack(h, ct);
    FixedBack(h);
    SameBytes(Join(FixedFields(h)), Prefixed(h.pqEk), Prefixed(h.pqCt), ct);
    assert (ToBytes(h) + ct)[..|ToBytes(h) + ct| - |ct|] == ToBytes(h);
  }

  lemma SameBytes(a: Bytes, b: Bytes, c: Bytes, d: Bytes)
    ensures a + (b + c) + d == a + (b + (c + d))
  {
  }

  /** Reading is not undone by writing: a header is rewritten to its own bytes exactly when
      none of the six spare flag bits is set. */
  lemma RewriteIsExact(wire: Bytes)
    requires ParseWire(wire).Ok?
    ensures var (h, own, ct) := ParseWire(wire).value;
            own + ct == wire && |own| >= 41 && (ToBytes(h) == own <==> own[40] < 4)
  {
    var (fixed, b0) := Split(wire, FIXED).value;
    assert |fixed[0]| == FIXED[0] && |fixed[1]| == FIXED[1] && |fixed[2]| == FIXED[2] && |fixed[3]| == FIXED[3];
    var (ek, c, rest) := ParseOptional(fixed[3][0], b0).value;
    JoinSplit(wire, FIXED);
    OptionalJoins(fixed[3][0], b0);
    var optional := Prefixed(ek) + Prefixed(c);
    Cutoff(wire, Join(fixed), b0, optional, rest);
    FixedBytes(fixed);
    Rewritten(fixed, ek, c, optional);
  }

  lemma OptionalJoins(flags: byte, b: Bytes)
    requires ParseOptional(flags, b).Ok?
    ensures var (ek, ct, rest) := ParseOptional(flags, b).value;
            b == Prefixed(ek) + Prefixed(ct) + rest && (ek.Some? <==> flags % 2 == 1) && (ct.Some? <==> flags / 2 % 2 == 1)
  {
    CutJoins(flags % 2 == 1, b);
    var (ek, b1) := Cut(flags % 2 == 1, b).value;
    CutJoins(flags / 2 % 2 == 1, b1);
    var (ct, rest) := Cut(flags / 2 % 2 == 1, b1).value;
    Cutoff(b, Prefixed(ek), b1, Prefixed(ct), rest);
  }

  lemma Cutoff(whole: Bytes, a: Bytes, afterA: Bytes, b: Bytes, rest: Bytes)
    requires whole == a + afterA && afterA == b + rest
    ensures whole == a + b + rest && whole[..|whole| - |rest|] == a + b
  {
  }

  lemma Rewritten(fixed: seq<Bytes>, ek: Option<Bytes>, ct: Option<Bytes>, optional: Bytes)
    requires |fixed| == 4 && |fixed[0]| == 32 && |fixed[1]| == 4 && |fixed[2]| == 4 && |fixed[3]| == 1
    requires (ek.Some? <==> fixed[3][0] % 2 == 1) && (ct.Some? <==> fixed[3][0] / 2 % 2 == 1)
    requires optional == Prefixed(ek) + Prefixed(ct)
    ensures ToBytes(HeaderOf(fixed, ek, ct)) == Join(fixed) + optional <==> fixed[3][0] < 4
  {
    var h := HeaderOf(fixed, ek, ct);
    LeFromLe(fixed[1]);
    LeFromLe(fixed[2]);
    FixedBytes(fixed);
    FixedBytes(FixedFields(h));
    assert ToBytes(h) == Join(FixedFields(h)) + optional;
    if fixed[3][0] < 4 {
      assert FixedFields(h)[3] == fixed[3];
      assert FixedFields(h) == fixed;
    } else {
      assert ToBytes(h)[40] == FlagBits(h) && (Join(fixed) + optional)[40] == fixed[3][0];
    }
  }

  lemma FixedBytes(fixed: seq<Bytes>)
    requires |fixed| == 4 && |fixed[0]| == 32 && |fixed[1]| == 4 && |fixed[2]| == 4 && |fixed[3]| == 1
    ensures Join(fixed) == fixed[0] + fixed[1] + fixed[2] + fixed[3] && |Join(fixed)| == 41 && Join(fixed)[40] == fixed[3][0]
  {
    assert Join(fixed[3..]) == fixed[3] by { assert fixed[3..][1..] == []; }
    assert fixed[2..][1..] == fixed[3..] && fixed[1..][1..] == fixed[2..];
    assert Join(fixed[2..]) == fixed[2] + fixed[3];
    assert Join(fixed[1..]) == fixed[1] + fixed[2] + fixed[3];
  }

  lemma CutJoins(present: bool, b: Bytes)
    requires Cut(present, b).Ok?
    ensures var (field, rest) := Cut(present, b).value;
            b == Prefixed(field) + rest && (field.Some? <==> present)
  {
    if present {
      var (len, rest) := Split(b, [2]).value;
      JoinSplit(b, [2]);
      JoinSplit(rest, [FromLe(len[0])]);
      var (field, after) := Split(rest, [FromLe(len[0])]).value;
      assert |len[0]| == [2 as nat][0] && |field[0]| == [FromLe(len[0])][0];
      LeFromLe(len[0]);
      JoinOne(len[0]);
      JoinOne(field[0]);
      assert len == [len[0]] && field == [field[0]];
    }
  }

  // ---- Exactly the well-formed messages -------------------------------------------

  /** A field behind its two-byte length, or nothing. */
  function Field(b: Option<Bytes>): Bytes {
    if b.None? then [] else [|b.value| % 256, |b.value| / 256 % 256] + b.value
  }

  /** The header spelled with a flag byte whose two low bits say which fields follow; the
      others are free. */
  predicate Spells(own: Bytes, h: Header, flags: byte) {
    && (flags % 2 == 1 <==> h.pqEk.Some?) && (flags / 2 % 2 == 1 <==> h.pqCt.Some?)
    && Size(h.pqEk) < 0x1_0000 && Size(h.pqCt) < 0x1_0000
    && own == h.dhPub + Le(h.pn, 4) + Le(h.n, 4) + [flags] + Field(h.pqEk) + Field(h.pqCt)
  }

  lemma FieldIsPrefixed(b: Option<Bytes>)
    ensures Field(b) == Prefixed(b)
  {
    if b.Some? {
      var n := |b.value|;
      assert Le(n, 2) == [n % 256] + Le(n / 256, 1) && Le(n / 256, 1) == [n / 256 % 256] + Le(n / 256 / 256, 0);
    }
  }

  lemma SpelledIsRead(wire: Bytes, h: Header, own: Bytes, rest: Bytes, flags: byte)
    requires wire == own + rest && Spells(own, h, flags)
    ensures ParseWire(wire) == Ok((h, own, rest))
  {
    FieldIsPrefixed(h.pqEk);
    FieldIsPrefixed(h.pqCt);
    var fixed: seq<Bytes> := [h.dhPub, Le(h.pn, 4), Le(h.n, 4), [flags]];
    var optional := Prefixed(h.pqEk) + (Prefixed(h.pqCt) + rest);
    FixedBytes(fixed);
    SameBytes(Join(fixed), Prefixed(h.pqEk), Prefixed(h.pqCt), rest);
    Assoc3(Join(fixed), Prefixed(h.pqEk), Prefixed(h.pqCt));
    SplitJoin(fixed, FIXED, optional);
    CutBack(h.pqEk, Prefixed(h.pqCt) + rest);
    CutBack(h.pqCt, rest);
    FixedBack(h);
    hide Split, Join, Cut, Prefixed, Field;
    assert (own + rest)[..|own + rest| - |rest|] == own;
  }

  lemma Assoc3(a: Bytes, b: Bytes, c: Bytes)
    ensures a + b + c == a + (b + c)
  {
  }

  lemma ReadIsSpelled(wire: Bytes)
    requires ParseWire(wire).Ok?
    ensures var (h, own, rest) := ParseWire(wire).value;
            wire == own + rest && |own| >= 41 && Spells(own, h, own[40])
  {
    var (h, own, rest) := ParseWire(wire).value;
    var (fixed, b0) := Split(wire, FIXED).value;
    assert |fixed[0]| == FIXED[0] && |fixed[1]| == FIXED[1] && |fixed[2]| == FIXED[2] && |fixed[3]| == FIXED[3];
    JoinSplit(wire, FIXED);
    OptionalJoins(fixed[3][0], b0);
    OptionalFits(fixed[3][0], b0);
    Cutoff(wire, Join(fixed), b0, Prefixed(h.pqEk) + Prefixed(h.pqCt), rest);
    FixedBytes(fixed);
    LeFromLe(fixed[1]);
    LeFromLe(fixed[2]);
    FieldIsPrefixed(h.pqEk);
    FieldIsPrefixed(h.pqCt);
    Assoc3(Join(fixed), Prefixed(h.pqEk), Prefixed(h.pqCt));
    assert fixed[3] == [fixed[3][0]];
  }

  lemma OptionalFits(flags: byte, b: Bytes)
    requires ParseOptional(flags, b).Ok?
    ensures var (ek, ct, _) := ParseOptional(flags, b).value; Size(ek) < 0x1_0000 && Size(ct) < 0x1_0000
  {
    CutBound(flags % 2 == 1, b);
    CutBound(flags / 2 % 2 == 1, Cut(flags % 2 == 1, b).value.1);
  }

  /** The reader accepts exactly the strings that start with a spelled header, and tells
      apart the header, the bytes it was spelled with, and the rest. */
  lemma ReadExactly(wire: Bytes, h: Header, own: Bytes, rest: Bytes)
    ensures ParseWire(wire) == Ok((h, own, rest)) <==> wire == own + rest && exists flags :: Spells(own, h, flags)
  {
    hide ParseWire, Spells;
    if ParseWire(wire) == Ok((h, own, rest)) {
      ReadIsSpelled(wire);
    } else if wire == own + rest && exists flags :: Spells(own, h, flags) {
      var flags :| Spells(own, h, flags);
      SpelledIsRead(wire, h, own, rest, flags);
    }
  }
}
