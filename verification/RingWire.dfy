/** A ring signature as bytes: key image, first challenge, one response a member. */
module RingWire {
  import opened Common
  import opened ByteCodec
  import opened Ring

  /** Every field of a signature is 32 bytes. */
  predicate Fixed(sig: Signature) {
    |sig.keyImage| == 32 && |sig.c0| == 32 && forall i | 0 <= i < |sig.s| :: |sig.s[i]| == 32
  }

  function ToBytes(sig: Signature): Bytes {
    Join([sig.keyImage, sig.c0] + sig.s)
  }

  function Widths32(n: nat): (r: seq<nat>)
    ensures |r| == n && forall i | 0 <= i < n :: r[i] == 32
  {
    seq(n, i => 32)
  }

  /** The length must be exactly that of a ring of `n`. */
  function FromBytes(bytes: Bytes, n: nat): Option<Signature> {
    if |bytes| != 64 + 32 * n then None else
    match Split(bytes, Widths32(n + 2))
    case Err(_) => None
    case Ok((fields, _)) => Some(Signature(fields[0], fields[1], fields[2..]))
  }

  method WriteSignature(sig: Signature) returns (out: Bytes)
    ensures out == ToBytes(sig)
  {
    out := WriteFields([sig.keyImage, sig.c0] + sig.s);
  }

  method ReadSignature(bytes: Bytes, n: nat) returns (r: Option<Signature>)
    ensures r == FromBytes(bytes, n)
  {
    if |bytes| != 64 + 32 * n { return None; }
    assert bytes[0..] == bytes;
    var fields, _ := ReadFields(bytes, 0, Widths32(n + 2));
    if fields.Err? { return None; }
    return Some(Signature(fields.value[0], fields.value[1], fields.value[2..]));
  }

  lemma {:induction false} SplitsExactly(bytes: Bytes, n: nat)
    requires |bytes| == 32 * n
    ensures Split(bytes, Widths32(n)).Ok? && Split(bytes, Widths32(n)).value.1 == []
    decreases n
  {
    if n > 0 {
      assert Widths32(n)[1..] == Widths32(n - 1);
      SplitsExactly(bytes[32..], n - 1);
    }
  }

  /** Reading and writing are inverse to each other: for a ring of `n`, the bytes accepted
      are those of length 64 + 32 n, and they are the bytes of exactly one signature. */
  lemma ReadWrite(bytes: Bytes, n: nat, sig: Signature)
    ensures FromBytes(bytes, n).Some? <==> |bytes| == 64 + 32 * n
    ensures FromBytes(bytes, n) == Some(sig) <==> Fixed(sig) && |sig.s| == n && bytes == ToBytes(sig)
  {
    var sizes := Widths32(n + 2);
    if |bytes| == 64 + 32 * n {
      SplitsExactly(bytes, n + 2);
      var (fields, rest) := Split(bytes, sizes).value;
      JoinSplit(bytes, sizes);
      assert [fields[0], fields[1]] + fields[2..] == fields;
    }
    if Fixed(sig) && |sig.s| == n {
      var fields := [sig.keyImage, sig.c0] + sig.s;
      SplitJoin(fields, sizes, []);
      assert ToBytes(sig) + [] == ToBytes(sig) && fields[2..] == sig.s;
      JoinLength(fields);
    }
  }

  lemma {:induction false} JoinLength(fields: seq<Bytes>)
    requires forall i | 0 <= i < |fields| :: |fields[i]| == 32
    ensures |Join(fields)| == 32 * |fields|
  {
    if fields != [] { JoinLength(fields[1..]); }
  }
}
