/** Little-endian integers and runs of fixed-width fields, as the byte formats use them. */
module ByteCodec {
  import opened Common

  datatype Truncated = Truncated

  /** The low `width` bytes of `n`, least significant first: an `as` cast and `to_le_bytes`. */
  function Le(n: nat, width: nat): (r: Bytes)
    ensures |r| == width
  {
    if width == 0 then [] else [n % 256] + Le(n / 256, width - 1)
  }

  function FromLe(b: Bytes): nat {
    if b == [] then 0 else b[0] + 256 * FromLe(b[1..])
  }

  lemma {:induction false} FromLeBound(b: Bytes)
    ensures FromLe(b) < Pow256(|b|)
  {
    if b != [] { FromLeBound(b[1..]); }
  }

  lemma ModSplit(n: nat, m: nat)
    requires m >= 1
    ensures n % (256 * m) == n % 256 + 256 * ((n / 256) % m)
  {
    var q, r := n / 256, n % 256;
    var s, t := q / m, q % m;
    assert q == m * s + t;
    assert n == (256 * m) * s + (256 * t + r) by {
      assert 256 * (m * s) == (256 * m) * s;
    }
    assert 256 * t + r < 256 * m;
    ModIs(n, 256 * m, s, 256 * t + r);
  }

  /** Writing keeps the value up to the width: what does not fit is cut off. */
  lemma {:induction false} LeRoundTrip(n: nat, width: nat)
    ensures FromLe(Le(n, width)) == n % Pow256(width)
    decreases width
  {
    if width > 0 {
      LeRoundTrip(n / 256, width - 1);
      assert Le(n, width)[1..] == Le(n / 256, width - 1);
      ModSplit(n, Pow256(width - 1));
    }
  }

  lemma {:induction false} LeFromLe(b: Bytes)
    ensures Le(FromLe(b), |b|) == b
  {
    if b != [] {
      LeFromLe(b[1..]);
      assert FromLe(b) % 256 == b[0] && FromLe(b) / 256 == FromLe(b[1..]);
    }
  }

  /** The byte order, on one number. */
  lemma LeastFirst()
    ensures Le(0x0403_0201, 4) == [1, 2, 3, 4]
  {
    assert Le(0x04, 1) == [4] + Le(0, 0) && Le(0x0403, 2) == [3] + Le(0x04, 1);
    assert Le(0x0403_02, 3) == [2] + Le(0x0403, 2);
  }

  lemma Widths()
    ensures Pow256(2) == 0x1_0000 && Pow256(4) == 0x1_0000_0000
  {
    assert Pow256(1) == 256 && Pow256(2) == 256 * 256 && Pow256(3) == 256 * 256 * 256;
  }

  // ---- Runs of fields -------------------------------------------------------------

  function Join(chunks: seq<Bytes>): Bytes {
    if chunks == [] then [] else chunks[0] + Join(chunks[1..])
  }

  lemma JoinOne(c: Bytes)
    ensures Join([c]) == c
  {
    assert [c][1..] == [];
  }

  lemma {:induction false} JoinSnoc(chunks: seq<Bytes>, c: Bytes)
    ensures Join(chunks + [c]) == Join(chunks) + c
  {
    if chunks == [] {
      assert [c][1..] == [];
    } else {
      assert (chunks + [c])[1..] == chunks[1..] + [c];
      JoinSnoc(chunks[1..], c);
      assert chunks[0] + (Join(chunks[1..]) + c) == chunks[0] + Join(chunks[1..]) + c;
    }
  }

  /** Cuts fields of the given widths off the front; the rest is left over. */
  function Split(b: Bytes, sizes: seq<nat>): (r: Result<(seq<Bytes>, Bytes), Truncated>)
    ensures r.Ok? ==> |r.value.0| == |sizes| && forall i | 0 <= i < |sizes| :: |r.value.0[i]| == sizes[i]
    decreases |sizes|
  {
    if sizes == [] then Ok(([], b)) else
    if |b| < sizes[0] then Err(Truncated) else
    var (chunks, rest) :- Split(b[sizes[0]..], sizes[1..]);
    Ok(([b[..sizes[0]]] + chunks, rest))
  }

  lemma {:induction false} SplitJoin(chunks: seq<Bytes>, sizes: seq<nat>, rest: Bytes)
    requires |sizes| == |chunks| && forall i | 0 <= i < |sizes| :: |chunks[i]| == sizes[i]
    ensures Split(Join(chunks) + rest, sizes) == Ok((chunks, rest))
  {
    if chunks == [] {
      assert Join(chunks) + rest == rest;
    } else {
      var tail := Join(chunks[1..]) + rest;
      assert Join(chunks) + rest == chunks[0] + tail;
      assert (chunks[0] + tail)[sizes[0]..] == tail;
      SplitJoin(chunks[1..], sizes[1..], rest);
      assert (chunks[0] + tail)[..sizes[0]] == chunks[0] && chunks == [chunks[0]] + chunks[1..];
    }
  }

  lemma {:induction false} JoinSplit(b: Bytes, sizes: seq<nat>)
    requires Split(b, sizes).Ok?
    ensures var (chunks, rest) := Split(b, sizes).value; b == Join(chunks) + rest
    decreases |sizes|
  {
    if sizes != [] {
      JoinSplit(b[sizes[0]..], sizes[1..]);
      var (chunks, rest) := Split(b, sizes).value;
      assert chunks[1..] == Split(b[sizes[0]..], sizes[1..]).value.0;
      assert b == b[..sizes[0]] + b[sizes[0]..];
    }
  }

  /** What a prefix parses to, every extension parses to: the extra bytes are left over. */
  lemma {:induction false} SplitExtends(b: Bytes, sizes: seq<nat>, x: Bytes)
    requires Split(b, sizes).Ok?
    ensures Split(b + x, sizes) == Ok((Split(b, sizes).value.0, Split(b, sizes).value.1 + x))
    decreases |sizes|
  {
    if sizes != [] {
      assert (b + x)[sizes[0]..] == b[sizes[0]..] + x;
      assert (b + x)[..sizes[0]] == b[..sizes[0]];
      SplitExtends(b[sizes[0]..], sizes[1..], x);
    }
  }

  /** Appends one field after the other. */
  method WriteFields(chunks: seq<Bytes>) returns (out: Bytes)
    ensures out == Join(chunks)
  {
    out := [];
    for i := 0 to |chunks|
      invariant out == Join(chunks[..i])
    {
      JoinSnoc(chunks[..i], chunks[i]);
      assert chunks[..i + 1] == chunks[..i] + [chunks[i]];
      out := out + chunks[i];
    }
    assert chunks[..|chunks|] == chunks;
  }

  lemma {:induction false} SplitSnoc(b: Bytes, sizes: seq<nat>, n: nat)
    ensures Split(b, sizes + [n]) ==
            match Split(b, sizes)
            case Err(e) => Err(e)
            case Ok((chunks, rest)) => if |rest| < n then Err(Truncated) else Ok((chunks + [rest[..n]], rest[n..]))
    decreases |sizes|
  {
    if sizes == [] {
      assert sizes + [n] == [n] && [n][1..] == [];
      assert |b| >= n ==> [b[..n]] + [] == [] + [b[..n]];
    } else {
      assert (sizes + [n])[1..] == sizes[1..] + [n];
      if |b| >= sizes[0] {
        SplitSnoc(b[sizes[0]..], sizes[1..], n);
        match Split(b[sizes[0]..], sizes[1..])
        case Err(_) =>
        case Ok((chunks, rest)) =>
          assert |rest| >= n ==> [b[..sizes[0]]] + (chunks + [rest[..n]]) == [b[..sizes[0]]] + chunks + [rest[..n]];
      }
    }
  }

  lemma {:induction false} SplitStops(b: Bytes, sizes: seq<nat>, i: nat)
    requires i <= |sizes| && Split(b, sizes[..i]).Err?
    ensures Split(b, sizes) == Err(Truncated)
    decreases |sizes|
  {
    assert Split(b, sizes[..i]).error == Truncated;
    if i > 0 && |b| >= sizes[0] {
      assert sizes[..i][1..] == sizes[1..][..i - 1];
      SplitStops(b[sizes[0]..], sizes[1..], i - 1);
    }
  }

  /** Reads field after field from `pos`: check the length, slice, advance. */
  method ReadFields(bytes: Bytes, start: nat, sizes: seq<nat>) returns (r: Result<seq<Bytes>, Truncated>, pos: nat)
    requires start <= |bytes|
    ensures match Split(bytes[start..], sizes)
            case Err(e) => r == Err(e)
            case Ok((chunks, rest)) => r == Ok(chunks) && pos <= |bytes| && bytes[pos..] == rest
  {
    pos := start;
    var chunks: seq<Bytes> := [];
    for i := 0 to |sizes|
      invariant pos <= |bytes|
      invariant Split(bytes[start..], sizes[..i]) == Ok((chunks, bytes[pos..]))
    {
      SplitSnoc(bytes[start..], sizes[..i], sizes[i]);
      assert sizes[..i + 1] == sizes[..i] + [sizes[i]];
      if |bytes| < pos + sizes[i] {
        SplitStops(bytes[start..], sizes, i + 1);
        return Err(Truncated), pos;
      }
      chunks := chunks + [bytes[pos..pos + sizes[i]]];
      assert bytes[pos..][..sizes[i]] == bytes[pos..pos + sizes[i]];
      assert bytes[pos..][sizes[i]..] == bytes[pos + sizes[i]..];
      pos := pos + sizes[i];
    }
    assert sizes[..|sizes|] == sizes;
    return Ok(chunks), pos;
  }
}
