/** Failure-carrying results and bytes, shared by every module. */
module Common {

  datatype Option<+T> = None | Some(value: T)

  /** A computed value or an error; usable with `:-`. */
  datatype Result<+T, +E> = Ok(value: T) | Err(error: E) {
    predicate IsFailure() {
      Err?
    }

    function PropagateFailure<U>(): (r: Result<U, E>)
      requires Err?
    {
      Err(error)
    }

    function Extract(): T
      requires Ok?
    {
      value
    }
  }

  type byte = x: int | 0 <= x < 256

  type Bytes = seq<byte>

  /** A 32-byte array and a 32-bit counter. */
  type Word = b: Bytes | |b| == 32 witness seq(32, _ => 0)

  type u32 = x: nat | x < 0x1_0000_0000

  // ---- Arithmetic -----------------------------------------------------------------

  /** 256 to the power of `k`: how many values `k` bytes can take. */
  function Pow256(k: nat): (r: nat)
    ensures r >= 1
  {
    if k == 0 then 1 else 256 * Pow256(k - 1)
  }

  function Pow2(k: nat): (r: nat)
    ensures r >= 1
  {
    if k == 0 then 1 else 2 * Pow2(k - 1)
  }

  lemma ModIs(n: nat, d: nat, q: nat, r: nat)
    requires r < d && n == d * q + r
    ensures n % d == r
  {
    var k := n / d - q;
    assert d * k == r - n % d;
  }

  // ---- Counting -------------------------------------------------------------------

  lemma Joins<T>(s: set<T>, t: set<T>, x: T)
    requires x !in s && t == s + {x}
    ensures |t| == |s| + 1
  {
  }

  lemma Fewer<T>(s: set<T>, t: set<T>)
    requires s <= t
    ensures |s| <= |t|
    decreases t
  {
    if s != t {
      var x :| x in t && x !in s;
      Fewer(s, t - {x});
    }
  }

  function Elements<T(==)>(s: seq<T>): set<T> {
    set x | x in s
  }

  lemma {:induction false} DistinctCount<T>(s: seq<T>)
    requires forall i, j | 0 <= i < j < |s| :: s[i] != s[j]
    ensures |Elements(s)| == |s|
  {
    if s != [] {
      var k := |s| - 1;
      DistinctCount(s[..k]);
      assert s == s[..k] + [s[k]];
      Joins(Elements(s[..k]), Elements(s), s[k]);
    }
  }
}
