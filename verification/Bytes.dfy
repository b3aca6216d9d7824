/** Bytes and little-endian numbers. */
module Bytes {

  type byte = x: int | 0 <= x < 256

  function Zeros(n: nat): (s: seq<byte>)
    ensures |s| == n
  {
    seq(n, _ => 0)
  }

  ghost function Pow256(n: nat): (p: nat)
    ensures p > 0
  {
    if n == 0 then 1 else 256 * Pow256(n - 1)
  }

  /** The low `n` bytes of `v`, least significant first. */
  function PutLE(v: nat, n: nat): (s: seq<byte>)
    ensures |s| == n
  {
    if n == 0 then [] else [v % 256] + PutLE(v / 256, n - 1)
  }

  function GetLE(s: seq<byte>): nat {
    if s == [] then 0 else s[0] + 256 * GetLE(s[1..])
  }

  lemma ModUnique(v: int, q: int, m: int, r: int)
    requires m > 0 && v == q * m + r && 0 <= r < m
    ensures v % m == r
  {
    var d := v / m - q;
    assert v == (v / m) * m + v % m;
    assert (v / m) * m == q * m + d * m;
    assert d >= 1 ==> d * m >= m;
    assert d <= -1 ==> d * m <= -m;
  }

  lemma ModOfProduct(v: nat, m: nat)
    requires m > 0
    ensures v % (256 * m) == v % 256 + 256 * ((v / 256) % m)
  {
    var h := v / 256;
    var q := h / m;
    assert h == q * m + h % m;
    assert v == 256 * h + v % 256;
    assert 256 * (q * m) == q * (256 * m);
    ModUnique(v, q, 256 * m, v % 256 + 256 * (h % m));
  }

  lemma DivTwice(v: nat, m: nat)
    requires m > 0
    ensures v / 256 / m == v / (256 * m)
  {
    var h := v / 256;
    assert h == (h / m) * m + h % m;
    assert v == 256 * h + v % 256;
    assert 256 * ((h / m) * m) == (h / m) * (256 * m);
    QuotientUnique(v, h / m, 256 * m, 256 * (h % m) + v % 256);
  }

  lemma QuotientUnique(v: int, q: int, m: int, r: int)
    requires m > 0 && v == q * m + r && 0 <= r < m
    ensures v / m == q
  {
    ModUnique(v, q, m, r);
    assert v == (v / m) * m + v % m;
    assert (v / m - q) * m == 0;
  }

  /** Byte `k` holds the digit of weight 256 to the `k`. */
  lemma {:induction false} PutAt(v: nat, n: nat, k: nat)
    requires k < n
    ensures PutLE(v, n)[k] == v / Pow256(k) % 256
  {
    if k > 0 {
      PutAt(v / 256, n - 1, k - 1);
      DivTwice(v, Pow256(k - 1));
    }
  }

  /** What is read back is what fits in `n` bytes. */
  lemma {:induction false} GetPut(v: nat, n: nat)
    ensures GetLE(PutLE(v, n)) == v % Pow256(n)
  {
    if n > 0 {
      GetPut(v / 256, n - 1);
      assert PutLE(v, n)[1..] == PutLE(v / 256, n - 1);
      ModOfProduct(v, Pow256(n - 1));
    }
  }

  lemma {:induction false} PutGet(s: seq<byte>)
    ensures PutLE(GetLE(s), |s|) == s
  {
    if s != [] {
      PutGet(s[1..]);
      assert GetLE(s) % 256 == s[0] && GetLE(s) / 256 == GetLE(s[1..]);
    }
  }

  lemma {:induction false} GetBound(s: seq<byte>)
    ensures GetLE(s) < Pow256(|s|)
  {
    if s != [] {
      GetBound(s[1..]);
    }
  }

  lemma Sizes()
    ensures Pow256(1) == 0x100 && Pow256(2) == 0x1_0000 && Pow256(4) == 0x1_0000_0000
    ensures Pow256(8) == 0x1_0000_0000_0000_0000
  {
    assert Pow256(3) == 0x100_0000;
    assert Pow256(4) == 0x1_0000_0000;
    assert Pow256(6) == 0x1_0000_0000_0000;
  }

  /** A field of `n` bytes keeps `v` exactly when `v` fits. */
  lemma FieldKeeps(v: nat, n: nat)
    ensures GetLE(PutLE(v, n)) == v <==> v < Pow256(n)
  {
    GetPut(v, n);
    GetBound(PutLE(v, n));
  }

  function Field(data: seq<byte>, from: nat, n: nat): nat
    requires from + n <= |data|
  {
    GetLE(data[from..from + n])
  }

  /** A stretch of the middle part, seen from the whole. */
  lemma Within(pre: seq<byte>, mid: seq<byte>, post: seq<byte>, from: nat, to: nat)
    requires from <= to <= |mid|
    ensures (pre + mid + post)[|pre| + from..|pre| + to] == mid[from..to]
  {
  }

  /** A number written between two parts is read back modulo its width. */
  lemma FieldBetween(pre: seq<byte>, v: nat, n: nat, post: seq<byte>)
    ensures Field(pre + PutLE(v, n) + post, |pre|, n) == v % Pow256(n)
  {
    Within(pre, PutLE(v, n), post, 0, n);
    GetPut(v, n);
  }
}
