/** Big-endian encodings of fixed-width unsigned integers, as encoding/binary writes them. */
module BigEndian {
  newtype Byte = x: int | 0 <= x < 256

  type Bytes = seq<Byte>

  function Pow256(w: nat): (p: nat)
    ensures p > 0
  {
    if w == 0 then 1 else 256 * Pow256(w - 1)
  }

  /** The low `w` bytes of n, most significant first; higher bytes are cut off as a Go conversion does. */
  function Encode(n: nat, w: nat): (s: Bytes)
    ensures |s| == w
  {
    if w == 0 then [] else Encode(n / 256, w - 1) + [(n % 256) as Byte]
  }

  function Decode(s: Bytes): nat {
    if s == [] then 0 else 256 * Decode(s[..|s| - 1]) + s[|s| - 1] as nat
  }

  lemma ModUnique(n: nat, m: nat, q: nat, r: nat)
    requires r < m && n == q * m + r
    ensures n % m == r
  {
    var k := n / m - q;
    assert k * m == (n / m) * m - q * m;
    assert k * m == r - n % m;
    Multiple(k, m);
  }

  lemma Multiple(k: int, m: nat)
    ensures k >= 1 ==> k * m >= m
    ensures k <= -1 ==> k * m + m <= 0
  {
    if k >= 1 {
      assert k * m == (k - 1) * m + m;
    } else if k <= -1 {
      assert k * m == (k + 1) * m - m;
    }
  }

  /** Splitting off the low byte commutes with cutting to the low bytes. */
  lemma SplitMod(a: nat, m: nat)
    requires m > 0
    ensures a % (256 * m) == 256 * ((a / 256) % m) + a % 256
  {
    var high, low := a / 256, a % 256;
    var q, b := high / m, high % m;
    assert high == q * m + b && b < m;
    Regroup(q, m, b);
    assert a == q * (256 * m) + (256 * b + low);
    assert 256 * b + low < 256 * m;
    ModUnique(a, 256 * m, q, 256 * b + low);
  }

  lemma {:induction false} DecodeEncode(n: nat, w: nat)
    ensures Decode(Encode(n, w)) == n % Pow256(w)
  {
    if w > 0 {
      DecodeEncode(n / 256, w - 1);
      assert Encode(n, w)[..w - 1] == Encode(n / 256, w - 1);
      SplitMod(n, Pow256(w - 1));
    }
  }

  lemma Regroup(q: nat, m: nat, b: nat)
    ensures 256 * (q * m + b) == q * (256 * m) + 256 * b
  {
  }

  /** Two numbers have the same encoding exactly when they agree modulo the width. */
  lemma {:induction false} EncodeInjective(a: nat, b: nat, w: nat)
    ensures Encode(a, w) == Encode(b, w) <==> a % Pow256(w) == b % Pow256(w)
  {
    DecodeEncode(a, w);
    DecodeEncode(b, w);
    if a % Pow256(w) == b % Pow256(w) {
      EncodeMod(a, b, w);
    }
  }

  lemma {:induction false} EncodeMod(a: nat, b: nat, w: nat)
    requires a % Pow256(w) == b % Pow256(w)
    ensures Encode(a, w) == Encode(b, w)
  {
    if w > 0 {
      SplitMod(a, Pow256(w - 1));
      SplitMod(b, Pow256(w - 1));
      EncodeMod(a / 256, b / 256, w - 1);
    }
  }
}
