/** Bytes, big-endian integers and two's complement, as the load and store macros read and write them. */
module Bytes {
  type byte = b: int | 0 <= b < 256

  const TWO_TO_THE_32: nat := 0x1_0000_0000
  const TWO_TO_THE_63: nat := 0x8000_0000_0000_0000
  const TWO_TO_THE_64: nat := 0x1_0000_0000_0000_0000

  function Pow256(k: nat): (p: nat)
    ensures p > 0
  {
    if k == 0 then 1 else 256 * Pow256(k - 1)
  }

  lemma Pow256Widths()
    ensures Pow256(1) == 256
    ensures Pow256(2) == 0x1_0000
    ensures Pow256(4) == TWO_TO_THE_32
    ensures Pow256(8) == TWO_TO_THE_64
  {
    assert Pow256(4) == 256 * 256 * Pow256(2);
    assert Pow256(8) == 256 * 256 * Pow256(6) == 256 * 256 * 256 * 256 * Pow256(4);
  }

  function Load(s: seq<byte>): (n: nat)
    ensures n < Pow256(|s|)
  {
    if s == [] then 0 else 256 * Load(s[..|s| - 1]) + s[|s| - 1]
  }

  function Store(n: nat, k: nat): (s: seq<byte>)
    requires n < Pow256(k)
    ensures |s| == k
  {
    if k == 0 then [] else Store(n / 256, k - 1) + [n % 256]
  }

  lemma {:induction false} LoadStore(n: nat, k: nat)
    requires n < Pow256(k)
    ensures Load(Store(n, k)) == n
  {
    if k != 0 {
      LoadStore(n / 256, k - 1);
      assert Store(n, k)[..k - 1] == Store(n / 256, k - 1);
    }
  }

  lemma {:induction false} StoreLoad(s: seq<byte>)
    ensures Store(Load(s), |s|) == s
  {
    if s != [] {
      StoreLoad(s[..|s| - 1]);
      assert s == s[..|s| - 1] + [s[|s| - 1]];
    }
  }

  // ---------------------------------------------------------------- the byte order

  /** The first byte counts most: what follows it shifts it up. */
  lemma {:induction false} LoadJoin(s: seq<byte>, t: seq<byte>)
    ensures Load(s + t) == Load(s) * Pow256(|t|) + Load(t)
    ensures |t| == 1 ==> Load(t) == t[0]
  {
    if t == [] {
      assert s + t == s;
    } else {
      var n := |t| - 1;
      LoadJoin(s, t[..n]);
      assert (s + t)[..|s + t| - 1] == s + t[..n];
      Shifted(Load(s), Pow256(n), Load(t[..n]));
    }
  }

  lemma Shifted(a: nat, p: nat, b: nat)
    ensures 256 * (a * p + b) == a * (256 * p) + 256 * b
  {
  }

  /** Each byte is a digit of the number to the base 256, the last one the lowest. */
  lemma {:induction false} StoreAt(n: nat, k: nat, i: nat)
    requires n < Pow256(k) && i < k
    ensures Store(n, k)[i] == n / Pow256(k - 1 - i) % 256
  {
    if i < k - 1 {
      StoreAt(n / 256, k - 1, i);
      DivideTwice(n, Pow256(k - 2 - i));
    }
  }

  lemma DivideTwice(n: nat, p: nat)
    requires p > 0
    ensures n / 256 / p == n / (256 * p)
  {
    var q, r := n / (256 * p), n % (256 * p);
    assert n == 256 * p * q + r == 256 * (p * q) + r;
    assert n / 256 == p * q + r / 256;
    assert r / 256 < p;
    Quotient(n / 256, p, q, r / 256);
  }

  lemma Quotient(n: nat, p: nat, q: nat, r: nat)
    requires n == p * q + r && r < p
    ensures n / p == q
  {
    Steps(p, n / p, q);
    Steps(p, q, n / p);
  }

  lemma {:induction false} Steps(p: nat, a: nat, b: nat)
    ensures a < b ==> p * a + p <= p * b
    decreases b
  {
    if a < b {
      Steps(p, a, b - 1);
      assert p * b == p * (b - 1) + p;
    }
  }

  /** The bytes of a number in 2, 4 and 8 bytes, written out. */
  function Big2(n: nat): (s: seq<byte>)
    requires n < 0x1_0000
    ensures |s| == 2
  {
    [n / 0x100, n % 0x100]
  }

  function Big4(n: nat): (s: seq<byte>)
    requires n < TWO_TO_THE_32
    ensures |s| == 4
  {
    Big2(n / 0x1_0000) + Big2(n % 0x1_0000)
  }

  function Big8(n: nat): (s: seq<byte>)
    requires n < TWO_TO_THE_64
    ensures |s| == 8
  {
    Big4(n / TWO_TO_THE_32) + Big4(n % TWO_TO_THE_32)
  }

  /** The number that bytes written out stand for. */
  lemma LoadBytes(a: byte, b: byte, c: byte, d: byte, e: byte, f: byte, g: byte, h: byte)
    ensures Load([a]) == a
    ensures Load([a, b]) == 0x100 * a + b
    ensures Load([a, b, c, d]) == 0x100_0000 * a + 0x1_0000 * b + 0x100 * c + d
    ensures Load([a, b, c, d, e, f, g, h]) ==
            TWO_TO_THE_32 * (0x100_0000 * a + 0x1_0000 * b + 0x100 * c + d)
            + 0x100_0000 * e + 0x1_0000 * f + 0x100 * g + h
  {
    Load4(a, b, c, d);
    Load4(e, f, g, h);
    Pow256Widths();
    LoadJoin([a, b, c, d], [e, f, g, h]);
    assert [a, b, c, d] + [e, f, g, h] == [a, b, c, d, e, f, g, h];
  }

  lemma Load4(a: byte, b: byte, c: byte, d: byte)
    ensures Load([a]) == a
    ensures Load([a, b]) == 0x100 * a + b
    ensures Load([a, b, c, d]) == 0x100_0000 * a + 0x1_0000 * b + 0x100 * c + d
  {
    assert [a, b, c, d][..3] == [a, b, c] && [a, b, c][..2] == [a, b] && [a, b][..1] == [a] && [a][..0] == [];
    assert Load([a]) == a;
    assert Load([a, b]) == 0x100 * a + b;
    assert Load([a, b, c]) == 0x100 * Load([a, b]) + c;
  }

  /** The bytes that a number is stored in. */
  lemma StoreBytes(n: nat)
    ensures n < 0x100 ==> n < Pow256(1) && Store(n, 1) == [n]
    ensures n < 0x1_0000 ==> n < Pow256(2) && Store(n, 2) == Big2(n)
    ensures n < TWO_TO_THE_32 ==> n < Pow256(4) && Store(n, 4) == Big4(n)
    ensures n < TWO_TO_THE_64 ==> n < Pow256(8) && Store(n, 8) == Big8(n)
  {
    hide Load, Store, Big2, Big4, Big8;
    Pow256Widths();
    BigLoads(n);
    if n < 0x100 {
      StoreLoad([n]);
    }
    if n < 0x1_0000 {
      StoreLoad(Big2(n));
    }
    if n < TWO_TO_THE_32 {
      StoreLoad(Big4(n));
    }
    if n < TWO_TO_THE_64 {
      BigLoads8(n);
      StoreLoad(Big8(n));
    }
  }

  lemma BigLoads(n: nat)
    ensures n < 0x100 ==> Load([n]) == n
    ensures n < 0x1_0000 ==> Load(Big2(n)) == n
    ensures n < TWO_TO_THE_32 ==> Load(Big4(n)) == n
  {
    hide Load;
    if n < TWO_TO_THE_32 {
      var (hi, lo) := (n / 0x1_0000, n % 0x1_0000);
      Load4(hi / 0x100, hi % 0x100, lo / 0x100, lo % 0x100);
      assert Big4(n) == [hi / 0x100, hi % 0x100, lo / 0x100, lo % 0x100];
    }
    if n < 0x1_0000 {
      Load4(n / 0x100, n % 0x100, 0, 0);
    }
    if n < 0x100 {
      Load4(n, 0, 0, 0);
    }
  }

  lemma BigLoads8(n: nat)
    requires n < TWO_TO_THE_64
    ensures Load(Big8(n)) == n
  {
    hide Load;
    Pow256Widths();
    BigLoads(n / TWO_TO_THE_32);
    BigLoads(n % TWO_TO_THE_32);
    LoadJoin(Big4(n / TWO_TO_THE_32), Big4(n % TWO_TO_THE_32));
  }

  /** The signed reading of a k-byte pattern. */
  function Signed(n: nat, k: nat): int
    requires n < Pow256(k)
  {
    if 2 * n < Pow256(k) then n else n - Pow256(k)
  }

  /** The k-byte pattern of a negative integer. */
  function Pattern(i: int, k: nat): (n: nat)
    requires i < 0 <= 2 * i + Pow256(k)
    ensures n < Pow256(k) && Signed(n, k) == i
  {
    i + Pow256(k)
  }

  /** Two's complement: the number less 256^k or not at all, as its top bit says. */
  lemma SignedIs(n: nat, k: nat)
    requires n < Pow256(k)
    ensures -(Pow256(k) as int) <= 2 * Signed(n, k) < Pow256(k)
    ensures Signed(n, k) == n || Signed(n, k) == n - Pow256(k)
    ensures Signed(n, k) < 0 <==> 2 * n >= Pow256(k)
  {
  }
}
