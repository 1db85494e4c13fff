/**
 Bytes, little-endian words and concatenations: what the ring, the serializer and
 the decoder have in common.
 */
module Bytes {
  type byte = b: int | 0 <= b < 256

  datatype Option<T> = None | Some(value: T)

  const TWO8: nat := 0x100
  const TWO16: nat := 0x1_0000
  const TWO32: nat := 0x1_0000_0000
  const TWO64: nat := 0x1_0000_0000_0000_0000

  function Min(a: nat, b: nat): nat {
    if a <= b then a else b
  }

  function Max(a: nat, b: nat): nat {
    if a >= b then a else b
  }

  function Pow2(k: nat): (p: nat)
    ensures p > 0
  {
    if k == 0 then 1 else 2 * Pow2(k - 1)
  }

  // The number of values an n-byte word can hold.
  function Pow256(n: nat): (p: nat)
    ensures p > 0
  {
    if n == 0 then 1 else 256 * Pow256(n - 1)
  }

  // The low n bytes of v, lowest first: what a store of an n-byte integer leaves in memory.
  function ToLE(v: nat, n: nat): (s: seq<byte>)
    ensures |s| == n
    decreases n, v
  {
    if n == 0 then [] else [v % 256] + ToLE(v / 256, n - 1)
  }

  function FromLE(s: seq<byte>): nat {
    if s == [] then 0 else s[0] + 256 * FromLE(s[1..])
  }

  // Loading a stored word gives it back, cut to the width of the word.
  lemma {:induction false} LoadStore(v: nat, n: nat)
    ensures FromLE(ToLE(v, n)) == v % Pow256(n)
    decreases n
  {
    if n != 0 {
      LoadStore(v / 256, n - 1);
      var p := Pow256(n - 1);
      assert ToLE(v, n)[1..] == ToLE(v / 256, n - 1);
      ModSplit(v, p);
    }
  }

  lemma ModSplit(v: nat, p: nat)
    requires p > 0
    ensures v % (256 * p) == v % 256 + 256 * ((v / 256) % p)
  {
    var q, r := v / 256 / p, v / 256 % p;
    assert v / 256 == p * q + r;
    assert v == (256 * p) * q + (256 * r + v % 256);
    assert 256 * r + v % 256 < 256 * p;
    DivModUnique(v, 256 * p, q, 256 * r + v % 256);
  }

  lemma DivModUnique(x: int, d: int, q: int, r: int)
    requires d > 0 && 0 <= r < d && x == d * q + r
    ensures x / d == q && x % d == r
  {
    var q', r' := x / d, x % d;
    assert d * (q - q') == r' - r;
    assert -d < d * (q - q') < d;
    MulWithin(d, q - q');
  }

  lemma InWord(x: int)
    requires 0 <= x < TWO64
    ensures x % TWO64 == x
  {
  }

  lemma MulWithin(d: int, k: int)
    requires d > 0 && -d < d * k < d
    ensures k == 0
  {
  }

  lemma Pow256Values()
    ensures Pow256(1) == TWO8 && Pow256(2) == TWO16 && Pow256(4) == TWO32 && Pow256(8) == TWO64
  {
  }

  // An in-range word survives a store and a load.
  lemma LoadStoreExact(v: nat, n: nat)
    requires v < Pow256(n)
    ensures FromLE(ToLE(v, n)) == v
  {
    LoadStore(v, n);
  }

  // Storing a loaded word gives its bytes back.
  lemma {:induction false} StoreLoad(s: seq<byte>)
    ensures FromLE(s) < Pow256(|s|) && ToLE(FromLE(s), |s|) == s
  {
    if s != [] {
      var first, rest := s[0], s[1..];
      StoreLoad(rest);
      DivModUnique(FromLE(s), 256, FromLE(rest), first);
      assert ToLE(FromLE(s), |s|) == [first] + ToLE(FromLE(rest), |rest|);
      assert s == [first] + rest;
    }
  }

  function Concat(parts: seq<seq<byte>>): seq<byte> {
    if parts == [] then [] else parts[0] + Concat(parts[1..])
  }

  lemma {:induction false} ConcatAppend(xs: seq<seq<byte>>, ys: seq<seq<byte>>)
    ensures Concat(xs + ys) == Concat(xs) + Concat(ys)
  {
    if xs == [] {
      assert xs + ys == ys;
    } else {
      assert (xs + ys)[1..] == xs[1..] + ys;
      ConcatAppend(xs[1..], ys);
    }
  }

  lemma ConcatSnoc(xs: seq<seq<byte>>, x: seq<byte>)
    ensures Concat(xs + [x]) == Concat(xs) + x
  {
    ConcatAppend(xs, [x]);
    assert Concat([x]) == x;
  }

  lemma SliceOfSlice<T>(s: seq<T>, i: nat, j: nat, a: nat, b: nat)
    requires i <= j <= |s| && a <= b <= j - i
    ensures s[i..j][a..b] == s[i + a..i + b]
  {
    forall k | 0 <= k < b - a
      ensures s[i..j][a..b][k] == s[i + a..i + b][k]
    {
      assert s[i..j][a + k] == s[i + a + k];
    }
  }

  // --------------------------------------------------------------------------------------
  // Writes to part of a buffer
  // --------------------------------------------------------------------------------------

  // t is s with at most the n bytes at `at` changed.
  predicate Framed(s: seq<byte>, t: seq<byte>, at: nat, n: nat) {
    |t| == |s| && at + n <= |s| && t[..at] == s[..at] && t[at + n..] == s[at + n..]
  }

  // A stretch outside the part is as it was.
  lemma Kept(s: seq<byte>, t: seq<byte>, at: nat, n: nat, i: nat, j: nat)
    requires Framed(s, t, at, n) && i <= j <= |s| && (j <= at || at + n <= i)
    ensures t[i..j] == s[i..j]
  {
    if j <= at {
      SliceOfSlice(t, 0, at, i, j);
      SliceOfSlice(s, 0, at, i, j);
      assert t[0..at] == t[..at] && s[0..at] == s[..at];
    } else {
      var k := at + n;
      SliceOfSlice(t, k, |t|, i - k, j - k);
      SliceOfSlice(s, k, |s|, i - k, j - k);
      assert t[k..|t|] == t[k..] && s[k..|s|] == s[k..];
    }
  }

  // A part of a part.
  lemma Widened(s: seq<byte>, t: seq<byte>, at: nat, n: nat, at': nat, n': nat)
    requires Framed(s, t, at, n) && at' <= at && at + n <= at' + n' <= |s|
    ensures Framed(s, t, at', n')
  {
    Kept(s, t, at, n, 0, at');
    Kept(s, t, at, n, at' + n', |s|);
    assert t[0..at'] == t[..at'] && s[0..at'] == s[..at'];
    assert t[at' + n'..|t|] == t[at' + n'..] && s[at' + n'..|s|] == s[at' + n'..];
  }

  // Two writes within the same part.
  lemma FramedTwice(s: seq<byte>, t: seq<byte>, u: seq<byte>, at: nat, n: nat)
    requires Framed(s, t, at, n) && Framed(t, u, at, n)
    ensures Framed(s, u, at, n)
  {
  }

  lemma FramedNowhere(s: seq<byte>, t: seq<byte>, at: nat)
    requires Framed(s, t, at, 0)
    ensures t == s
  {
    assert s == s[..at] + s[at..] && t == t[..at] + t[at..];
  }

  // One more byte of a part written from the front.
  lemma PutByte(s: seq<byte>, t: seq<byte>, at: nat, n: nat, i: nat, x: byte)
    requires Framed(s, t, at, n) && i < n
    ensures Framed(s, t[at + i := x], at, n)
    ensures t[at + i := x][at..at + i + 1] == t[at..at + i] + [x]
  {
  }

  // Two stretches of known lengths, side by side.
  lemma SplitsAs(a: seq<byte>, i: nat, j: nat, k: nat, p: seq<byte>, q: seq<byte>)
    requires i <= j <= k <= |a| && |p| == j - i && |q| == k - j
    ensures a[i..k] == p + q <==> a[i..j] == p && a[j..k] == q
  {
    assert a[i..k][..j - i] == a[i..j] && a[i..k][j - i..] == a[j..k];
    assert (p + q)[..|p|] == p && (p + q)[|p|..] == q;
    assert a[i..k] == a[i..j] + a[j..k];
  }

  // Two adjacent stretches.
  lemma Joined(a: seq<byte>, i: nat, j: nat, k: nat, p: seq<byte>, q: seq<byte>)
    requires i <= j <= k <= |a| && a[i..j] == p && a[j..k] == q
    ensures a[i..k] == p + q
  {
  }

  // A stretch that holds a prefix of s holds every shorter prefix.
  lemma Cut(a: seq<byte>, at: nat, n: nat, k: nat, s: seq<byte>)
    requires at + n <= |a| && k <= n <= |s| && a[at..at + n] == s[..n]
    ensures a[at..at + k] == s[..k]
  {
    assert a[at..at + n][..k] == a[at..at + k];
    assert s[..n][..k] == s[..k];
  }
}
