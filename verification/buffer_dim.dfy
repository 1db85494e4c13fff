/**
 Which buffer sizes are accepted, and how a buffer of an accepted size is mapped to user
 space: every page twice, the second copy right behind the first.
 */
module BufferDim {
  import opened Bytes
  import opened RingLayout

  // Bitwise conjunction of two unsigned words.
  function BitAnd(a: nat, b: nat): (r: nat)
    ensures r <= a && r <= b
  {
    if a == 0 || b == 0 then 0 else (a % 2) * (b % 2) + 2 * BitAnd(a / 2, b / 2)
  }

  // validate_buffer_bytes_dim, for page sizes whose double fits a word.
  predicate Validate(dim: nat, page: nat)
    requires 0 < page < TWO64 / 2
  {
    dim > 2 * page && dim % page == 0 && BitAnd(dim, dim - 1) == 0
  }

  lemma {:induction false} BitAndSelf(a: nat)
    ensures BitAnd(a, a) == a
  {
    if a != 0 {
      BitAndSelf(a / 2);
      assert (a % 2) * (a % 2) == a % 2;
    }
  }

  // The bit trick is right: x & (x - 1) is zero exactly for the powers of two.
  lemma {:induction false} BitTrick(x: nat)
    requires x > 0
    ensures BitAnd(x, x - 1) == 0 <==> exists k: nat :: x == Pow2(k)
  {
    if x == 1 {
      assert x == Pow2(0);
    } else if x % 2 == 1 {
      BitAndSelf(x / 2);
      assert (x - 1) / 2 == x / 2 && (x - 1) % 2 == 0;
      assert forall k: nat :: Pow2(k) == 1 || Pow2(k) % 2 == 0;
    } else {
      BitTrick(x / 2);
      assert (x - 1) / 2 == x / 2 - 1;
      assert BitAnd(x, x - 1) == 2 * BitAnd(x / 2, x / 2 - 1);
      HalfOfPow2(x / 2);
    }
  }

  lemma HalfOfPow2(y: nat)
    requires y > 0
    ensures (exists k: nat :: y == Pow2(k)) <==> (exists k: nat :: 2 * y == Pow2(k))
  {
    if k: nat :| y == Pow2(k) {
      assert 2 * y == Pow2(k + 1);
    }
    if k: nat :| 2 * y == Pow2(k) {
      var j: nat := k - 1;
      assert y == Pow2(j);
    }
  }

  lemma {:induction false} Pow2Add(i: nat, j: nat)
    ensures Pow2(i + j) == Pow2(i) * Pow2(j)
  {
    if i != 0 {
      Pow2Add(i - 1, j);
      assert Pow2(i + j) == 2 * Pow2(i - 1 + j);
    }
  }

  lemma {:induction false} DivisorOfPow2(k: nat, p: nat, q: nat) returns (i: nat)
    requires p * q == Pow2(k)
    ensures i <= k && p == Pow2(i) && q == Pow2(k - i)
  {
    if k == 0 {
      assert p == 1 && q == 1 by {
        UnitFactors(p, q);
      }
      return 0;
    }
    if p % 2 == 0 {
      assert (p / 2) * q == Pow2(k - 1) by {
        assert 2 * ((p / 2) * q) == p * q;
      }
      var i' := DivisorOfPow2(k - 1, p / 2, q);
      return i' + 1;
    } else {
      OddTimes(p, q);
      assert p * (q / 2) == Pow2(k - 1) by {
        assert 2 * (p * (q / 2)) == p * q;
      }
      i := DivisorOfPow2(k - 1, p, q / 2);
    }
  }

  lemma UnitFactors(p: nat, q: nat)
    requires p * q == 1
    ensures p == 1 && q == 1
  {
  }

  lemma OddTimes(p: nat, q: nat)
    requires p % 2 == 1 && p * q % 2 == 0
    ensures q % 2 == 0
  {
    var m := p / 2;
    assert p * q == (2 * m + 1) * q == 2 * (m * q) + q;
  }

  // A size is accepted exactly if it is the page size times a power of two from 4 on (and
  // then the page size is a power of two as well).
  lemma AcceptedSizes(dim: nat, page: nat)
    requires 0 < page < TWO64 / 2
    ensures Validate(dim, page) <==>
            exists i: nat, j: nat :: j >= 2 && page == Pow2(i) && dim == Pow2(i) * Pow2(j)
  {
    if Validate(dim, page) {
      BitTrick(dim);
      var k: nat :| dim == Pow2(k);
      var q := dim / page;
      assert page * q == dim;
      var i := DivisorOfPow2(k, page, q);
      assert q > 2;
      assert Pow2(0) == 1 && Pow2(1) == 2;
      assert k - i >= 2 && page == Pow2(i) && dim == Pow2(i) * Pow2(k - i);
    }
    if i: nat, j: nat :| j >= 2 && page == Pow2(i) && dim == Pow2(i) * Pow2(j) {
      Pow2Add(i, j);
      assert dim == Pow2(i + j);
      BitTrick(dim);
      assert Pow2(j) >= 4 by {
        Pow2Add(2, j - 2);
        assert Pow2(2) == 4;
      }
      Multiple(page, Pow2(j));
    }
  }

  lemma Multiple(page: nat, n: nat)
    requires page > 0 && n >= 4
    ensures page * n % page == 0 && page * n > 2 * page
  {
    DivModUnique(page * n, page, n, 0);
  }

  // ------------------------------------------------------------------------------------
  // ppm_mmap
  // ------------------------------------------------------------------------------------

  datatype Mapping =
    | Info                            // the page with the ring info
    | Data(pages: seq<nat>)           // for each user page, the buffer page behind it
    | Error(code: int)

  const EIO: int := 5

  // The data mapping: each of the n buffer pages, then each of them again.
  predicate Doubled(pages: seq<nat>, n: nat) {
    |pages| == 2 * n && forall u | 0 <= u < 2 * n :: pages[u] == if u < n then u else u - n
  }

  // `remaps` says how many page remappings succeed before one fails with `err`.
  method Mmap(length: nat, pgoff: nat, writable: bool, dim: nat, page: nat, remaps: nat, err: int)
    returns (m: Mapping)
    requires page > 0 && dim % page == 0 && err < 0
    ensures m.Info? <==> pgoff == 0 && length <= page && remaps >= 1
    ensures m.Data? <==> pgoff == 0 && length > page && length == 2 * dim && !writable && remaps >= 2 * (dim / page)
    ensures m.Data? ==> Doubled(m.pages, dim / page)
    ensures m.Error? ==> m.code < 0
  {
    if pgoff != 0 {
      return Error(-EIO);
    }
    if length <= page {
      return if remaps >= 1 then Info else Error(err);
    }
    if length != 2 * dim {
      return Error(-EIO);
    }
    if writable {
      return Error(-EIO);
    }
    var pages, area: nat := [], 0;
    ghost var n := dim / page;
    var mlength := length / 2;
    while mlength > 0
      invariant 0 <= mlength && |pages| == area <= remaps && area <= n && mlength == page * (n - area)
      invariant forall u | 0 <= u < area :: pages[u] == u
    {
      MulPositive(page, n - area);
      if |pages| == remaps {
        return Error(err);
      }
      pages := pages + [area];
      area := area + 1;
      mlength := mlength - page;
      assert page * (n - area) == page * (n - (area - 1)) - page;
    }
    MulPositive(page, n - area);
    area, mlength := 0, length / 2;
    while mlength > 0
      invariant 0 <= mlength && |pages| == n + area <= remaps && area <= n && mlength == page * (n - area)
      invariant forall u | 0 <= u < n + area :: pages[u] == if u < n then u else u - n
    {
      MulPositive(page, n - area);
      if |pages| == remaps {
        return Error(err);
      }
      pages := pages + [area];
      area := area + 1;
      mlength := mlength - page;
      assert page * (n - area) == page * (n - (area - 1)) - page;
    }
    MulPositive(page, n - area);
    return Data(pages);
  }

  lemma MulPositive(p: nat, k: nat)
    requires p > 0
    ensures p * k > 0 <==> k > 0
    ensures k > 0 ==> p * k >= p
  {
  }

  // The byte behind a user offset of the mapping is the one the protocol reads there: one
  // subtraction of dim, so offsets u and u + dim show the same byte.
  lemma MappingIsWrap(pages: seq<nat>, dim: nat, page: nat, x: nat)
    requires page > 0 && dim % page == 0 && Doubled(pages, dim / page) && x < 2 * dim
    ensures x / page < |pages| && pages[x / page] * page + x % page == Wrap(dim, x)
  {
    var n, u, r := dim / page, x / page, x % page;
    assert dim == page * n && x == page * u + r;
    MulLess(page, u, 2 * n, r);
    MulLess(page, u, n, r);
    if u >= n {
      MulSub(page, u, n);
    }
  }

  lemma MulSub(p: nat, a: nat, b: nat)
    requires b <= a
    ensures (a - b) * p == p * a - p * b
  {
  }

  lemma MulLess(page: nat, u: nat, n: nat, r: nat)
    requires r < page
    ensures page * u + r < page * n <==> u < n
  {
    if u < n {
      MulMono(page, u + 1, n);
    } else {
      MulMono(page, n, u);
    }
  }

  lemma MulMono(p: nat, a: nat, b: nat)
    requires a <= b
    ensures p * a <= p * b
  {
  }
}
