/**
 The decoder of libscap, and the round trip: decoding the bytes of a recorded event gives
 back its header and exactly the parameters that were pushed.
 */
module Decoder {
  import opened Bytes
  import opened RingLayout
  import opened Serializer

  // struct ppm_evt_hdr
  datatype Header = Header(ts: nat, tid: nat, len: nat, ty: nat, nparams: nat)

  predicate InRange(h: Header) {
    h.ts < TWO64 && h.tid < TWO64 && h.len < TWO32 && h.ty < TWO16 && h.nparams < TWO32
  }

  function HeaderBytes(h: Header): (s: seq<byte>)
    ensures |s| == HEADER
  {
    ToLE(h.ts, 8) + ToLE(h.tid, 8) + ToLE(h.len, 4) + ToLE(h.ty, 2) + ToLE(h.nparams, 4)
  }

  function ReadHeader(e: seq<byte>): Header
    requires HEADER <= |e|
  {
    Header(FromLE(e[..8]), FromLE(e[8..16]), FromLE(e[LEN_AT..TYPE_AT]), FromLE(e[TYPE_AT..NPARAMS_AT]),
           FromLE(e[NPARAMS_AT..HEADER]))
  }

  // The bytes of an event: header, length array, data area.
  function EventBytes(h: Header, values: seq<seq<byte>>): (s: seq<byte>)
    ensures |s| == HEADER + 2 * |values| + |Concat(values)|
  {
    HeaderBytes(h) + LenArray(values) + Concat(values)
  }

  // The k parameters whose lengths are at lenAt and whose data is at dataAt, all before `end`.
  function DecodeFrom(e: seq<byte>, lenAt: nat, dataAt: nat, end: nat, lenSize: nat, k: nat): Option<seq<seq<byte>>>
    requires dataAt <= end <= |e|
    decreases k
  {
    if k == 0 then Some([])
    else if lenAt + lenSize > |e| then None else
    var n := FromLE(e[lenAt..lenAt + lenSize]);
    if dataAt + n > end then None else
    Prepend(e[dataAt..dataAt + n], DecodeFrom(e, lenAt + lenSize, dataAt + n, end, lenSize, k - 1))
  }

  function Prepend(v: seq<byte>, o: Option<seq<seq<byte>>>): Option<seq<seq<byte>>> {
    if o.Some? then Some([v] + o.value) else None
  }

  // What the decoder makes of an event whose table entry has tableParams parameters.
  function Decoded(e: seq<byte>, tableParams: nat, lenSize: nat): Option<seq<seq<byte>>>
    requires HEADER <= |e| && ReadHeader(e).len <= |e|
  {
    var h := ReadHeader(e);
    if HEADER + lenSize * h.nparams > h.len then None
    else DecodeFrom(e, HEADER, HEADER + lenSize * h.nparams, h.len, lenSize, Min(tableParams, h.nparams))
  }

  // scap_event_decode_params: the parameters, or none of them if the event is malformed.
  method DecodeParams(e: seq<byte>, tableParams: nat, large: bool) returns (params: seq<seq<byte>>)
    requires HEADER <= |e| && ReadHeader(e).len <= |e|
    ensures var all := Decoded(e, tableParams, if large then 4 else 2);
            params == if all.Some? then all.value else []
  {
    var h := ReadHeader(e);
    var size := if large then 4 else 2;
    if HEADER + size * h.nparams > h.len {
      return [];
    }
    var n := if tableParams < h.nparams then tableParams else h.nparams;
    params := DecodeLoop(e, HEADER + size * h.nparams, h.len, size, n, h.nparams);
  }

  method DecodeLoop(e: seq<byte>, at: nat, end: nat, size: nat, n: nat, ghost m: nat) returns (params: seq<seq<byte>>)
    requires at <= end <= |e| && n <= m && HEADER + size * m <= |e|
    ensures var all := DecodeFrom(e, HEADER, at, end, size, n); params == if all.Some? then all.value else []
  {
    var lenAt: nat, dataAt: nat, i: nat := HEADER, at, 0;
    ghost var all := DecodeFrom(e, HEADER, at, end, size, n);
    params := [];
    Nothing(all);
    while i < n
      invariant i <= n && lenAt == HEADER + size * i && dataAt <= end
      invariant all == Behind(params, DecodeFrom(e, lenAt, dataAt, end, size, n - i))
    {
      Below(size, i, m);
      var len := FromLE(e[lenAt..lenAt + size]);
      if dataAt + len > end {
        return [];
      }
      var v := e[dataAt..dataAt + len];
      OneMore(params, v, DecodeFrom(e, lenAt + size, dataAt + len, end, size, n - i - 1));
      params := params + [v];
      lenAt, dataAt, i := lenAt + size, dataAt + len, i + 1;
    }
    assert params + [] == params;
  }

  function Behind(done: seq<seq<byte>>, o: Option<seq<seq<byte>>>): Option<seq<seq<byte>>> {
    if o.Some? then Some(done + o.value) else None
  }

  lemma Nothing(o: Option<seq<seq<byte>>>)
    ensures Behind([], o) == o
  {
    assert o.Some? ==> [] + o.value == o.value;
  }

  lemma OneMore(done: seq<seq<byte>>, v: seq<byte>, o: Option<seq<seq<byte>>>)
    ensures Behind(done, Prepend(v, o)) == Behind(done + [v], o)
  {
    assert o.Some? ==> done + ([v] + o.value) == done + [v] + o.value;
  }

  lemma Below(size: nat, i: nat, m: nat)
    requires i < m
    ensures size * i + size == size * (i + 1) <= size * m
  {
  }

  // The length entries of these values, `size` bytes each.
  function Lens(values: seq<seq<byte>>, size: nat): seq<byte> {
    if values == [] then [] else ToLE(|values[0]|, size) + Lens(values[1..], size)
  }

  lemma {:induction false} LensLen(values: seq<seq<byte>>, size: nat)
    ensures |Lens(values, size)| == size * |values|
  {
    if values != [] {
      LensLen(values[1..], size);
      assert size * |values| == size + size * |values[1..]|;
    }
  }

  lemma {:induction false} LensAreArray(values: seq<seq<byte>>)
    ensures Lens(values, 2) == LenArray(values)
  {
    if values != [] {
      LensAreArray(values[1..]);
    }
  }

  // In e, the bytes b lie at `at`.
  predicate Has(e: seq<byte>, at: nat, b: seq<byte>) {
    at + |b| <= |e| && e[at..at + |b|] == b
  }

  lemma HasSplit(e: seq<byte>, at: nat, b: seq<byte>, c: seq<byte>)
    ensures Has(e, at, b + c) <==> Has(e, at, b) && Has(e, at + |b|, c)
  {
    if at + |b + c| <= |e| {
      SplitsAs(e, at, at + |b|, at + |b + c|, b, c);
    }
  }

  predicate Short(values: seq<seq<byte>>, bound: nat) {
    forall i | 0 <= i < |values| :: |values[i]| < bound
  }

  // At lenAt and dataAt, e has the length entries and the data of these values, the data before `end`.
  predicate Lies(e: seq<byte>, lenAt: nat, dataAt: nat, end: nat, size: nat, values: seq<seq<byte>>) {
    && Short(values, Pow256(size))
    && Has(e, lenAt, Lens(values, size)) && Has(e, dataAt, Concat(values)) && dataAt + |Concat(values)| <= end
  }

  // The first value lies there.
  predicate FirstLies(e: seq<byte>, lenAt: nat, dataAt: nat, end: nat, size: nat, v: seq<byte>) {
    |v| < Pow256(size) && Has(e, lenAt, ToLE(|v|, size)) && Has(e, dataAt, v) && dataAt + |v| <= end
  }

  lemma FirstDecodes(e: seq<byte>, lenAt: nat, dataAt: nat, end: nat, size: nat, v: seq<byte>)
    requires dataAt <= end <= |e|
    ensures FirstLies(e, lenAt, dataAt, end, size, v) <==>
            && lenAt + size <= |e|
            && var n := FromLE(e[lenAt..lenAt + size]); n == |v| && dataAt + n <= end && e[dataAt..dataAt + n] == v
  {
    if lenAt + size <= |e| {
      StoreLoad(e[lenAt..lenAt + size]);
    }
    if |v| < Pow256(size) {
      LoadStoreExact(|v|, size);
    }
  }

  lemma ShortSplit(values: seq<seq<byte>>, bound: nat)
    requires values != []
    ensures Short(values, bound) <==> |values[0]| < bound && Short(values[1..], bound)
  {
    assert forall i | 0 < i < |values| :: values[i] == values[1..][i - 1];
  }

  lemma LensSplit(e: seq<byte>, at: nat, size: nat, values: seq<seq<byte>>, first: seq<byte>, rest: seq<byte>)
    requires values != [] && first == ToLE(|values[0]|, size) && rest == Lens(values[1..], size)
    ensures Has(e, at, Lens(values, size)) <==> Has(e, at, first) && Has(e, at + size, rest)
  {
    LensNext(values, size);
    HasSplit(e, at, first, rest);
  }

  lemma LensNext(values: seq<seq<byte>>, size: nat)
    requires values != []
    ensures Lens(values, size) == ToLE(|values[0]|, size) + Lens(values[1..], size)
  {
  }

  lemma DataSplit(e: seq<byte>, at: nat, values: seq<seq<byte>>, first: seq<byte>, rest: seq<byte>)
    requires values != [] && first == values[0] && rest == Concat(values[1..])
    ensures |Concat(values)| == |first| + |rest|
    ensures Has(e, at, Concat(values)) <==> Has(e, at, first) && Has(e, at + |first|, rest)
  {
    HasSplit(e, at, first, rest);
  }

  lemma LiesSplit(e: seq<byte>, lenAt: nat, dataAt: nat, end: nat, size: nat, values: seq<seq<byte>>)
    requires values != []
    ensures Lies(e, lenAt, dataAt, end, size, values) <==>
            && FirstLies(e, lenAt, dataAt, end, size, values[0])
            && Lies(e, lenAt + size, dataAt + |values[0]|, end, size, values[1..])
  {
    ShortSplit(values, Pow256(size));
    LensSplit(e, lenAt, size, values, ToLE(|values[0]|, size), Lens(values[1..], size));
    DataSplit(e, dataAt, values, values[0], Concat(values[1..]));
  }

  // The same value by value.
  predicate EachLies(e: seq<byte>, lenAt: nat, dataAt: nat, end: nat, size: nat, values: seq<seq<byte>>)
    decreases |values|
  {
    values != [] ==>
      && FirstLies(e, lenAt, dataAt, end, size, values[0])
      && EachLies(e, lenAt + size, dataAt + |values[0]|, end, size, values[1..])
  }

  lemma {:induction false} EachLiesIff(e: seq<byte>, lenAt: nat, dataAt: nat, end: nat, size: nat,
                                       values: seq<seq<byte>>)
    requires dataAt <= end <= |e| && lenAt <= |e|
    ensures EachLies(e, lenAt, dataAt, end, size, values) <==> Lies(e, lenAt, dataAt, end, size, values)
    decreases |values|
  {
    if values != [] {
      LiesSplit(e, lenAt, dataAt, end, size, values);
      if FirstLies(e, lenAt, dataAt, end, size, values[0]) {
        EachLiesIff(e, lenAt + size, dataAt + |values[0]|, end, size, values[1..]);
      }
    }
  }

  lemma PrependIs(v: seq<byte>, o: Option<seq<seq<byte>>>, values: seq<seq<byte>>)
    requires values != []
    ensures Prepend(v, o) == Some(values) <==> v == values[0] && o == Some(values[1..])
  {
    assert values == [values[0]] + values[1..];
    assert o.Some? ==> ([v] + o.value)[1..] == o.value;
  }

  lemma DecodesFirst(e: seq<byte>, lenAt: nat, dataAt: nat, end: nat, size: nat, values: seq<seq<byte>>)
    requires dataAt <= end <= |e| && values != []
    ensures DecodeFrom(e, lenAt, dataAt, end, size, |values|) == Some(values) <==>
            && FirstLies(e, lenAt, dataAt, end, size, values[0])
            && DecodeFrom(e, lenAt + size, dataAt + |values[0]|, end, size, |values[1..]|) == Some(values[1..])
  {
    FirstDecodes(e, lenAt, dataAt, end, size, values[0]);
    if lenAt + size <= |e| {
      var n := FromLE(e[lenAt..lenAt + size]);
      if dataAt + n <= end {
        PrependIs(e[dataAt..dataAt + n], DecodeFrom(e, lenAt + size, dataAt + n, end, size, |values| - 1), values);
      }
    }
  }

  lemma {:induction false} DecodesEach(e: seq<byte>, lenAt: nat, dataAt: nat, end: nat, size: nat,
                                       values: seq<seq<byte>>)
    requires dataAt <= end <= |e|
    ensures DecodeFrom(e, lenAt, dataAt, end, size, |values|) == Some(values) <==>
            EachLies(e, lenAt, dataAt, end, size, values)
    decreases |values|
  {
    if values != [] {
      DecodesFirst(e, lenAt, dataAt, end, size, values);
      if FirstLies(e, lenAt, dataAt, end, size, values[0]) {
        DecodesEach(e, lenAt + size, dataAt + |values[0]|, end, size, values[1..]);
      }
    }
  }

  // Decoding undoes serializing, and only that: exactly the values whose length entries and data area
  // are there come out, whatever the size of a length entry.
  lemma DecodesExactly(e: seq<byte>, lenAt: nat, dataAt: nat, end: nat, size: nat, values: seq<seq<byte>>)
    requires dataAt <= end <= |e| && lenAt <= |e|
    ensures DecodeFrom(e, lenAt, dataAt, end, size, |values|) == Some(values) <==>
            Lies(e, lenAt, dataAt, end, size, values)
  {
    DecodesEach(e, lenAt, dataAt, end, size, values);
    EachLiesIff(e, lenAt, dataAt, end, size, values);
  }

  // Values that lie there do so from the first one on.
  lemma {:induction false} EachLiesPrefix(e: seq<byte>, lenAt: nat, dataAt: nat, end: nat, size: nat,
                                          values: seq<seq<byte>>, k: nat)
    requires k <= |values| && EachLies(e, lenAt, dataAt, end, size, values)
    ensures EachLies(e, lenAt, dataAt, end, size, values[..k])
    decreases k
  {
    if k > 0 {
      EachLiesPrefix(e, lenAt + size, dataAt + |values[0]|, end, size, values[1..], k - 1);
      assert values[..k][1..] == values[1..][..k - 1];
    }
  }

  // The bytes of an event with length entries of the given size.
  function SizedBytes(h: Header, values: seq<seq<byte>>, size: nat): seq<byte> {
    HeaderBytes(h) + (Lens(values, size) + Concat(values))
  }

  // Whatever the size of a length entry, the decoder gets as many of the parameters as its table has
  // entries, from the first one on.
  lemma SizedRoundTrip(h: Header, values: seq<seq<byte>>, size: nat, table: nat, e: seq<byte>)
    requires InRange(h) && h.nparams == |values| && h.len == |SizedBytes(h, values, size)|
    requires Short(values, Pow256(size))
    requires SizedBytes(h, values, size) <= e
    ensures ReadHeader(e) == h && Decoded(e, table, size) == Some(values[..Min(table, |values|)])
  {
    var k, n := HEADER + size * |values|, Min(table, |values|);
    LensLen(values, size);
    SizedLies(h, values, size, e);
    HeaderRoundTrip(h, e);
    DecodesPrefix(e, k, h.len, size, values, n);
    DecodedAt(h, e, table, size, k);
  }

  lemma DecodesPrefix(e: seq<byte>, at: nat, end: nat, size: nat, values: seq<seq<byte>>, n: nat)
    requires HEADER <= at <= end <= |e| && Lies(e, HEADER, at, end, size, values) && n <= |values|
    ensures DecodeFrom(e, HEADER, at, end, size, n) == Some(values[..n])
  {
    EachLiesIff(e, HEADER, at, end, size, values);
    EachLiesPrefix(e, HEADER, at, end, size, values, n);
    DecodesEach(e, HEADER, at, end, size, values[..n]);
  }

  lemma DecodedAt(h: Header, e: seq<byte>, table: nat, size: nat, at: nat)
    requires HEADER <= |e| && ReadHeader(e) == h && at == HEADER + size * h.nparams && at <= h.len <= |e|
    ensures Decoded(e, table, size) == DecodeFrom(e, HEADER, at, h.len, size, Min(table, h.nparams))
  {
  }

  lemma SizedLies(h: Header, values: seq<seq<byte>>, size: nat, e: seq<byte>)
    requires Short(values, Pow256(size))
    requires SizedBytes(h, values, size) <= e
    ensures HeaderBytes(h) <= e
    ensures Lies(e, HEADER, HEADER + |Lens(values, size)|, |SizedBytes(h, values, size)|, size, values)
  {
    var b := SizedBytes(h, values, size);
    assert Has(e, 0, b);
    HasSplit(e, 0, HeaderBytes(h), Lens(values, size) + Concat(values));
    HasSplit(e, HEADER, Lens(values, size), Concat(values));
  }

  // The round trip: the bytes of an event, wherever they are and whatever follows them, decode to
  // its header and its parameters.
  lemma EventRoundTrip(h: Header, values: seq<seq<byte>>, e: seq<byte>)
    requires InRange(h) && h.nparams == |values| && h.len == |EventBytes(h, values)|
    requires forall i | 0 <= i < |values| :: |values[i]| < TWO16
    requires EventBytes(h, values) <= e
    ensures ReadHeader(e) == h && Decoded(e, |values|, 2) == Some(values)
  {
    LensAreArray(values);
    Pow256Values();
    var b := EventBytes(h, values);
    assert b == SizedBytes(h, values, 2);
    SizedRoundTrip(h, values, 2, |values|, e);
    assert values[..|values|] == values;
  }

  // The length field of an event.
  lemma EventLen(h: Header, values: seq<seq<byte>>)
    requires InRange(h)
    ensures FromLE(EventBytes(h, values)[LEN_AT..TYPE_AT]) == h.len
  {
    assert HeaderBytes(h) <= HeaderBytes(h) + LenArray(values) + Concat(values);
    HeaderRoundTrip(h, EventBytes(h, values));
  }

  lemma Fields(a: seq<byte>, b: seq<byte>, c: seq<byte>, d: seq<byte>, f: seq<byte>, e: seq<byte>)
    requires |a| == 8 && |b| == 8 && |c| == 4 && |d| == 2 && |f| == 4 && a + b + c + d + f <= e
    ensures e[..8] == a && e[8..16] == b && e[LEN_AT..TYPE_AT] == c && e[TYPE_AT..NPARAMS_AT] == d
    ensures e[NPARAMS_AT..HEADER] == f
  {
  }

  lemma HeaderRoundTrip(h: Header, e: seq<byte>)
    requires InRange(h) && HeaderBytes(h) <= e
    ensures ReadHeader(e) == h
  {
    Fields(ToLE(h.ts, 8), ToLE(h.tid, 8), ToLE(h.len, 4), ToLE(h.ty, 2), ToLE(h.nparams, 4), e);
    Pow256Values();
    LoadStoreExact(h.ts, 8);
    LoadStoreExact(h.tid, 8);
    LoadStoreExact(h.len, 4);
    LoadStoreExact(h.ty, 2);
    LoadStoreExact(h.nparams, 4);
  }
}
