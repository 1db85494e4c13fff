/**
 What one push puts into an event: the bytes of a parameter as a function of its type, the
 value handed in and the space left. The value may be cut to fit; how is said by the
 lemmas at the end.
 */
module Payload {
  import opened Bytes
  import opened Params
  import opened UserMemory

  const MAX_ARG_SIZE: nat := 65000
  const DPI_LOOKAHEAD: nat := 16

  // PPM_SUCCESS, PPM_FAILURE_BUFFER_FULL, PPM_FAILURE_INVALID_USER_MEMORY, PPM_FAILURE_BUG and
  // PPM_SKIP_EVENT.
  datatype Code = Success | BufferFull | InvalidUserMemory | Bug | SkipEvent

  // The 64-bit value argument: a number (0 is also the null pointer), a pointer to kernel memory
  // with the bytes from it on, or a pointer to user memory with the bytes that can be read.
  datatype Val = Word(w: nat) | Kernel(bytes: seq<byte>) | User(bytes: seq<byte>)

  // What fillers hand in: numbers for numeric types, kernel strings that are terminated, kernel
  // buffers at least as long as they say.
  predicate WellTyped(k: Kind, v: Val, len: nat) {
    match k
    case Num(_) => v.Word? && v.w < TWO64
    case Str => v == Word(0) || v.User? || (v.Kernel? && 0 in v.bytes)
    case Buf => v == Word(0) || v.User? || (v.Kernel? && len <= |v.bytes|)
    case Sock => v == Word(0) || v.User? || (v.Kernel? && len <= |v.bytes|)
    case Unsupported => true
  }

  datatype Outcome = Ok(bytes: seq<byte>) | Fail(code: Code)

  // A string of length len, terminator included, in `space` bytes: the last byte of a full
  // space is always a terminator.
  function Terminated(src: seq<byte>, len: nat, space: nat): seq<byte>
    requires len <= space && len <= |src|
  {
    if len == space && space > 0 then src[..len - 1] + [0] else src[..len]
  }

  function StrBytes(v: Val, space: nat): seq<byte>
    requires WellTyped(Str, v, 0)
  {
    match v
    case Word(_) => []
    case Kernel(src) =>
      NulFound(src);
      Terminated(src, Min(NulIn(src, 0, |src|) + 1, space), space)
    case User(src) =>
      var len := ChunkLen(src, 0, space);
      if len.None? then [] else Terminated(src, len.value, space)
  }

  lemma NulFound(src: seq<byte>)
    requires 0 in src
    ensures NulIn(src, 0, |src|) < |src|
  {
    NulInIs(src, 0, |src|, NulIn(src, 0, |src|));
  }

  // How much of a buffer of len bytes a user-space copy takes: the snaplen cuts only what goes
  // beyond the lookahead bytes.
  function UserBufLen(len: nat, space: nat, snap: Option<nat>): (n: nat)
    ensures n <= len
  {
    if len <= DPI_LOOKAHEAD then len else
    Min(if snap.Some? then Min(len, snap.value) else len, space)
  }

  function BufBytes(v: Val, len: nat, space: nat, snap: Option<nat>): Outcome
    requires WellTyped(Buf, v, len)
  {
    if v == Word(0) || len == 0 then Ok([])
    else if v.User? then
      var la := Min(DPI_LOOKAHEAD, len);
      var n := UserBufLen(len, space, snap);
      if la >= space then Fail(BufferFull)
      else if |v.bytes| < Max(la, n) then Ok([])
      else Ok(v.bytes[..n])
    else
      var n := if snap.Some? then Min(len, snap.value) else len;
      if n >= space then Fail(BufferFull) else Ok(v.bytes[..n])
  }

  function SockBytes(v: Val, len: nat, space: nat): Outcome
    requires WellTyped(Sock, v, len)
  {
    if v == Word(0) then Ok([])
    else if len >= space then Fail(BufferFull)
    else if |v.bytes| < len then Ok([])
    else Ok(v.bytes[..len])
  }

  // The part of a value that a type calls for, in `space` bytes.
  function Encoded(k: Kind, v: Val, len: nat, space: nat, snap: Option<nat>): Outcome
    requires WellTyped(k, v, len)
  {
    match k
    case Str => Ok(StrBytes(v, space))
    case Buf => BufBytes(v, len, space, snap)
    case Sock => SockBytes(v, len, space)
    case Num(w) => if space >= w then Ok(ToLE(v.w, w)) else Fail(BufferFull)
    case Unsupported => Fail(Bug)
  }

  // The type a parameter entry stands for; a dynamic one is chosen by an index.
  function ChosenKind(p: ParamInfo, dynIdx: nat): Kind {
    match p
    case Plain(t) => KindOf(t)
    case Dynamic(choices) => if dynIdx < |choices| then KindOf(choices[dynIdx]) else Unsupported
  }

  // Terminating a user string in no space at all writes one byte before it, and what is there is
  // the index of a dynamic parameter.
  predicate Clobbers(k: Kind, v: Val, space: nat) {
    k.Str? && v.User? && space == 0
  }

  // A dynamic parameter: the index of the chosen type in front of the value.
  function Indexed(k: Kind, v: Val, len: nat, dynIdx: nat, space: nat, snap: Option<nat>): Outcome
    requires dynIdx < 256 && space > 0 && WellTyped(k, v, len)
  {
    var b := Encoded(k, v, len, space - 1, snap);
    if b.Fail? then b else Ok((if Clobbers(k, v, space - 1) then [0] else [dynIdx]) + b.bytes)
  }

  // val_to_ring: the whole parameter.
  function Pushed(p: ParamInfo, v: Val, len: nat, dynIdx: nat, dataSize: nat, snap: Option<nat>): Outcome
    requires dynIdx < 256 && WellTyped(ChosenKind(p, dynIdx), v, len)
  {
    if dataSize == 0 then Fail(BufferFull) else
    var max := Min(dataSize, MAX_ARG_SIZE);
    match p
    case Plain(t) => Encoded(KindOf(t), v, len, max, snap)
    case Dynamic(choices) =>
      if dynIdx >= |choices| then Fail(Bug) else Indexed(KindOf(choices[dynIdx]), v, len, dynIdx, max, snap)
  }

  // --------------------------------------------------------------------------------------
  // What the bytes are
  // --------------------------------------------------------------------------------------

  // s is the string at src in `space` bytes: a prefix of it that ends in a terminator and has no
  // other, cut only if it fills the space.
  predicate CutString(src: seq<byte>, s: seq<byte>, space: nat) {
    && 0 < |s| <= |src| && s[|s| - 1] == 0
    && (forall i | 0 <= i < |s| - 1 :: s[i] == src[i] != 0)
    && (src[|s| - 1] == 0 || |s| == space)
  }

  // A user string arrives whole or cut, or as nothing if a chunk of it cannot be read.
  lemma UserStringShape(src: seq<byte>, space: nat)
    requires space > 0
    ensures var s := StrBytes(User(src), space);
            && (s == [] || CutString(src, s, space))
            && (s == [] <==> forall len: nat :: IsStrLen(src, space, len) ==> Touched(len, space) > |src|)
  {
    var len := ChunkLen(src, 0, space);
    forall l: nat | IsStrLen(src, space, l)
      ensures len == Some(l) <==> Touched(l, space) <= |src|
    {
      ChunkedCopyExact(src, space, l);
    }
    if len.Some? {
      ChunkedCopyExact(src, space, len.value);
      assert IsStrLen(src, space, len.value) && len.value > 0;
    }
  }

  lemma KernelStringShape(src: seq<byte>, space: nat)
    requires 0 in src && space > 0
    ensures CutString(src, StrBytes(Kernel(src), space), space)
  {
    NulInIs(src, 0, |src|, NulIn(src, 0, |src|));
    NulFound(src);
  }

  // b is what a value has in front, and not longer than it is said to be.
  predicate IsCut(v: Val, b: seq<byte>, len: nat) {
    !v.Word? && b <= v.bytes && |b| <= len
  }

  // The promise of a push, whatever the type: it fits, it is what the value says cut to a
  // prefix, and its length is one the decoder allows for the type.
  lemma EncodedShape(t: ParamType, v: Val, len: nat, space: nat, snap: Option<nat>)
    requires WellTyped(KindOf(t), v, len) && Encoded(KindOf(t), v, len, space, snap).Ok?
    ensures var b := Encoded(KindOf(t), v, len, space, snap).bytes;
            && |b| <= space
            && MinLen(t).Some? && MinLen(t).value <= |b|
            && (space <= 0xFFFF ==> MaxLen(t, 2).Some? && |b| <= MaxLen(t, 2).value)
            && (KindOf(t).Num? ==> FromLE(b) == v.w % Pow256(KindOf(t).width))
            && (KindOf(t).Buf? || KindOf(t).Sock? ==> b == [] || IsCut(v, b, len))
            && (KindOf(t).Str? && space > 0 ==> b == [] || (!v.Word? && CutString(v.bytes, b, space)))
  {
    match KindOf(t)
    case Num(w) => LoadStore(v.w, w);
    case Str => StringShape(v, space);
    case Buf => BufferShape(v, len, space, snap);
    case Sock => SocketShape(v, len, space);
  }

  lemma StringShape(v: Val, space: nat)
    requires WellTyped(Str, v, 0)
    ensures |StrBytes(v, space)| <= space
    ensures space > 0 ==> StrBytes(v, space) == [] || (!v.Word? && CutString(v.bytes, StrBytes(v, space), space))
  {
    if v.User? && space > 0 {
      UserStringShape(v.bytes, space);
    } else if v.Kernel? && space > 0 {
      KernelStringShape(v.bytes, space);
    }
  }

  lemma BufferShape(v: Val, len: nat, space: nat, snap: Option<nat>)
    requires WellTyped(Buf, v, len) && BufBytes(v, len, space, snap).Ok?
    ensures var b := BufBytes(v, len, space, snap).bytes; |b| <= space && (b == [] || IsCut(v, b, len))
  {
  }

  lemma SocketShape(v: Val, len: nat, space: nat)
    requires WellTyped(Sock, v, len) && SockBytes(v, len, space).Ok?
    ensures var b := SockBytes(v, len, space).bytes; |b| <= space && (b == [] || IsCut(v, b, len))
  {
  }

  // A pushed parameter takes at least no and at most all of the space, and at most 65000 bytes,
  // so its length fits the 16-bit length entry.
  lemma PushedFits(p: ParamInfo, v: Val, len: nat, dynIdx: nat, dataSize: nat, snap: Option<nat>)
    requires dynIdx < 256 && WellTyped(ChosenKind(p, dynIdx), v, len)
    requires Pushed(p, v, len, dynIdx, dataSize, snap).Ok?
    ensures var b := Pushed(p, v, len, dynIdx, dataSize, snap).bytes;
            && |b| <= dataSize && |b| <= MAX_ARG_SIZE
            && MinLen(TypeOf(p)).Some? && MinLen(TypeOf(p)).value <= |b| <= MaxLen(TypeOf(p), 2).value
  {
    var max := Min(dataSize, MAX_ARG_SIZE);
    match p
    case Plain(t) => EncodedShape(t, v, len, max, snap);
    case Dynamic(choices) => EncodedShape(choices[dynIdx], v, len, max - 1, snap);
  }

  // The index of a dynamic parameter arrives exactly if it is 0 or the push is not a user string
  // with room for nothing but the index.
  lemma DynamicIndexArrives(choices: seq<ParamType>, v: Val, len: nat, dynIdx: nat, dataSize: nat, snap: Option<nat>)
    requires dynIdx < 256 && WellTyped(ChosenKind(Dynamic(choices), dynIdx), v, len)
    requires Pushed(Dynamic(choices), v, len, dynIdx, dataSize, snap).Ok?
    ensures Pushed(Dynamic(choices), v, len, dynIdx, dataSize, snap).bytes != []
    ensures Pushed(Dynamic(choices), v, len, dynIdx, dataSize, snap).bytes[0] == dynIdx <==>
            dynIdx == 0 || !(ChosenKind(Dynamic(choices), dynIdx).Str? && v.User? && dataSize == 1)
  {
  }

}
