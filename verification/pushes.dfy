/**
 Exactly what one push leaves, kind by kind: how much of a value is taken, when nothing is, and
 when the push is refused (driver/ppm_events.c).
 */
module Pushes {
  import opened Bytes
  import opened Params
  import opened UserMemory
  import opened Payload

  // The space that one parameter may take of what is left: all of it, but not more than 65000 bytes.
  function Space(dataSize: nat): nat {
    if dataSize < 65000 then dataSize else 65000
  }

  function PushedAs(t: ParamType, v: Val, len: nat, dataSize: nat, snap: Option<nat>): Outcome
    requires WellTyped(KindOf(t), v, len)
  {
    Pushed(Plain(t), v, len, 0, dataSize, snap)
  }

  // Whether n bytes may be taken of a buffer of len bytes.
  predicate Allows(len: nat, space: nat, snap: Option<nat>, n: nat) {
    n <= len && n <= space && (snap.Some? ==> n <= snap.value)
  }

  // n is the most that may be taken.
  predicate Most(len: nat, space: nat, snap: Option<nat>, n: nat) {
    Allows(len, space, snap, n) && !Allows(len, space, snap, n + 1)
  }

  // A buffer in user memory: refused exactly if its first 16 bytes do not fit with a byte to spare;
  // otherwise the most that the length, the space and, beyond 16 bytes, the snap length allow, or
  // nothing if that or the first 16 bytes cannot be read.
  lemma UserBuffer(src: seq<byte>, len: nat, dataSize: nat, snap: Option<nat>) returns (n: nat)
    requires len > 0 && dataSize > 0
    ensures Min(16, len) < Space(dataSize) ==> Most(len, Space(dataSize), if len > 16 then snap else None, n)
    ensures PushedAs(ByteBuf, User(src), len, dataSize, snap) ==
            if Min(16, len) >= Space(dataSize) then Fail(BufferFull)
            else if |src| >= n && |src| >= Min(16, len) then Ok(src[..n])
            else Ok([])
  {
    n := UserBufLen(len, Space(dataSize), snap);
  }

  // A buffer in kernel memory: the most that the length and the snap length allow, refused exactly if
  // that does not fit with a byte to spare.
  lemma KernelBuffer(src: seq<byte>, len: nat, dataSize: nat, snap: Option<nat>) returns (n: nat)
    requires 0 < len <= |src| && dataSize > 0
    ensures Most(len, len, snap, n)
    ensures PushedAs(ByteBuf, Kernel(src), len, dataSize, snap) ==
            if n >= Space(dataSize) then Fail(BufferFull) else Ok(src[..n])
  {
    n := if snap.Some? then Min(len, snap.value) else len;
  }

  // A socket address, a tuple or a descriptor list: refused exactly if it does not fit with a byte to
  // spare, otherwise whole, or nothing if it cannot be read.
  lemma Socket(t: ParamType, v: Val, len: nat, dataSize: nat, snap: Option<nat>)
    requires KindOf(t).Sock? && WellTyped(Sock, v, len) && !v.Word? && dataSize > 0
    ensures PushedAs(t, v, len, dataSize, snap) == Fail(BufferFull) <==> len >= Space(dataSize)
    ensures len < Space(dataSize) ==>
              PushedAs(t, v, len, dataSize, snap) == Ok(if |v.bytes| >= len then v.bytes[..len] else [])
  {
  }

  // A null pointer is an empty value, and so is a buffer without bytes.
  lemma Nothing(t: ParamType, v: Val, len: nat, dataSize: nat, snap: Option<nat>)
    requires WellTyped(KindOf(t), v, len) && dataSize > 0
    requires KindOf(t).Str? || KindOf(t).Buf? || KindOf(t).Sock?
    requires v == Word(0) || (KindOf(t).Buf? && len == 0)
    ensures PushedAs(t, v, len, dataSize, snap) == Ok([])
  {
  }

  // A number: its low bytes, refused exactly if they do not fit.
  lemma Number(t: ParamType, w: nat, dynIdx: nat, len: nat, dataSize: nat, snap: Option<nat>)
    requires KindOf(t).Num? && w < TWO64 && dynIdx < 256
    ensures var out := Pushed(Plain(t), Word(w), len, dynIdx, dataSize, snap);
            && (KindOf(t).width > dataSize ==> out == Fail(BufferFull))
            && (KindOf(t).width <= dataSize ==>
                  out.Ok? && |out.bytes| == KindOf(t).width && FromLE(out.bytes) == w % Pow256(KindOf(t).width))
  {
    LoadStore(w, KindOf(t).width);
  }

  // A string is never refused while there is space: it arrives whole or cut to the space with a
  // terminator; from user memory it may also arrive as nothing, exactly if a chunk cannot be read.
  lemma Text(t: ParamType, v: Val, len: nat, dataSize: nat, snap: Option<nat>)
    requires KindOf(t).Str? && WellTyped(Str, v, len) && !v.Word? && dataSize > 0
    ensures var out := PushedAs(t, v, len, dataSize, snap);
            && out.Ok? && |out.bytes| <= Space(dataSize)
            && (out.bytes == [] || CutString(v.bytes, out.bytes, Space(dataSize)))
            && (out.bytes == [] <==>
                  v.User? && forall l: nat :: IsStrLen(v.bytes, Space(dataSize), l) ==>
                                               Touched(l, Space(dataSize)) > |v.bytes|)
  {
    StringShape(v, Space(dataSize));
    if v.User? {
      UserStringShape(v.bytes, Space(dataSize));
    } else {
      KernelStringShape(v.bytes, Space(dataSize));
    }
  }

  // There is only one way to cut a string to a space.
  lemma CutOnce(src: seq<byte>, a: seq<byte>, b: seq<byte>, space: nat)
    requires CutString(src, a, space) && CutString(src, b, space) && |a| <= space && |b| <= space
    ensures a == b
  {
    CutNotShorter(src, a, b, space);
    CutNotShorter(src, b, a, space);
    assert forall i :: 0 <= i < |a| - 1 ==> a[i] == src[i] == b[i];
  }

  lemma CutNotShorter(src: seq<byte>, a: seq<byte>, b: seq<byte>, space: nat)
    requires CutString(src, a, space) && CutString(src, b, space) && |b| <= space
    ensures |b| <= |a|
  {
    assert forall i | 0 <= i < |b| - 1 :: src[i] == b[i] != 0;
    assert src[|a| - 1] == 0 || |a| == space;
  }

  // Without space everything is refused; a type that is not handled always is.
  lemma Refused(p: ParamInfo, v: Val, len: nat, dynIdx: nat, dataSize: nat, snap: Option<nat>)
    requires dynIdx < 256 && WellTyped(ChosenKind(p, dynIdx), v, len)
    ensures dataSize == 0 ==> Pushed(p, v, len, dynIdx, dataSize, snap) == Fail(BufferFull)
    ensures dataSize > 0 && ChosenKind(p, dynIdx).Unsupported? ==>
              Pushed(p, v, len, dynIdx, dataSize, snap) == Fail(Bug)
  {
  }

  // A dynamic parameter is its index and then what the chosen type leaves in the space behind it.
  lemma Indexes(choices: seq<ParamType>, v: Val, len: nat, dynIdx: nat, dataSize: nat, snap: Option<nat>)
    requires dynIdx < |choices| && dynIdx < 256 && WellTyped(KindOf(choices[dynIdx]), v, len) && dataSize > 1
    ensures Pushed(Dynamic(choices), v, len, dynIdx, dataSize, snap) ==
            match PushedAs(choices[dynIdx], v, len, Space(dataSize) - 1, snap)
            case Ok(b) => Ok([dynIdx] + b)
            case Fail(code) => Fail(code)
  {
  }
}
