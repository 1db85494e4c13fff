/**
 Parameter types, the lengths the decoder allows for each of them, and how the serializer
 treats them.
 */
module Params {
  import opened Bytes

  // enum ppm_param_type.
  datatype ParamType =
    | NoType | Int8 | Int16 | Int32 | Int64 | UInt8 | UInt16 | UInt32 | UInt64
    | CharBuf | ByteBuf | Errno | SockAddr | SockTuple | Fd | Pid | FdList | FsPath
    | SyscallId | SigType | RelTime | AbsTime | Port | L4Proto | SockFamily | Bool
    | Ipv4Addr | Dyn | Flags8 | Flags16 | Flags32 | Uid | Gid | Double | SigSet
    | CharBufArray | CharBufPairArray | Ipv4Net | Ipv6Addr | Ipv6Net | IpAddr | IpNet
    | Mode | FsRelPath | EnumFlags8 | EnumFlags16 | EnumFlags32 | Fd32 | Pid32

  // The widths of the fixed-size types, as the length helpers list them.
  function FixedWidth(t: ParamType): Option<nat> {
    match t
    case Int8 | UInt8 | Flags8 | EnumFlags8 | SigType => Some(1)
    case Int16 | UInt16 | Flags16 | EnumFlags16 | SyscallId | Port => Some(2)
    case Int32 | UInt32 | Flags32 | EnumFlags32 | Uid | Gid | Mode | SigSet | Fd32 | Pid32 | Ipv4Addr => Some(4)
    case Int64 | UInt64 | RelTime | AbsTime | Errno | Fd | Pid => Some(8)
    case Ipv6Addr => Some(16)
    case _ => None
  }

  predicate VariableLength(t: ParamType) {
    match t
    case ByteBuf | CharBuf | SockTuple | FdList | FsPath | CharBufArray | CharBufPairArray
       | FsRelPath | Dyn | SockAddr => true
    case _ => false
  }

  // ppm_param_min_len_from_type; None is its error.
  function MinLen(t: ParamType): Option<nat> {
    if FixedWidth(t).Some? then FixedWidth(t) else if VariableLength(t) then Some(0) else None
  }

  // ppm_param_max_len_from_type for 2-byte or 4-byte length entries; None is its error.
  function MaxLen(t: ParamType, lenSize: nat): Option<nat> {
    if lenSize != 2 && lenSize != 4 then None
    else if FixedWidth(t).Some? then FixedWidth(t)
    else if VariableLength(t) then Some(if lenSize == 2 then 0xFFFF else 0xFFFF_FFFF)
    else None
  }

  // The branches of the switch in val_to_ring.
  datatype Kind = Str | Buf | Sock | Num(width: nat) | Unsupported

  function KindOf(t: ParamType): (k: Kind)
    ensures k.Num? ==> k.width in {1, 2, 4, 8} && MinLen(t) == MaxLen(t, 2) == Some(k.width)
    ensures k.Str? || k.Buf? || k.Sock? ==> MinLen(t) == Some(0) && MaxLen(t, 2) == Some(0xFFFF)
  {
    match t
    case CharBuf | FsPath | FsRelPath => Str
    case ByteBuf => Buf
    case SockAddr | SockTuple | FdList => Sock
    case Flags8 | EnumFlags8 | UInt8 | SigType | Int8 => Num(1)
    case Flags16 | EnumFlags16 | UInt16 | SyscallId | Int16 => Num(2)
    case Flags32 | UInt32 | Mode | Uid | Gid | SigSet | EnumFlags32 | Int32 => Num(4)
    case RelTime | AbsTime | UInt64 | Int64 | Errno | Fd | Pid => Num(8)
    case _ => Unsupported
  }

  // The serializer handles every type whose lengths the helpers know, except eight; three of them as
  // strings and one as a byte buffer.
  lemma Handled(t: ParamType)
    ensures KindOf(t).Unsupported? <==>
            MinLen(t).None? || t in {Port, Fd32, Pid32, Ipv4Addr, Ipv6Addr, CharBufArray, CharBufPairArray, Dyn}
    ensures KindOf(t).Str? <==> t in {CharBuf, FsPath, FsRelPath}
    ensures KindOf(t).Buf? <==> t == ByteBuf
  {
  }

  // An entry of an event's parameter table: a plain type, or a dynamic parameter whose type is
  // one of several, named by an index that is sent along.
  datatype ParamInfo = Plain(ty: ParamType) | Dynamic(choices: seq<ParamType>)

  function TypeOf(p: ParamInfo): ParamType {
    if p.Plain? then p.ty else Dyn
  }
}
