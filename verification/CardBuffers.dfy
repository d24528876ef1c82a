/** The generated skeleton's bounds-checked writes into card buffers (CounterSkeleton.java.golden). */
module CardBuffers {
  import opened Wrappers
  import opened CounterState

  /** `s` with the bytes from `at` on replaced by `bytes`. */
  function Splice(s: Bytes, at: nat, bytes: Bytes): (r: Bytes)
    requires at + |bytes| <= |s|
    ensures |r| == |s|
  {
    s[..at] + bytes + s[at + |bytes|..]
  }

  // Writing one span after the other writes their concatenation.
  lemma SpliceSplice(s: Bytes, at: nat, first: Bytes, second: Bytes)
    requires at + |first| + |second| <= |s|
    ensures Splice(Splice(s, at, first), at + |first|, second) == Splice(s, at, first + second)
  {
  }

  // The two bytes of a short, high byte first.
  function U16(value: short): Bytes {
    [value / 256 % 256, value % 256]
  }

  // The four bytes of an int, the highest first.
  function U32(value: int): Bytes {
    [value / 0x100_0000 % 256, value / 0x1_0000 % 256, value / 0x100 % 256, value % 256]
  }

  function Bit(value: bool): byte {
    if value then 1 else 0
  }

  // None is the wrong-length failure, thrown before anything is written.
  method PackU8(buf: array<byte>, off: int, value: byte) returns (next: Option<nat>)
    modifies buf
    ensures next == if 0 <= off < buf.Length then Some(off + 1) else None
    ensures buf[..] == if next.Some? then Splice(old(buf[..]), off, [value]) else old(buf[..])
  {
    if off < 0 || off >= buf.Length {
      return None;
    }
    buf[off] := value;
    assert buf[..] == Splice(old(buf[..]), off, [value]);
    return Some(off + 1);
  }

  method PackBool(buf: array<byte>, off: int, value: bool) returns (next: Option<nat>)
    modifies buf
    ensures next == if 0 <= off < buf.Length then Some(off + 1) else None
    ensures buf[..] == if next.Some? then Splice(old(buf[..]), off, [Bit(value)]) else old(buf[..])
  {
    next := PackU8(buf, off, Bit(value));
  }

  method PackU16(buf: array<byte>, off: int, value: short) returns (next: Option<nat>)
    modifies buf
    ensures next == if 0 <= off && off + 2 <= buf.Length then Some(off + 2) else None
    ensures buf[..] == if next.Some? then Splice(old(buf[..]), off, U16(value)) else old(buf[..])
  {
    if off < 0 || off > buf.Length || 2 > buf.Length - off {
      return None;
    }
    buf[off], buf[off + 1] := value / 256 % 256, value % 256;
    assert buf[..] == Splice(old(buf[..]), off, U16(value));
    return Some(off + 2);
  }

  method PackU32(buf: array<byte>, off: int, value: int) returns (next: Option<nat>)
    modifies buf
    ensures next == if 0 <= off && off + 4 <= buf.Length then Some(off + 4) else None
    ensures buf[..] == if next.Some? then Splice(old(buf[..]), off, U32(value)) else old(buf[..])
  {
    if off < 0 || off > buf.Length || 4 > buf.Length - off {
      return None;
    }
    buf[off], buf[off + 1] := value / 0x100_0000 % 256, value / 0x1_0000 % 256;
    buf[off + 2], buf[off + 3] := value / 0x100 % 256, value % 256;
    assert buf[..] == Splice(old(buf[..]), off, U32(value));
    return Some(off + 4);
  }

  // Byte by byte, from the end that keeps an overlapping source intact until it is read.
  method CopyBytes(src: array<byte>, srcOff: nat, dst: array<byte>, dstOff: nat, len: nat)
    requires srcOff + len <= src.Length && dstOff + len <= dst.Length
    modifies dst
    ensures dst[..] == Splice(old(dst[..]), dstOff, old(src[srcOff..srcOff + len]))
  {
    ghost var bytes, before := src[srcOff..srcOff + len], dst[..];
    if src == dst && dstOff > srcOff && dstOff - srcOff < len {
      CopyBackward(dst, srcOff, dstOff, len);
    } else {
      CopyForward(src, srcOff, dst, dstOff, len);
    }
    assert dst[..] == Splice(before, dstOff, bytes);
  }

  method CopyBackward(buf: array<byte>, srcOff: nat, dstOff: nat, len: nat)
    requires srcOff < dstOff && dstOff + len <= buf.Length
    modifies buf
    ensures forall k | 0 <= k < buf.Length ::
              buf[k] == if dstOff <= k < dstOff + len then old(buf[k - dstOff + srcOff]) else old(buf[k])
  {
    var i := len;
    while i > 0
      invariant 0 <= i <= len
      invariant forall k | 0 <= k < buf.Length ::
                  buf[k] == if dstOff + i <= k < dstOff + len then old(buf[k - dstOff + srcOff]) else old(buf[k])
    {
      i := i - 1;
      buf[dstOff + i] := buf[srcOff + i];
    }
  }

  method CopyForward(src: array<byte>, srcOff: nat, dst: array<byte>, dstOff: nat, len: nat)
    requires srcOff + len <= src.Length && dstOff + len <= dst.Length
    requires src == dst ==> dstOff <= srcOff || srcOff + len <= dstOff
    modifies dst
    ensures forall k | 0 <= k < dst.Length ::
              dst[k] == if dstOff <= k < dstOff + len then old(src[k - dstOff + srcOff]) else old(dst[k])
  {
    for i := 0 to len
      invariant forall k | 0 <= k < dst.Length ::
                  dst[k] == if dstOff <= k < dstOff + i then old(src[k - dstOff + srcOff]) else old(dst[k])
    {
      dst[dstOff + i] := src[srcOff + i];
    }
  }

  method PackBytes(dst: array<byte>, dstOff: int, src: array<byte>, srcOff: int, srcLen: int)
    returns (next: Option<nat>)
    modifies dst
    ensures next == if && 0 <= srcLen && 0 <= dstOff && dstOff + srcLen <= dst.Length
                       && 0 <= srcOff && srcOff + srcLen <= src.Length
                    then Some(dstOff + srcLen) else None
    ensures dst[..] == if next.None? then old(dst[..])
                       else Splice(old(dst[..]), dstOff, old(src[srcOff..srcOff + srcLen]))
  {
    if srcLen < 0 || dstOff < 0 || srcOff < 0 || dstOff > dst.Length || srcOff > src.Length
       || srcLen > dst.Length - dstOff || srcLen > src.Length - srcOff {
      return None;
    }
    CopyBytes(src, srcOff, dst, dstOff, srcLen);
    return Some(dstOff + srcLen);
  }

  // The packers as they are used to build a reply: `written` bytes stand at `start` over what the
  // buffer held `before`, and the next ones follow if there is room for them.
  ghost predicate Stands(buf: array<byte>, before: Bytes, start: nat, written: Bytes)
    reads buf
  {
    start + |written| <= |before| && buf[..] == Splice(before, start, written)
  }

  method AppendU8(buf: array<byte>, off: nat, value: byte,
                  ghost before: Bytes, ghost start: nat, ghost written: Bytes)
    returns (next: Option<nat>)
    requires Stands(buf, before, start, written) && off == start + |written|
    modifies buf
    ensures next == if off < buf.Length then Some(off + 1) else None
    ensures Stands(buf, before, start, if next.Some? then written + [value] else written)
  {
    next := PackU8(buf, off, value);
    if next.Some? {
      SpliceSplice(before, start, written, [value]);
    }
  }

  method AppendBool(buf: array<byte>, off: nat, value: bool,
                    ghost before: Bytes, ghost start: nat, ghost written: Bytes)
    returns (next: Option<nat>)
    requires Stands(buf, before, start, written) && off == start + |written|
    modifies buf
    ensures next == if off < buf.Length then Some(off + 1) else None
    ensures Stands(buf, before, start, if next.Some? then written + [Bit(value)] else written)
  {
    next := PackBool(buf, off, value);
    if next.Some? {
      SpliceSplice(before, start, written, [Bit(value)]);
    }
  }

  method AppendU16(buf: array<byte>, off: nat, value: short,
                   ghost before: Bytes, ghost start: nat, ghost written: Bytes)
    returns (next: Option<nat>)
    requires Stands(buf, before, start, written) && off == start + |written|
    modifies buf
    ensures next == if off + 2 <= buf.Length then Some(off + 2) else None
    ensures Stands(buf, before, start, if next.Some? then written + U16(value) else written)
  {
    next := PackU16(buf, off, value);
    if next.Some? {
      SpliceSplice(before, start, written, U16(value));
    }
  }

  // Two bytes for which there is room.
  method AppendTwo(buf: array<byte>, off: nat, first: byte, second: byte,
                   ghost before: Bytes, ghost start: nat, ghost written: Bytes)
    returns (next: nat)
    requires Stands(buf, before, start, written) && off == start + |written| && off + 2 <= buf.Length
    modifies buf
    ensures next == off + 2 && Stands(buf, before, start, written + [first, second])
  {
    var one := AppendU8(buf, off, first, before, start, written);
    var two := AppendU8(buf, one.value, second, before, start, written + [first]);
    assert written + [first] + [second] == written + [first, second];
    return two.value;
  }

  method AppendBytes(buf: array<byte>, off: nat, src: array<byte>, srcOff: nat, srcLen: nat,
                     ghost before: Bytes, ghost start: nat, ghost written: Bytes)
    returns (next: nat)
    requires Stands(buf, before, start, written) && off == start + |written| && off + srcLen <= buf.Length
    requires srcOff + srcLen <= src.Length
    modifies buf
    ensures next == off + srcLen && Stands(buf, before, start, written + old(src[srcOff..srcOff + srcLen]))
  {
    ghost var bytes := src[srcOff..srcOff + srcLen];
    var packed := PackBytes(buf, off, src, srcOff, srcLen);
    SpliceSplice(before, start, written, bytes);
    return packed.value;
  }
}
