/** SSLBuffer: an aligned buffer with 16-bit offset, size and capacity. */
module TlsBuffer {
  import opened Bits

  const ALIGN: nat := 8
  const MAX_CAP: nat := 0xFFFF
  /** The largest request after which the offset cannot go wrong: at 7, the worst alignment, the
      buffer then ends where 16 bits do. */
  const SAFE_CAP: nat := 65529

  class SSLBuffer {
    var mem: array?<byte>
    var offset: nat
    var size: nat
    var cap: nat

    ghost predicate Valid()
      reads this, mem
    {
      && size <= cap <= MAX_CAP && offset <= 0xFFFF
      && (mem == null ==> offset == size == cap == 0)
      && (mem != null ==> offset + cap <= mem.Length)
    }

    /** The offset cannot wrap while anything is left: if it does, then to 0 in an empty buffer. */
    predicate Safe()
      reads this`offset, this`cap
    {
      offset + cap <= 0x1_0000
    }

    ghost function Contents(): (s: seq<byte>)
      requires Valid()
      reads this, mem
      ensures |s| == size
    {
      if mem == null then [] else mem[offset..offset + size]
    }

    constructor ()
      ensures Valid() && Safe() && mem == null && Contents() == []
    {
      mem, offset, size, cap := null, 0, 0, 0;
    }

    method Clear()
      modifies this
      ensures Valid() && Safe() && mem == null && Contents() == []
    {
      mem, offset, size, cap := null, 0, 0, 0;
    }

    /** Grows the buffer, placing its start so that what follows a header is aligned. Where the
        new memory lies is up to the allocator, which may also fail. */
    method EnsureCap(headerLen: nat, newCap: nat, granted: bool, address: nat) returns (ok: bool)
      requires Valid()
      modifies this
      ensures Valid() && Contents() == old(Contents()) && (mem == old(mem) || fresh(mem))
      ensures ok ==> cap >= newCap
      ensures newCap <= MAX_CAP && granted ==> ok
      ensures newCap > MAX_CAP ==> !ok
      ensures Safe() <==>
                if !ok || old(cap) >= newCap then old(Safe()) else Alignment(headerLen, address) + newCap <= 0x1_0000
      ensures if ok && old(cap) < newCap then
                fresh(mem) && mem.Length == newCap + ALIGN - 1 && offset == Alignment(headerLen, address)
                  && cap == newCap
              else mem == old(mem) && offset == old(offset) && cap == old(cap)
      ensures size == old(size)
    {
      hide Alignment;
      if newCap > 0xFFFF {
        return false;
      }
      if cap >= newCap {
        return true;
      }
      if !granted {
        return false;
      }
      var newMem := new byte[newCap + ALIGN - 1](_ => 0);
      var newOffset := Alignment(headerLen, address);
      if mem != null {
        CopyBytes(newMem, newOffset, mem, offset, size);
      }
      mem, offset, cap := newMem, newOffset, newCap;
      return true;
    }

    /** Writes into the space remaining and takes note of it. */
    method Append(data: seq<byte>)
      requires Valid() && |data| <= cap - size
      modifies this`size, mem
      ensures Valid() && Contents() == old(Contents()) + data && (Safe() <==> old(Safe()))
      ensures size == old(size) + |data|
      ensures mem != null ==> mem[..] == Filled(old(mem[..]), old(offset + size), data)
    {
      hide Safe;
      if data != [] {
        forall i | 0 <= i < |data| {
          mem[offset + size + i] := data[i];
        }
        assert mem[offset..offset + size + |data|] == old(Contents()) + data;
      }
      assert mem != null ==> mem[..] == Filled(old(mem[..]), old(offset + size), data);
      size := size + |data|;
    }

    /** Takes len bytes off the front. The offset is kept on 16 bits; if it wraps in a buffer that is
        not emptied, what is left is read from the wrong place. */
    method Consume(len: nat)
      requires Valid() && len <= size
      modifies this`offset, this`size, this`cap
      ensures Valid() && size == old(size) - len && cap == old(cap) - len && offset == Word(old(offset) + len)
      ensures old(offset) + len <= 0xFFFF || len == old(size) ==> Contents() == old(Contents())[len..]
      ensures old(Safe()) ==> Safe() && Contents() == old(Contents())[len..]
      ensures mem == null || Contents() == mem[offset..offset + size]
    {
      offset := Word(offset + len);
      size := size - len;
      cap := cap - len;
    }

    method DiscardConsumed()
      requires Valid()
      modifies this
      ensures Valid() && Contents() == old(Contents()) && (old(Safe()) ==> Safe())
    {
      if size == 0 {
        Clear();
      }
    }
  }

  /** OPENSSL_memcpy. */
  method CopyBytes(dst: array<byte>, to: nat, src: array<byte>, from: nat, n: nat)
    requires dst != src && to + n <= dst.Length && from + n <= src.Length
    modifies dst
    ensures dst[to..to + n] == src[from..from + n]
  {
    forall i | 0 <= i < n {
      dst[to + i] := src[from + i];
    }
    ghost var copied, whole := dst[to..to + n], src[from..from + n];
    assert forall i :: 0 <= i < n ==> copied[i] == dst[to + i] == src[from + i] == whole[i];
    assert copied == whole;
  }

  /** Kept on 16 bits. */
  function Word(n: nat): (r: nat)
    ensures r <= 0xFFFF && (n <= 0xFFFF ==> r == n)
  {
    n % 0x1_0000
  }

  /** (0 - headerLen - address) & (ALIGN - 1). */
  function Alignment(headerLen: nat, address: nat): (n: nat)
    ensures n < ALIGN
  {
    (0 - headerLen - address) % 8
  }

  /** The memory with data written at an offset. */
  function Filled(memory: seq<byte>, offset: nat, data: seq<byte>): (s: seq<byte>)
    requires offset + |data| <= |memory|
    ensures |s| == |memory|
  {
    memory[..offset] + data + memory[offset + |data|..]
  }

  /** What a buffer gives out that had `memory` when it was empty, was filled from `offset` on with
      data and had n bytes consumed. */
  function Rest(memory: seq<byte>, offset: nat, data: seq<byte>, n: nat): seq<byte>
    requires offset + |data| <= |memory| && n <= |data| && offset < ALIGN
  {
    var next := Word(offset + n);
    Filled(memory, offset, data)[next..next + |data| - n]
  }

  /** A new buffer with newCap bytes of room. */
  method NewBuffer(headerLen: nat, newCap: nat, address: nat) returns (b: SSLBuffer)
    requires 0 < newCap <= MAX_CAP
    ensures fresh(b) && b.Valid() && b.size == 0 && b.cap == newCap
    ensures b.offset == Alignment(headerLen, address)
    ensures b.mem != null && fresh(b.mem) && b.mem.Length == newCap + ALIGN - 1
  {
    b := new SSLBuffer();
    var ok := b.EnsureCap(headerLen, newCap, true, address);
  }

  /** Filled and partly consumed, it gives out just that. */
  method FillAndConsume(b: SSLBuffer, data: seq<byte>, n: nat)
    requires b.Valid() && b.mem != null && b.size == 0 && |data| <= b.cap && n <= |data| && b.offset < ALIGN
    modifies b, b.mem
    ensures b.Valid() && b.size == |data| - n
    ensures b.Contents() == Rest(old(b.mem[..]), old(b.offset), data, n)
  {
    hide SSLBuffer.Contents, SSLBuffer.Safe, Word, Filled;
    b.Append(data);
    ghost var filled := b.mem[..];
    b.Consume(n);
    assert b.Contents() == filled[b.offset..b.offset + b.size];
  }

  ghost predicate AlwaysRight(headerLen: nat, newCap: nat, memory: seq<byte>)
    requires |memory| == newCap + ALIGN - 1
  {
    forall address: nat, data: seq<byte>, n: nat | |data| <= newCap && n <= |data| ::
      Rest(memory, Alignment(headerLen, address), data, n) == data[n..]
  }

  /** Whatever the memory held, a granted request gives out the right bytes for every placement,
      filling and consumption exactly if it is at most 65529. */
  lemma {:induction false} RightIffAtMost(headerLen: nat, newCap: nat, memory: seq<byte>)
    requires newCap <= MAX_CAP && |memory| == newCap + ALIGN - 1
    ensures AlwaysRight(headerLen, newCap, memory) <==> newCap <= SAFE_CAP
  {
    hide Rest, Alignment;
    if newCap <= SAFE_CAP {
      forall address: nat, data: seq<byte>, n: nat | |data| <= newCap && n <= |data|
        ensures Rest(memory, Alignment(headerLen, address), data, n) == data[n..]
      {
        RightBelow(memory, Alignment(headerLen, address), data, n);
      }
    } else {
      var address, data := WrongAbove(headerLen, newCap, memory);
      assert !AlwaysRight(headerLen, newCap, memory);
    }
  }

  lemma RightBelow(memory: seq<byte>, offset: nat, data: seq<byte>, n: nat)
    requires offset < ALIGN && |data| <= SAFE_CAP && n <= |data| && offset + |data| <= |memory|
    ensures Rest(memory, offset, data, n) == data[n..]
  {
    if offset + n == 0x1_0000 {
      assert n == |data|;
    }
  }

  /** At offset 7 byte 65529 of the data is followed by what lies before the buffer. */
  lemma {:induction false} WrongAbove(headerLen: nat, newCap: nat, memory: seq<byte>)
    returns (address: nat, data: seq<byte>)
    requires SAFE_CAP < newCap <= MAX_CAP && |memory| == newCap + ALIGN - 1
    ensures |data| == newCap && Rest(memory, Alignment(headerLen, address), data, SAFE_CAP) != data[SAFE_CAP..]
  {
    hide Rest, Alignment, Filled;
    address := WorstAddress(headerLen);
    var other: byte := if memory[0] == 0 then 1 else 0;
    data := seq(newCap, i => other);
    ReadsBefore(memory, data);
  }

  lemma ReadsBefore(memory: seq<byte>, data: seq<byte>)
    requires SAFE_CAP < |data| && 7 + |data| <= |memory| && data[SAFE_CAP] != memory[0]
    ensures Rest(memory, 7, data, SAFE_CAP) != data[SAFE_CAP..]
  {
    assert Rest(memory, 7, data, SAFE_CAP)[0] == memory[0];
  }

  lemma WorstIsOne()
    ensures Alignment(0, 1) == 7
  {
  }

  lemma WorstAddress(headerLen: nat) returns (address: nat)
    ensures Alignment(headerLen, address) == 7
  {
    address := (8 - headerLen % 8) % 8 + 1;
  }

  /** The smallest such request, on the buffer itself: it is granted, and after 65529 of its 65530
      bytes are consumed the buffer gives out a byte that was never appended. */
  method OffsetWraps() returns (b: SSLBuffer, data: seq<byte>)
    ensures fresh(b) && b.Valid() && |data| == 65530 && b.size == 1 && b.Contents() != data[65529..]
  {
    hide SSLBuffer.Valid, SSLBuffer.Contents, Rest, Alignment;
    b := NewBuffer(0, 65530, 1);
    WorstIsOne();
    ghost var memory := b.mem[..];
    var other: byte := if b.mem[0] == 0 then 1 else 0;
    data := seq(65530, i => other);
    FillAndConsume(b, data, 65529);
    ReadsBefore(memory, data);
  }
}
