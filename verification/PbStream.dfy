/** nanopb's memory streams. */
module PbStream {
  import opened Wrappers
  import opened Bits
  import opened PbVarint
  import opened PbSchema
  import opened PbFormat

  /** pb_istream_t over a memory buffer: a cursor and the bytes it may still read. A substream
      reads the same buffer, so its limit lies before the end of the buffer. */
  class IStream {
    const source: seq<byte>
    var state: nat
    var bytesLeft: nat

    ghost predicate Valid()
      reads this
    {
      state + bytesLeft <= |source|
    }

    /** The bytes still to be read. */
    ghost function View(): (s: seq<byte>)
      requires Valid()
      reads this
      ensures |s| == bytesLeft
    {
      source[state..state + bytesLeft]
    }

    /** Where the bytes still to be read end; no reader moves it. */
    ghost function End(): nat
      reads this
    {
      state + bytesLeft
    }

    constructor (source: seq<byte>)
      ensures Valid() && this.source == source && View() == source
    {
      this.source := source;
      state, bytesLeft := 0, |source|;
    }

    /** A stream over part of another one's buffer. */
    constructor Sub(source: seq<byte>, state: nat, bytesLeft: nat)
      ensures this.source == source && this.state == state && this.bytesLeft == bytesLeft
    {
      this.source, this.state, this.bytesLeft := source, state, bytesLeft;
    }

    /** Reads exactly count bytes, or nothing. */
    method Read(count: nat) returns (ok: bool, data: seq<byte>)
      requires Valid()
      modifies this
      ensures Valid() && End() == old(End())
      ensures ok == (count <= old(bytesLeft))
      ensures ok ==> data == old(View())[..count] && View() == old(View())[count..]
      ensures !ok ==> bytesLeft == old(bytesLeft)
    {
      if bytesLeft < count {
        return false, [];
      }
      data := source[state..state + count];
      state := state + count;
      bytesLeft := bytesLeft - count;
      ok := true;
    }

    method ReadByte() returns (ok: bool, b: byte)
      requires Valid()
      modifies this
      ensures Valid() && End() == old(End())
      ensures ok == (old(View()) != [])
      ensures ok ==> b == old(View())[0] && View() == old(View())[1..]
    {
      if bytesLeft == 0 {
        return false, 0;
      }
      b := source[state];
      state := state + 1;
      bytesLeft := bytesLeft - 1;
      ok := true;
    }
  }

  /** What a reader reports agrees with what the wire format says is there. */
  ghost predicate Agrees<T>(p: Parsed<T>, ok: bool, value: T, left: seq<byte>) {
    if ok then p == Ok(value, left) else p.Err?
  }

  /** pb_ostream_t: a memory buffer with a write position and a limit, or, without a buffer,
      a counter of the bytes that would be written. */
  class OStream {
    const buf: array?<byte>
    var state: nat
    var maxSize: nat
    var bytesWritten: nat

    ghost predicate Valid()
      reads this
    {
      buf != null ==> bytesWritten <= maxSize && state + (maxSize - bytesWritten) <= buf.Length
    }

    ghost function Now(): Window
      requires Valid()
      reads this, buf
    {
      if buf == null then Window(true, [], [], bytesWritten, maxSize)
      else Window(false, buf[..state], buf[state + (maxSize - bytesWritten)..], bytesWritten, maxSize)
    }

    constructor Sizing()
      ensures Valid() && buf == null && bytesWritten == 0
    {
      buf := null;
      state, maxSize, bytesWritten := 0, 0, 0;
    }

    constructor FromBuffer(buf: array<byte>)
      ensures Valid() && this.buf == buf && maxSize == buf.Length && bytesWritten == 0 && state == 0
    {
      this.buf := buf;
      state, maxSize, bytesWritten := 0, buf.Length, 0;
    }

    constructor Sub(buf: array<byte>, state: nat, maxSize: nat)
      requires state + maxSize <= buf.Length
      ensures Valid() && this.buf == buf && this.state == state && this.maxSize == maxSize && bytesWritten == 0
    {
      this.buf := buf;
      this.state, this.maxSize, bytesWritten := state, maxSize, 0;
    }

    method Write(data: seq<byte>) returns (ok: bool)
      requires Valid()
      modifies this, buf
      ensures Valid() && Step(old(Now()), Some(data), ok, Now())
    {
      if buf != null {
        if bytesWritten + |data| > maxSize {
          return false;
        }
        var i := 0;
        while i < |data|
          modifies buf
          invariant i <= |data|
          invariant buf[..state + i] == old(buf[..state]) + data[..i]
          invariant buf[state + |data|..] == old(buf[..])[state + |data|..]
        {
          buf[state + i] := data[i];
          i := i + 1;
        }
        assert data[..i] == data;
        state := state + |data|;
        assert state + (maxSize - (bytesWritten + |data|)) == old(state + (maxSize - bytesWritten));
      }
      bytesWritten := bytesWritten + |data|;
      return true;
    }

    /** Writing from no data at all, which is only done to count. */
    method Count(size: nat)
      requires buf == null
      modifies this
      ensures Valid() && bytesWritten == old(bytesWritten) + size && maxSize == old(maxSize)
    {
      bytesWritten := bytesWritten + size;
    }
  }

  /** What a stream has written: the buffer before the write position and after the limit. */
  datatype Window = Window(counting: bool, out: seq<byte>, beyond: seq<byte>, written: nat, max: nat)

  /** What any encoding step does to a stream when it is to write e. It succeeds exactly if
      there is something to write and it fits; then precisely that is appended. Whether or not
      it succeeds, nothing before the old write position or after the limit is touched. */
  ghost predicate Step(w: Window, e: Option<seq<byte>>, ok: bool, w': Window) {
    && w'.counting == w.counting && w'.max == w.max && w'.beyond == w.beyond && w.out <= w'.out
    && (ok <==> e.Some? && (!w.counting ==> w.written + |e.value| <= w.max))
    && (ok ==> w'.written == w.written + |e.value|)
    && (ok && !w.counting ==> w'.out == w.out + e.value)
  }

  /** One step after another writes one encoding after the other. */
  lemma Steps(w: Window, a: seq<byte>, w1: Window, e: Option<seq<byte>>, ok: bool, w2: Window)
    requires Step(w, Some(a), true, w1) && Step(w1, e, ok, w2)
    ensures Step(w, Join(Some(a), e), ok, w2)
  {
    if e.Some? {
      assert (w.out + a) + e.value == w.out + (a + e.value);
    }
  }

  /** If the first of two steps fails, so does their sequence. */
  lemma Fails(w: Window, a: Option<seq<byte>>, e: Option<seq<byte>>, w1: Window)
    requires Step(w, a, false, w1)
    ensures Step(w, Join(a, e), false, w1)
  {
  }

  lemma Nothing(w: Window, e: Option<seq<byte>>)
    requires w.counting || w.written <= w.max
    ensures Step(w, Some([]), true, w) && Join(Some([]), e) == e && Join(e, Some([])) == e
  {
    assert w.out + [] == w.out;
    if e.Some? {
      assert [] + e.value == e.value && e.value + [] == e.value;
    }
  }

  lemma JoinAssociative(a: Option<seq<byte>>, b: Option<seq<byte>>, c: Option<seq<byte>>)
    ensures Join(a, Join(b, c)) == Join(Join(a, b), c)
  {
    if a.Some? && b.Some? && c.Some? {
      assert a.value + (b.value + c.value) == (a.value + b.value) + c.value;
    }
  }
}
