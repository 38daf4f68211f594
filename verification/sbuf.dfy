/** The growable byte buffer of libnv's string-buffer shim (libsbuf.c):
    a heap buffer `s_buf` of capacity `s_size` holding `s_len` bytes. */
module Sbuf {
  import opened Common

  /** Capacity given by `sbuf_new_auto` and restored by `sbuf_clear`. */
  const AutoSize: nat := 1024

  /** `sizeof(int)`: the number of bytes `sbuf_putc` appends. */
  const IntSize: nat := 4

  /** The capacity `sbuf_bcat` and `sbuf_bcpy` grow to as written: a single
      doubling whenever the bytes needed exceed the capacity. */
  function GrowOnceAsWritten(size: nat, need: nat): nat {
    if need > size then 2 * size else size
  }

  /** As written, the single doubling leaves the buffer too small exactly
      when more than twice the old capacity is needed; the copy that follows
      then writes past the end of the allocation. */
  lemma GrowOnceAsWrittenOverflows(size: nat, need: nat)
    ensures GrowOnceAsWritten(size, need) < need <==> need > 2 * size
  {
  }

  /** One request that overflows: appending 3000 bytes to a new buffer. */
  lemma GrowOnceAsWrittenCounterexample()
    ensures GrowOnceAsWritten(AutoSize, 0 + 3000) < 3000
  {
  }

  /** Corrected growth: keep doubling until the bytes needed fit. It agrees
      with the source whenever the source's single doubling suffices. */
  function Grown(size: nat, need: nat): (r: nat)
    requires size > 0
    ensures need <= r && size <= r
    ensures need <= size ==> r == size
    ensures size < need <= 2 * size ==> r == 2 * size
    ensures need <= GrowOnceAsWritten(size, need) ==> r == GrowOnceAsWritten(size, need)
    decreases need - size
  {
    if need <= size then size else Grown(2 * size, need)
  }

  /** The bytes of a C `int` in the little-endian order of the hosts this
      library runs on. */
  function IntBytes(c: int): (b: seq<byte>)
    ensures |b| == IntSize
  {
    var u := c % 0x1_0000_0000;
    [u % 256, u / 0x100 % 256, u / 0x1_0000 % 256, u / 0x100_0000]
  }

  function Zeros(n: nat): (z: seq<byte>)
    ensures |z| == n && forall i :: 0 <= i < n ==> z[i] == 0
  {
    if n == 0 then [] else [0] + Zeros(n - 1)
  }

  class Buffer {
    var buf: array<byte>
    var len: nat

    ghost predicate Valid()
      reads this
    {
      0 < buf.Length && len <= buf.Length
    }

    /** `s_size`. */
    function Size(): nat
      reads this
    {
      buf.Length
    }

    /** The bytes the buffer holds: `s_buf[0 .. s_len)`. */
    ghost function Contents(): seq<byte>
      reads this, buf
      requires Valid()
    {
      buf[..len]
    }

    /** `sbuf_new_auto`. */
    constructor NewAuto()
      ensures Valid() && fresh(buf)
      ensures Size() == AutoSize && Contents() == []
    {
      buf := new byte[AutoSize];
      len := 0;
    }

    /** `sbuf_clear`: a fresh 1024-byte buffer and no contents. */
    method Clear()
      modifies this
      ensures Valid() && fresh(buf)
      ensures Size() == AutoSize && Contents() == []
    {
      buf := new byte[AutoSize];
      len := 0;
    }

    /** Reallocates to the corrected capacity for `need` bytes, keeping the
        current bytes. */
    method Reserve(need: nat)
      requires Valid()
      modifies this
      ensures Valid() && len == old(len)
      ensures Size() == Grown(old(Size()), need)
      ensures buf[..len] == old(buf[..len])
      ensures buf == old(buf) || fresh(buf)
    {
      if need > buf.Length {
        var grown := new byte[Grown(buf.Length, need)];
        forall i | 0 <= i < buf.Length {
          grown[i] := buf[i];
        }
        buf := grown;
      }
    }

    /** `sbuf_bcat`: appends `bytes` at offset `s_len` and returns the new
        length; the bytes already held are unchanged. */
    method Bcat(bytes: seq<byte>) returns (r: nat)
      requires Valid()
      modifies this, buf
      ensures Valid()
      ensures Size() == Grown(old(Size()), old(len) + |bytes|)
      ensures Contents() == old(Contents()) + bytes
      ensures r == |Contents()|
    {
      Reserve(len + |bytes|);
      forall i | 0 <= i < |bytes| {
        buf[len + i] := bytes[i];
      }
      len := len + |bytes|;
      r := len;
    }

    /** `sbuf_bcpy`: replaces the contents with `bytes` from offset 0. */
    method Bcpy(bytes: seq<byte>) returns (r: nat)
      requires Valid()
      modifies this, buf
      ensures Valid()
      ensures Size() == Grown(old(Size()), |bytes|)
      ensures Contents() == bytes
      ensures r == |bytes|
    {
      Reserve(|bytes|);
      forall i | 0 <= i < |bytes| {
        buf[i] := bytes[i];
      }
      len := |bytes|;
      r := len;
    }

    /** `sbuf_cat`: appends the `strlen` bytes of `str`, without its NUL. */
    method Cat(str: seq<byte>) returns (r: nat)
      requires Valid()
      modifies this, buf
      ensures Valid()
      ensures Contents() == old(Contents()) + str[..CStringLength(str)]
      ensures r == |Contents()|
    {
      r := Bcat(str[..CStringLength(str)]);
    }

    /** `sbuf_cpy`: replaces the contents with the `strlen` bytes of `str`. */
    method Cpy(str: seq<byte>) returns (r: nat)
      requires Valid()
      modifies this, buf
      ensures Valid()
      ensures Contents() == str[..CStringLength(str)]
      ensures r == CStringLength(str)
    {
      r := Bcpy(str[..CStringLength(str)]);
    }

    /** `sbuf_putc`: appends all `sizeof(int)` bytes of `c`, not one byte. */
    method Putc(c: int) returns (r: nat)
      requires Valid()
      modifies this, buf
      ensures Valid()
      ensures Contents() == old(Contents()) + IntBytes(c)
      ensures |Contents()| == old(|Contents()|) + IntSize
      ensures r == |Contents()|
    {
      r := Bcat(IntBytes(c));
    }

    /** `sbuf_data`: zero-fills the unused capacity and hands out the whole
        buffer, whose first `s_len` bytes are the contents. */
    method Data() returns (d: seq<byte>)
      requires Valid()
      modifies buf
      ensures Valid()
      ensures d == old(Contents()) + Zeros(Size() - len)
      ensures d[..len] == Contents() == old(Contents())
    {
      forall i | len <= i < buf.Length {
        buf[i] := 0;
      }
      d := buf[..];
      assert d == buf[..len] + buf[len..];
    }

    /** `sbuf_len`. */
    function Len(): (n: nat)
      reads this, buf
      requires Valid()
      ensures n == |Contents()|
    {
      len
    }
  }
}
