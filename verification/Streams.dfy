/** Byte buffers with a read cursor (`struct stream`), big-endian. */
module Streams {

  type Byte = x: int | 0 <= x < 256

  function Be16(v: int): seq<Byte>
    requires 0 <= v < 0x1_0000
  {
    [v / 256, v % 256]
  }

  function Be32(v: int): seq<Byte>
    requires 0 <= v < 0x1_0000_0000
  {
    Be16(v / 0x1_0000) + Be16(v % 0x1_0000)
  }

  function Val16(b: seq<Byte>): (v: int)
    requires |b| == 2
    ensures 0 <= v < 0x1_0000
  {
    (b[0] as int) * 256 + b[1]
  }

  function Val32(b: seq<Byte>): (v: int)
    requires |b| == 4
    ensures 0 <= v < 0x1_0000_0000
  {
    Val16(b[..2]) * 0x1_0000 + Val16(b[2..])
  }

  lemma Val16OfBe16(v: int)
    requires 0 <= v < 0x1_0000
    ensures Val16(Be16(v)) == v
  {
  }

  lemma Val32OfBe32(v: int)
    requires 0 <= v < 0x1_0000_0000
    ensures Val32(Be32(v)) == v
  {
    assert Be32(v)[..2] == Be16(v / 0x1_0000) && Be32(v)[2..] == Be16(v % 0x1_0000);
  }

  lemma Be16OfVal16(b: seq<Byte>)
    requires |b| == 2
    ensures Be16(Val16(b)) == b
  {
  }

  lemma Be32OfVal32(b: seq<Byte>)
    requires |b| == 4
    ensures Be32(Val32(b)) == b
  {
    Be16OfVal16(b[..2]);
    Be16OfVal16(b[2..]);
    assert b == b[..2] + b[2..];
    hide Be16, Val16;
    var h, l := Val16(b[..2]), Val16(b[2..]);
    assert Val32(b) / 0x1_0000 == h && Val32(b) % 0x1_0000 == l;
  }

  class Stream {
    var data: seq<Byte>
    var getp: nat

    ghost predicate Valid()
      reads this
    {
      getp <= |data|
    }

    constructor ()
      ensures Valid() && data == [] && getp == 0
    {
      data := [];
      getp := 0;
    }

    method PutC(v: Byte)
      modifies this`data
      ensures data == old(data) + [v]
    {
      data := data + [v];
    }

    method PutW(v: int)
      requires 0 <= v < 0x1_0000
      modifies this`data
      ensures data == old(data) + Be16(v)
    {
      data := data + [v / 256, v % 256];
    }

    method PutL(v: int)
      requires 0 <= v < 0x1_0000_0000
      modifies this`data
      ensures data == old(data) + Be32(v)
    {
      PutW(v / 0x1_0000);
      PutW(v % 0x1_0000);
    }

    /** `stream_putc_at`: patches a byte already written. */
    method PutCAt(at: nat, v: Byte)
      requires at < |data|
      modifies this`data
      ensures data == old(data)[at := v]
    {
      data := data[at := v];
    }

    method GetC() returns (v: Byte)
      requires getp < |data|
      modifies this`getp
      ensures getp == old(getp) + 1 && v == data[old(getp)]
    {
      v := data[getp];
      getp := getp + 1;
    }

    method GetW() returns (v: int)
      requires getp + 2 <= |data|
      modifies this`getp
      ensures getp == old(getp) + 2 && v == Val16(data[old(getp)..getp])
      ensures 0 <= v < 0x1_0000
    {
      v := (data[getp] as int) * 256 + data[getp + 1];
      getp := getp + 2;
    }

    method GetL() returns (v: int)
      requires getp + 4 <= |data|
      modifies this`getp
      ensures getp == old(getp) + 4 && v == Val32(data[old(getp)..getp])
      ensures 0 <= v < 0x1_0000_0000
    {
      ghost var b := data[getp..getp + 4];
      var hi := GetW();
      var lo := GetW();
      assert b[..2] == data[old(getp)..old(getp) + 2] && b[2..] == data[old(getp) + 2..getp];
      v := hi * 0x1_0000 + lo;
    }
  }
}
