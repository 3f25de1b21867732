/** The `Buffer` class of buffer.h: a fixed-size byte region with a cursor and a
    byte-at-a-time stream interface. Construction records the size; `Begin` allocates
    the storage separately. Each method is proved against the matching step function
    of `BufferModel`, so what is proved there about several calls holds for the
    object too. */
module Buffers {
  import opened BufferModel

  class Buffer {
    /** The cursor: where the next `Read` or `Write` happens. It can pass `size`
        through `Seek`. */
    var address: U16
    /** The number of bytes `Begin` allocates; fixed at construction. */
    const size: U16
    /** The storage; `null` until `Begin` allocates it. */
    var data: array?<Byte>

    /** `Begin` has run: the storage exists and holds exactly `size` bytes. */
    ghost predicate Ready()
      reads this
    {
      data != null && data.Length == size
    }

    /** The object's state as a `BufferModel.State`. */
    ghost function Snapshot(): (s: State)
      reads this, data
      requires Ready()
      ensures Allocated(s)
    {
      State(address, size, data[..])
    }

    /** The cursor starts at 0 and nothing is allocated yet. */
    constructor (size: U16)
      ensures this.size == size && address == 0 && data == null
      ensures address <= this.size
    {
      this.address := 0;
      this.size := size;
      this.data := null;
    }

    /** Allocates `size` zero bytes; the cursor is left where it was. */
    method Begin()
      modifies this`data
      ensures Ready() && fresh(data)
      ensures forall i | 0 <= i < size :: data[i] == 0
      ensures address == old(address)
      ensures old(address) == 0 ==> Snapshot() == Fresh(size)
    {
      data := new Byte[size](_ => 0);
    }

    /** Moves the cursor to `a` if the cursor is still below `size`, whatever `a` is. */
    method Seek(a: U16)
      modifies this`address
      ensures address == if old(address) < size then a else old(address)
      ensures old(Ready()) ==> Ready() && Snapshot() == BufferModel.Seek(old(Snapshot()), a)
    {
      if address < size {
        address := a;
      }
    }

    /** Stores `value` under the cursor and advances it; returns the number of bytes
        transferred. */
    method Write(value: Byte) returns (n: nat)
      requires Ready()
      modifies this`address, data
      ensures Ready()
      ensures Step(n, Snapshot()) == BufferModel.Write(old(Snapshot()), value)
    {
      if address >= size {
        return 0;
      }
      data[address] := value;
      address := address + 1;
      return 1;
    }

    /** Returns the byte under the cursor and advances it, or `EndOfData`. */
    method Read() returns (r: int)
      requires Ready()
      modifies this`address
      ensures Ready()
      ensures Step(r, Snapshot()) == BufferModel.Read(old(Snapshot()))
    {
      if address >= size {
        return EndOfData;
      }
      r := data[address];
      address := address + 1;
    }

    /** The bulk write every stream offers: one `Write` per byte, stopping at the first
        one that transfers nothing; returns how many bytes were transferred. */
    method WriteBytes(bs: seq<Byte>) returns (n: nat)
      requires Ready()
      modifies this`address, data
      ensures Ready()
      ensures n == if old(address) < size then Min(|bs|, size - old(address)) else 0
      ensures Snapshot() == WriteAll(old(Snapshot()), bs).next
    {
      ghost var s0 := Snapshot();
      n := 0;
      while n < |bs|
        invariant Ready() && n <= |bs|
        invariant address == s0.address + n
        invariant n == 0 || address <= size
        invariant Snapshot() == WriteAll(s0, bs[..n]).next
      {
        var w := Write(bs[n]);
        if w == 0 {
          break;
        }
        WriteAllAppend(s0, bs[..n], [bs[n]]);
        assert bs[..n] + [bs[n]] == bs[..n + 1];
        n := n + 1;
      }
      assert bs == bs[..n] + bs[n..];
      WriteAllAppend(s0, bs[..n], bs[n..]);
      if n < |bs| {
        WriteAllExhausted(Snapshot(), bs[n..]);
      }
    }

    /** No look-ahead is supported: always `-1`. */
    method Available() returns (r: int)
      ensures r == -1
    {
      r := -1;
    }

    /** No look-ahead is supported: always `-1`. */
    method Peek() returns (r: int)
      ensures r == -1
    {
      r := -1;
    }

    /** Nothing is buffered on the way out, so there is nothing to flush. */
    method Flush()
      ensures unchanged(this)
    {
    }
  }

  function Min(a: int, b: int): (m: int)
  {
    if a < b then a else b
  }

  /** A buffer of four bytes: four writes fill it, the fifth is refused, the seek
      back to 0 is refused because the cursor has reached the end, and the read
      returns the end-of-data value. */
  method CapacityFourScenario() returns (outs: seq<int>, stored: seq<Byte>)
    ensures outs == [1, 1, 1, 1, 0, EndOfData]
    ensures stored == [10, 20, 30, 40]
  {
    var b := new Buffer(4);
    b.Begin();
    var w1 := b.Write(10);
    var w2 := b.Write(20);
    var w3 := b.Write(30);
    var w4 := b.Write(40);
    var w5 := b.Write(50);
    b.Seek(0);
    var r := b.Read();
    outs := [w1, w2, w3, w4, w5, r];
    stored := b.data[..];
  }

  /** Writing two bytes, seeking back and reading them: the same bytes come back. */
  method WriteSeekReadBack(b: Buffer, x: Byte, y: Byte) returns (u: int, v: int)
    requires b.Ready() && b.address + 2 < b.size
    modifies b, b.data
    ensures u == x && v == y
  {
    var p := b.address;
    ghost var s0 := b.Snapshot();
    var n := b.WriteBytes([x, y]);
    assert n == 2;
    WriteAllFits(s0, [x, y]);
    b.Seek(p);
    u := b.Read();
    v := b.Read();
  }
}
