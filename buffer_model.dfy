/** A value-level model of the fixed-size byte buffer of buffer.h.
    A `State` is what an initialised buffer holds: the cursor, the size fixed at
    construction and the allocated bytes. Every member function of the buffer that
    touches the state becomes a function from one `State` to the next, together with
    the value the call returns. The class in buffer.dfy is proved against these
    functions, and the lemmas below state what several calls in a row do. */
module BufferModel {

  /** `uint8_t`: one stored byte. */
  type Byte = x: int | 0 <= x < 0x100

  /** `uint16_t`: the width of the cursor, of the size and of a seek target. */
  type U16 = x: int | 0 <= x < 0x1_0000

  /** What `read()` returns when the cursor has no byte under it; no byte equals it. */
  const EndOfData: int := -1

  /** An initialised buffer: the cursor `address`, the fixed `size`, the storage `mem`. */
  datatype State = State(address: U16, size: U16, mem: seq<Byte>)

  /** The storage holds exactly `size` bytes, as `begin()` allocates it. */
  predicate Allocated(s: State)
  {
    |s.mem| == s.size
  }

  /** The value one call returns, and the state it leaves behind. */
  datatype Step<T> = Step(out: T, next: State)

  /** The buffer right after construction and `begin()`: cursor 0, `size` zero bytes. */
  function Fresh(size: U16): (s: State)
    ensures Allocated(s) && s.address == 0 && s.size == size
    ensures forall i | 0 <= i < size :: s.mem[i] == 0
  {
    State(0, size, seq(size, _ => 0))
  }

  /** `seek(a)`: the guard looks at the CURRENT cursor, not at `a`. While the cursor
      is below `size` any target is taken, even one past the end; once the cursor
      has reached `size` the call does nothing. */
  function Seek(s: State, a: U16): (r: State)
    ensures r.size == s.size && r.mem == s.mem
    ensures s.address < s.size ==> r.address == a
    ensures s.address >= s.size ==> r == s
  {
    if s.address < s.size then s.(address := a) else s
  }

  /** `write(v)`: stores `v` under the cursor and advances it, returning the number
      of bytes transferred (1), or returns 0 and changes nothing when the cursor is
      at or past the end. */
  function Write(s: State, v: Byte): (r: Step<nat>)
    requires Allocated(s)
    ensures Allocated(r.next) && r.next.size == s.size
    ensures (r.out == 1) == (s.address < s.size)
    ensures s.address >= s.size ==> r.out == 0 && r.next == s
    ensures s.address < s.size ==>
      && r.next.address == s.address + 1
      && r.next.mem[s.address] == v
      && forall i | 0 <= i < s.size && i != s.address :: r.next.mem[i] == s.mem[i]
    ensures s.address <= s.size ==> r.next.address <= s.size
  {
    if s.address >= s.size then Step(0, s)
    else Step(1, s.(address := s.address + 1, mem := s.mem[s.address := v]))
  }

  /** `read()`: returns the byte under the cursor and advances it, or returns
      `EndOfData` and changes nothing when the cursor is at or past the end.
      The storage is never changed: reading does not consume. */
  function Read(s: State): (r: Step<int>)
    requires Allocated(s)
    ensures r.next.size == s.size && r.next.mem == s.mem
    ensures (r.out == EndOfData) == (s.address >= s.size)
    ensures s.address >= s.size ==> r.next == s
    ensures s.address < s.size ==>
      && 0 <= r.out < 0x100
      && r.out == s.mem[s.address]
      && r.next.address == s.address + 1
    ensures s.address <= s.size ==> r.next.address <= s.size
  {
    if s.address >= s.size then Step(EndOfData, s)
    else Step(s.mem[s.address], s.(address := s.address + 1))
  }

  /** `write` called once per byte of `bs`, in order, with every return value kept. */
  function WriteAll(s: State, bs: seq<Byte>): (r: Step<seq<nat>>)
    requires Allocated(s)
    ensures Allocated(r.next) && r.next.size == s.size && |r.out| == |bs|
    decreases |bs|
  {
    if bs == [] then Step([], s)
    else
      var w := Write(s, bs[0]);
      var rest := WriteAll(w.next, bs[1..]);
      Step([w.out] + rest.out, rest.next)
  }

  /** `read` called `n` times, with every return value kept. */
  function ReadAll(s: State, n: nat): (r: Step<seq<int>>)
    requires Allocated(s)
    ensures r.next.size == s.size && r.next.mem == s.mem && |r.out| == n
    decreases n
  {
    if n == 0 then Step([], s)
    else
      var g := Read(s);
      var rest := ReadAll(g.next, n - 1);
      Step([g.out] + rest.out, rest.next)
  }

  /** One call on the buffer, for stating what any sequence of calls does. */
  datatype Op = SeekTo(target: U16) | Put(value: Byte) | Get

  function Apply(s: State, op: Op): (r: State)
    requires Allocated(s)
    ensures Allocated(r) && r.size == s.size
  {
    match op
    case SeekTo(a) => Seek(s, a)
    case Put(v) => Write(s, v).next
    case Get => Read(s).next
  }

  function Run(s: State, ops: seq<Op>): (r: State)
    requires Allocated(s)
    ensures Allocated(r) && r.size == s.size
    decreases |ops|
  {
    if ops == [] then s else Run(Apply(s, ops[0]), ops[1..])
  }

  /** Writes that all fit: each returns 1, the cursor moves past them, they land
      at the cursor in order and no other byte changes. */
  lemma {:induction false} WriteAllFits(s: State, bs: seq<Byte>)
    requires Allocated(s) && s.address + |bs| <= s.size
    ensures forall i | 0 <= i < |bs| :: WriteAll(s, bs).out[i] == 1
    ensures WriteAll(s, bs).next.address == s.address + |bs|
    ensures forall i | 0 <= i < s.size ::
      WriteAll(s, bs).next.mem[i] ==
        if s.address <= i < s.address + |bs| then bs[i - s.address] else s.mem[i]
    decreases |bs|
  {
    if bs != [] {
      var w := Write(s, bs[0]);
      WriteAllFits(w.next, bs[1..]);
    }
  }

  /** Writes on an exhausted buffer: every one returns 0 and nothing changes. */
  lemma {:induction false} WriteAllExhausted(s: State, bs: seq<Byte>)
    requires Allocated(s) && s.address >= s.size
    ensures forall i | 0 <= i < |bs| :: WriteAll(s, bs).out[i] == 0
    ensures WriteAll(s, bs).next == s
    decreases |bs|
  {
    if bs != [] {
      WriteAllExhausted(s, bs[1..]);
    }
  }

  /** Writing `a` then `b` is writing `a + b`. */
  lemma {:induction false} WriteAllAppend(s: State, a: seq<Byte>, b: seq<Byte>)
    requires Allocated(s)
    ensures WriteAll(s, a + b).out == WriteAll(s, a).out + WriteAll(WriteAll(s, a).next, b).out
    ensures WriteAll(s, a + b).next == WriteAll(WriteAll(s, a).next, b).next
    decreases |a|
  {
    if a != [] {
      assert (a + b)[0] == a[0];
      assert (a + b)[1..] == a[1..] + b;
      WriteAllAppend(Write(s, a[0]).next, a[1..], b);
    } else {
      assert a + b == b;
    }
  }

  /** A run of writes from a cursor at or before the end: the first `size - address`
      return 1, all later ones return 0, the cursor stops exactly at `size`, and the
      storage ends with the bytes that fitted. */
  lemma {:induction false} WriteAllOverflow(s: State, bs: seq<Byte>)
    requires Allocated(s) && s.address <= s.size < s.address + |bs|
    ensures forall i | 0 <= i < |bs| ::
      WriteAll(s, bs).out[i] == if s.address + i < s.size then 1 else 0
    ensures WriteAll(s, bs).next.address == s.size
    ensures WriteAll(s, bs).next.mem == s.mem[..s.address] + bs[..s.size - s.address]
  {
    var k := s.size - s.address;
    assert bs == bs[..k] + bs[k..];
    WriteAllAppend(s, bs[..k], bs[k..]);
    WriteAllFits(s, bs[..k]);
    WriteAllExhausted(WriteAll(s, bs[..k]).next, bs[k..]);
    var m := WriteAll(s, bs).next.mem;
    assert forall i | 0 <= i < s.size :: m[i] == (s.mem[..s.address] + bs[..k])[i];
  }

  /** Reads that all fit return the stored bytes in order and only move the cursor. */
  lemma {:induction false} ReadAllFits(s: State, n: nat)
    requires Allocated(s) && s.address + n <= s.size
    ensures ReadAll(s, n).out == s.mem[s.address..s.address + n]
    ensures ReadAll(s, n).next == s.(address := s.address + n)
    decreases n
  {
    if n > 0 {
      ReadAllFits(Read(s).next, n - 1);
    }
  }

  /** Round trip: from cursor `p`, write `bs` with every write returning 1 and the
      cursor ending strictly before the end; then `seek(p)` is taken and `|bs|`
      reads return `bs`. */
  lemma {:induction false} RoundTrip(s: State, bs: seq<Byte>)
    requires Allocated(s) && s.address + |bs| < s.size
    ensures forall i | 0 <= i < |bs| :: WriteAll(s, bs).out[i] == 1
    ensures Seek(WriteAll(s, bs).next, s.address).address == s.address
    ensures ReadAll(Seek(WriteAll(s, bs).next, s.address), |bs|).out == bs
  {
    var p := s.address;
    var w := WriteAll(s, bs);
    WriteAllFits(s, bs);
    var t := Seek(w.next, p);
    ReadAllFits(t, |bs|);
    assert t.mem[p..p + |bs|] == bs;
  }

  /** The same writes filling the buffer to the last byte: now the cursor sits at
      `size`, so `seek(p)` is refused and the next read returns `EndOfData`. */
  lemma {:induction false} RoundTripAtCapacity(s: State, bs: seq<Byte>)
    requires Allocated(s) && s.address + |bs| == s.size
    ensures forall i | 0 <= i < |bs| :: WriteAll(s, bs).out[i] == 1
    ensures Seek(WriteAll(s, bs).next, s.address) == WriteAll(s, bs).next
    ensures Read(Seek(WriteAll(s, bs).next, s.address)).out == EndOfData
  {
    WriteAllFits(s, bs);
  }

  /** Reading does not consume: seeking back and reading the same span again gives
      the same bytes. */
  lemma {:induction false} RereadAfterSeek(s: State, n: nat)
    requires Allocated(s) && s.address + n < s.size
    ensures ReadAll(Seek(ReadAll(s, n).next, s.address), n).out == ReadAll(s, n).out
  {
    ReadAllFits(s, n);
    ReadAllFits(Seek(ReadAll(s, n).next, s.address), n);
  }

  /** A fresh buffer of `size` bytes takes exactly `size` writes, each returning 1;
      it then holds those bytes, and the write after them returns 0. */
  lemma {:induction false} FillFresh(size: U16, bs: seq<Byte>, v: Byte)
    requires |bs| == size
    ensures forall i | 0 <= i < size :: WriteAll(Fresh(size), bs).out[i] == 1
    ensures WriteAll(Fresh(size), bs).next.address == size
    ensures WriteAll(Fresh(size), bs).next.mem == bs
    ensures Write(WriteAll(Fresh(size), bs).next, v).out == 0
  {
    WriteAllFits(Fresh(size), bs);
  }

  /** Once the cursor has reached the end, no sequence of seeks, writes and reads
      changes anything again: the buffer stays exhausted for good. */
  lemma {:induction false} ExhaustedIsFrozen(s: State, ops: seq<Op>)
    requires Allocated(s) && s.address >= s.size
    ensures Run(s, ops) == s
    decreases |ops|
  {
    if ops != [] {
      ExhaustedIsFrozen(Apply(s, ops[0]), ops[1..]);
    }
  }

  /** Because the guard of `seek` looks at the old cursor, a seek to a target past
      the end is taken, and it leaves the buffer permanently exhausted. */
  lemma {:induction false} SeekPastEndIsTerminal(s: State, a: U16, ops: seq<Op>)
    requires Allocated(s) && s.address < s.size <= a
    ensures Seek(s, a).address == a
    ensures Run(Seek(s, a), ops) == Seek(s, a)
  {
    ExhaustedIsFrozen(Seek(s, a), ops);
  }
}
