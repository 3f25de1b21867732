# Byte buffer of the IoT RGB LED matrix

This project models the `Buffer` class of `buffer.h`. The class is a fixed-size byte region with a cursor. It offers a byte-at-a-time stream interface, and the matrix driver uses it to hold frame data. The buffer is set up in two phases. The constructor records the size and puts the cursor at 0. `begin()` then allocates `size` bytes and zeroes them. `seek`, `write` and `read` move the cursor and transfer one byte at a time, each with its own bounds check and sentinel.

The project has two modules:

- `BufferModel` (buffer_model.dfy) describes an initialised buffer as a value, `State(address, size, mem)`. Each state-changing call is a function that returns the call's result and the next state. It also holds the lemmas about several calls in a row: write runs that fit or overflow, reading back what was written, and the exhausted state from which nothing moves again.
- `Buffers` (buffer.dfy) holds the class `Buffer`. It has the fields `address`, `size` and `data` (an `array?<Byte>` that stays `null` until `Begin`). The postconditions of `Write`, `Read`, `WriteBytes` and (on a buffer whose storage exists) `Seek` equate the object's new `Snapshot()` with the model function applied to the old one. `Begin` on a new buffer yields `Snapshot() == Fresh(size)`. As a result, the lemmas of `BufferModel` about seek, write and read also apply to the object.

`uint8_t` and `uint16_t` are the subset types `Byte` (0..255) and `U16` (0..65535). The cursor increment in `write`/`read` cannot wrap, because it only happens when `address < size <= 65535`. Two quirks of the code are kept:

- `seek` tests the *current* cursor, not the target. A seek past the end is accepted, so the cursor can exceed `size`.
- Once the cursor is at or past `size`, no `seek`, `write` or `read` changes anything again. Only `begin()` still replaces the storage.

## Model

| member | source | states |
|---|---|---|
| `Buffers.Buffer.constructor` | buffer.h:44-48 | the cursor is 0, `size` is the argument, no storage is allocated, and `address <= size` |
| `Buffers.Buffer.Begin` | buffer.h:50-54 | `data` is a freshly allocated array of exactly `size` bytes, all 0; the cursor is unchanged; on a new buffer (cursor 0) the state is `BufferModel.Fresh(size)` |
| `Buffers.Buffer.Seek` | buffer.h:56-62 | the cursor becomes exactly `a` when the old cursor is below `size` (even if `a > size`), and otherwise stays put; the storage is untouched; on a ready buffer the new state is `BufferModel.Seek` of the old one |
| `Buffers.Buffer.Write` | buffer.h:64-75 | the return value and new state are those of `BufferModel.Write` on the old state; only the cursor and the byte under it can change |
| `Buffers.Buffer.Read` | buffer.h:77-87 | the return value and new state are those of `BufferModel.Read` on the old state; only the cursor can change and the storage is never written |
| `Buffers.Buffer.WriteBytes` | buffer.h:35 | a bulk write made of single writes that stops at the first write returning 0; it returns `min(len, size - cursor)` (or 0 when the cursor is already at or past the end) and leaves the state that writing every byte one by one leaves |
| `Buffers.Buffer.Available` | buffer.h:24-27 | always returns -1 (no look-ahead) |
| `Buffers.Buffer.Peek` | buffer.h:31-34 | always returns -1 (no look-ahead) |
| `Buffers.Buffer.Flush` | buffer.h:28-30 | changes nothing |
| `Buffers.CapacityFourScenario` | buffer.h:44-87 | a 4-byte buffer: writes of 10, 20, 30, 40 return 1; the write of 50 returns 0; `seek(0)` is refused because the cursor is at the end; the read returns -1; the storage holds 10, 20, 30, 40 |
| `Buffers.WriteSeekReadBack` | buffer.h:56-87 | on the object: write two bytes, seek back to where the writes began (the cursor stays below the end), and two reads return the same bytes |
| `BufferModel.Fresh` | buffer.h:44-54 | after construction and `begin()`: cursor 0, `size` bytes, all 0 |
| `BufferModel.Seek` | buffer.h:56-62 | size and storage are unchanged; a cursor below `size` becomes the target; at or past `size` the state is unchanged |
| `BufferModel.Write` | buffer.h:64-75 | returns 1 exactly when the cursor is below `size`; then it stores `v` under the cursor, leaves every other byte alone and advances the cursor by 1. Otherwise it returns 0 and the state is unchanged. `address <= size` is preserved |
| `BufferModel.Read` | buffer.h:77-87 | returns -1 exactly when the cursor is at or past `size`, and then the state is unchanged; otherwise it returns the stored byte (in 0..255) under the cursor and advances the cursor by 1. The storage never changes and `address <= size` is preserved |
| `BufferModel.WriteAllFits` | buffer.h:64-75 | consecutive writes that fit all return 1, land in order at the cursor, leave every other byte unchanged and advance the cursor by their count |
| `BufferModel.WriteAllExhausted` | buffer.h:66-69 | on an exhausted buffer every write returns 0 and the state is unchanged |
| `BufferModel.WriteAllAppend` | buffer.h:64-75 | writing `a` and then `b` gives the same results and state as writing `a + b` |
| `BufferModel.WriteAllOverflow` | buffer.h:64-75 | in a run of writes longer than the room left, the first `size - cursor` writes return 1 and the rest return 0; the cursor stops exactly at `size`; the storage keeps the bytes before the old cursor, followed by the bytes that fitted |
| `BufferModel.ReadAllFits` | buffer.h:77-87 | consecutive reads that fit return the stored bytes in order and only move the cursor |
| `BufferModel.RoundTrip` | buffer.h:56-87 | start at cursor `p` and write `n` bytes, each returning 1, with `p + n < size`; then `seek(p)` is accepted and `n` reads return the written bytes |
| `BufferModel.RoundTripAtCapacity` | buffer.h:56-87 | the same writes with `p + n == size`: each returns 1, `seek(p)` is refused and the next read returns -1 |
| `BufferModel.RereadAfterSeek` | buffer.h:56-87 | reading does not consume: seek back and read the same span again, and the same bytes come back |
| `BufferModel.FillFresh` | buffer.h:50-75 | a freshly begun buffer takes exactly `size` writes, each returning 1; it then holds those bytes, and the next write returns 0 |
| `BufferModel.ExhaustedIsFrozen` | buffer.h:56-87 | once the cursor is at or past `size`, no sequence of seeks, writes and reads changes the state |
| `BufferModel.SeekPastEndIsTerminal` | buffer.h:56-62 | a seek to a target at or past `size` from a cursor below it is accepted and leaves the buffer exhausted for good |

## Left out

- `operator==` (buffer.h:38-42) takes both buffers by value and compares the addresses of the two copies. It says nothing about any buffer's state, so it is not modelled.
- The `Stream`/`Print` base classes are not part of this model. `Buffers.Buffer.WriteBytes` stands for the inherited bulk `write(buffer, length)`: a loop of single writes that stops at the first 0, the usual behaviour of that helper.
- Memory management is not modelled: the old storage leaks when `begin()` is called twice, and there is no destructor. `Begin` may be called again and simply allocates fresh storage.
- The public `data` pointer allows raw access outside the class's checks. The model keeps `data` as a public field, but no contract covers writes made through it from outside.
- `Buffers.Buffer.Write` and `Buffers.Buffer.Read` require `Begin` to have run, even when the cursor is already at or past `size`. In that case the C++ code returns before touching `data`. Using the buffer before `begin()` is documented as undefined, and the model treats it as a precondition.
- The LED-matrix driver, SPI/GPIO transport and all Arduino I/O are not part of this model.
