# A verified model of the io_uring key-value server

The server (`server/src/main.rs`) is a single-threaded TCP key-value store
built on io_uring. Peers send frames: a 4-byte big-endian length followed by
a UTF-8 payload. Each payload is appended to a per-socket command list. When
the peer closes the connection, the list is interpreted as one command
(`get k`, `set k v` or `del k`) against an in-memory map.

The event loop owns a few single-owner tables:

- a token slab that maps each in-flight request's index to `Accept`, `Poll` or `Read`;
- a free-buffer stack and a buffer slab;
- the per-fd command lists;
- the store;
- a backlog of requests that did not fit in the submission queue.

Each completion the kernel returns is one transition of these tables. This
project models those transitions and proves what they keep and what they
compute.

Modules, in dependency order:

- `Wrappers`: `Option`.
- `Wire`: the frame header codec, the UTF-8 check `from_utf8` performs, and buffer contents.
- `KvStore`: `run_command` as a function `Execute` on a map, with its crash precondition `InRange`.
- `Ring`: the kernel ring, kept abstract.
  - A request is a record: accept, poll or receive, with its fd, length and token index.
  - A completion is an input: the token index, `res`, and the bytes received.
  - Whether `sq.push` succeeds is a boolean input.
  - `DrainSignal` says what happens to each backlog entry while the backlog is drained.
- `Dispatch`: the completion step on values.
  - `Tables` holds all the tables plus a log of every submitted request.
  - There is one transition function per token arm: `AcceptStep`, `PollStep`, `CloseStep`, `HeaderStep`, `MessageStep`, `ReceiveStep`.
  - `Step` relates the tables before and after one completion. Which vacant index the slab picks is left open.
  - `Inv` is the ownership invariant. Lemmas prove that every transition keeps it.
- `Connection`: several completions on one connection.
  - Frames accumulate as commands in arrival order.
  - A peer close runs the command list.
  - The framing's edge cases are covered.
- `EventLoop`: the class `Server`.
  - Its fields are the tables.
  - It has one method per arm of the completion `match`, plus the backlog drain and one turn of the outer loop.
  - Each method is proved to perform the matching `Dispatch` transition. This is how the invariant and the connection lemmas apply to it.

A panic in the source becomes a `Status.Panic(fault)` result, and the tables
stay as they were. Panics come from:

- indexing a vacant slab entry;
- `unwrap` on a missing command list;
- slicing `buf[..len]` past the end of the buffer (lines 209, 245 and 257);
- `run_command` indexing past the end of its list;
- `clone_from_slice` on a header that is not 4 bytes;
- `from_utf8(..).unwrap()`;
- the accept push's `expect`.

The process ends on a panic, so nothing after it is modelled.

Where the program and its description disagree, the model follows the code:

- A frame whose header declares length 0 closes the connection and returns the buffer. It does not run the command list (lines 214-222). `ZeroLengthFrameCloses` states this.
- The command list of an fd is never removed. A new connection that reuses an fd runs the old list followed by its own payloads. Because only the first three entries are read, a complete old list is replayed as-is (`ReusedFdReplaysEarlierCommands`).
- The declared length is not checked against the 4101-byte buffer. `OversizedFrameOverrunsBuffer` exhibits a receive of 4102 bytes submitted into such a buffer.
- In the payload phase, whatever `res` bytes arrive are taken as the whole payload. The model does the same. A short read is not completed by a second receive.
- A request popped from the backlog is dropped if its push then fails: the drain discards the result of `sq.push` (line 103). The request is neither submitted nor put back. The `Lost` drain signal models this case, and `DrainBacklog` keeps submitted plus backlog intact only when no pop is lost.

## Model

| member | source | states |
|---|---|---|
| Wire.DecodeHeader | server/src/main.rs:208-212 | the four header bytes decode to a value below 2^32 (a `u32`) |
| Wire.EncodeHeader | client/src/main.rs:12 | the peer's `to_be_bytes` encoding of a `u32` length is exactly 4 bytes |
| Wire.DecodeEncode | server/src/main.rs:208-212 | decoding the big-endian encoding of any n < 2^32 gives back n |
| Wire.EncodeDecode | server/src/main.rs:208-212 | every 4-byte header is the encoding of the length it decodes to, so decode is a bijection onto `u32` |
| Wire.AsciiIsUtf8 | server/src/main.rs:257 | every ASCII byte string passes the UTF-8 check, so the command names and ASCII keys never make `from_utf8` panic |
| Wire.LeadingScalarWidth | server/src/main.rs:257 | the length of the well-formed UTF-8 sequence (Table 3-7 of the Unicode Standard) at the start of the bytes, at most 4 and never past their end; 0 if there is none |
| Wire.ValidUtf8 | server/src/main.rs:257 | what `from_utf8` accepts: the bytes split into well-formed UTF-8 sequences |
| Wire.Zeroes | server/src/main.rs:154 | a fresh buffer has the requested length and every byte is zero |
| Wire.Overwrite | server/src/main.rs:173-176 | after a receive, the buffer keeps its length; the received bytes are at its front and the rest keeps its earlier contents |
| KvStore.Lookup | server/src/main.rs:38 | `HashMap::get`: the value under the key, or none |
| KvStore.InRange | server/src/main.rs:35-51 | the command lists `run_command` can index without panicking: an op, a key for get/set/del, a value for set |
| KvStore.Execute | server/src/main.rs:35-51 | `get` leaves the store unchanged and yields the lookup; `set k v` makes k map to v; `del k` removes k; each of them yields the previous value and leaves every other key as it was; any other op changes nothing and yields nothing |
| KvStore.SetThenGet | server/src/main.rs:38-42 | a `get` of a key right after a `set` of it finds the value that was set |
| KvStore.DelAbsentIsNoop | server/src/main.rs:45-47 | `del` of an absent key leaves the store unchanged and yields nothing |
| KvStore.TrailingEntriesIgnored | server/src/main.rs:35-51 | entries past the ones an op reads never change the outcome, and appending entries keeps a command in range |
| Ring.Delivered | server/src/main.rs:101-104 | no more requests reach the queue than were popped, and none that was not popped |
| Ring.DeliveredAppend | server/src/main.rs:101-104 | each popped entry is handled on its own and in pop order: a longer drain delivers what its first part delivers followed by what the rest delivers, so the delivered requests are the popped ones whose push had room, front first |
| Ring.DeliveredInOrder | server/src/main.rs:101-104 | when no push fails, the drain delivers exactly what it pops, front first |
| Dispatch.ReadSize | server/src/main.rs:161-165 | the receive size chosen on a poll is the header size in the header phase, and never more than a buffer holds |
| Dispatch.Submit | server/src/main.rs:142-146 | a request goes to the end of the submitted log (backlog unchanged) when the push succeeds and to the back of the backlog (log unchanged) when it fails; no other table changes |
| Dispatch.Initial | server/src/main.rs:59-80 | the tables at start-up: empty pool, buffers, command lists, store and backlog, the Accept token at its index, and the accept request pushed |
| Dispatch.AcceptStep | server/src/main.rs:129-146 | the Accept arm: a header-phase Poll token for the socket `res` at the given index, and its poll request submitted or deferred |
| Dispatch.Acquirable | server/src/main.rs:151-158 | the buffer a poll obtains: the top of the pool, or an index the buffer slab does not occupy when the pool is empty |
| Dispatch.PollStep | server/src/main.rs:149-182 | the Poll arm: pop or allocate a zeroed buffer (panic if a popped index is vacant), turn the token into a Read in place, submit a receive of the phase's size |
| Dispatch.CloseStep | server/src/main.rs:190-201 | the end-of-stream arm: panic without a command list or with one too short, otherwise run it, release the buffer and remove the token, keeping the list |
| Dispatch.HeaderStep | server/src/main.rs:207-243 | the header phase: panic unless exactly 4 bytes arrived; on length 0 release the buffer and remove the token; otherwise move to the payload phase and submit a receive of that length |
| Dispatch.MessageStep | server/src/main.rs:244-274 | the payload phase: panic on invalid UTF-8, otherwise append the payload to the fd's list (created if absent), release the buffer, poll again at the same index |
| Dispatch.ReceiveStep | server/src/main.rs:202-277 | a receive of `res > 0` bytes: the kernel's bytes land in the buffer, `buf[..res]` panics if too long, then the phase's step runs |
| Dispatch.Step | server/src/main.rs:113-280 | one completion: an error result changes nothing, a vacant token index panics, otherwise the arm of the token's variant runs, with any vacant slab index allowed |
| Dispatch.Inv | server/src/main.rs:127-278 | the ownership invariant: the Accept token stays at its index and is the only one, every Poll is in the header phase, every buffer has full capacity and is in the pool (once) or held by exactly one Read token, never both |
| Dispatch.InitialInv | server/src/main.rs:59-67 | the tables right after start-up (one Accept token, no buffers) satisfy the ownership invariant |
| Dispatch.InsertPollKeepsOwned | server/src/main.rs:133-136 | inserting a header-phase Poll token at a vacant index keeps the invariant |
| Dispatch.PopKeepsOwned | server/src/main.rs:151-152 | handing the top of the pool to a Read token keeps every buffer free or held once |
| Dispatch.AllocateKeepsOwned | server/src/main.rs:153-158 | allocating a zeroed buffer at a vacant slab index for a Read token keeps the invariant |
| Dispatch.ReleaseKeepsOwned | server/src/main.rs:194-195 | pushing a Read token's buffer back on the pool and removing the token, or turning it into a header-phase Poll, keeps the invariant |
| Dispatch.ContinueKeepsOwned | server/src/main.rs:224-228 | a Read token that keeps its buffer and moves to the payload phase keeps the invariant |
| Dispatch.RefillKeepsOwned | server/src/main.rs:204 | received bytes written into an allocated buffer keep its capacity and the invariant |
| Dispatch.AcceptKeepsInv | server/src/main.rs:129-146 | the Accept arm keeps the invariant: the Accept token stays, and the new Poll token is at a previously vacant index |
| Dispatch.PollKeepsInv | server/src/main.rs:149-182 | on a valid state the Poll arm never panics and keeps the invariant |
| Dispatch.CloseKeepsInv | server/src/main.rs:190-201 | the end-of-stream arm keeps the invariant, whether it panics or runs the commands |
| Dispatch.HeaderKeepsInv | server/src/main.rs:207-243 | the header phase keeps the invariant, on a zero length (release) and otherwise (same buffer, payload phase) |
| Dispatch.MessageKeepsInv | server/src/main.rs:244-274 | the payload phase keeps the invariant: the buffer returns to the pool and the token polls in the header phase |
| Dispatch.ReceiveKeepsInv | server/src/main.rs:202-277 | a receive on a valid state never finds its buffer vacant, and it keeps the invariant |
| Dispatch.StepKeepsInv | server/src/main.rs:113-280 | every completion keeps the invariant: the Accept token is never changed, every Poll is in the header phase, every buffer is in the pool or held by exactly one Read token and never both; a popped buffer is always allocated |
| Connection.Frames | client/src/main.rs:12-17 | the completions a peer's frames produce: per payload a readiness, the 4 header bytes of its length, and the payload itself, three per frame |
| Connection.ReadinessStarts | server/src/main.rs:149-182 | on a valid server, poll readiness never panics: it turns a polling token into a header-phase Read holding an allocated buffer, submits a 4-byte receive into it (or defers it to the backlog when the queue is full), and leaves commands and store alone |
| Connection.HeaderContinues | server/src/main.rs:223-241 | a header announcing n > 0 never panics: it moves the same token to the payload phase with the same buffer and submits (or defers) a receive of exactly n bytes |
| Connection.PayloadAppends | server/src/main.rs:244-274 | a deliverable payload never panics: it is appended at the end of the fd's list (created if absent); the other lists and the store are untouched; the buffer returns to the pool, the token polls again and a poll with the same index is submitted (or deferred) |
| Connection.OtherConnectionKeepsReceived | server/src/main.rs:246-257 | a completion for another connection or for the listener leaves the payloads received from an fd unchanged, so interleaved frames of several peers do not mix |
| Connection.FramesAccumulate | server/src/main.rs:246-257 | whether or not the submission queue has room, no completion of any number of well-formed frames panics; the fd's list has grown by exactly their payloads in arrival order, the tokens and the store are unchanged and the invariant holds |
| Connection.PeerCloseExecutes | server/src/main.rs:190-201 | the readiness before a peer close never panics; the close panics if the fd never sent a payload or its list is out of range; otherwise it runs the list against the store, removes the token and keeps the list |
| Connection.ZeroLengthFrameCloses | server/src/main.rs:214-222 | a zero-length header never panics and closes the connection without running its commands: store and lists unchanged, token removed |
| Connection.OversizedFrameOverrunsBuffer | server/src/main.rs:230-234 | a header declaring 4102 bytes submits a receive of 4102 bytes into a buffer shorter than that |
| Connection.ConnectionExecutes | server/src/main.rs:185-278 | a connection that sends frames and closes never panics and leaves the store as the interpreter leaves it after the fd's earlier list followed by the new payloads |
| Connection.ReusedFdReplaysEarlierCommands | server/src/main.rs:192 | a connection on a reused fd whose earlier list is complete never panics and runs that earlier list, whatever it sends |
| Connection.SetSessionStoresValue | server/src/main.rs:129-201 | from start-up, accepting a connection that sends the frames "set", "a", "b" and then closes never panics and leaves the store mapping "a" to "b" |
| EventLoop.VacantKey | server/src/main.rs:155-156 | the slab index obtained for an insertion is not occupied |
| EventLoop.Server.constructor | server/src/main.rs:59-80 | the tables are exactly the start-up tables: empty, the Accept token inserted, the first accept request pushed; the invariant holds |
| EventLoop.Server.SubmitAccept | server/src/main.rs:109-111 | pushing the accept request logs it, or panics when the queue is full |
| EventLoop.Server.Push | server/src/main.rs:142-146 | a push that fails puts the request at the back of the backlog |
| EventLoop.Server.RunCommand | server/src/main.rs:35-51 | the in-place updates of `run_command` leave the store and result that `Execute` specifies |
| EventLoop.Server.OnAccept | server/src/main.rs:129-146 | the Accept arm inserts the Poll token at an index that was vacant and submits its poll |
| EventLoop.Server.OnPoll | server/src/main.rs:149-182 | the Poll arm pops the top of the pool or allocates a zeroed buffer at a vacant index, replaces the token in place, and submits the receive |
| EventLoop.Server.OnClose | server/src/main.rs:190-201 | the end-of-stream arm performs `CloseStep`, panics included |
| EventLoop.Server.OnHeader | server/src/main.rs:207-243 | the header phase performs `HeaderStep` |
| EventLoop.Server.OnMessage | server/src/main.rs:244-274 | the payload phase performs `MessageStep` |
| EventLoop.Server.OnReceive | server/src/main.rs:202-277 | a receive of `res > 0` bytes performs `ReceiveStep` on the buffer the kernel wrote |
| EventLoop.Server.HandleCompletion | server/src/main.rs:113-280 | one completion performs `Step`; an error completion changes nothing; the invariant is kept and a popped buffer is never vacant |
| EventLoop.Server.DrainBacklog | server/src/main.rs:91-107 | the drain pops from the front until the backlog is empty or submitting is busy; what reaches the queue is `Delivered` of what was popped; with no lost push, submitted followed by backlog is unchanged (FIFO) |
| EventLoop.Server.Turn | server/src/main.rs:90-280 | one turn drains the backlog (the popped prefix leaves it, `Delivered` of it is submitted, nothing else changes), re-pushes the accept request or panics on a full queue, then performs `Step` for each reaped completion in order until one panics, a panic after a successful re-push always coming from a handled completion, keeping the invariant |

## Left out

- io_uring itself is left out: ring setup, `submit_and_wait`, `submit`, the `EBUSY` retries, `sq.sync`/`cq.sync`, and the fatal submit errors that end `main` (lines 54-55, 83-99). The ring becomes a request log, and the outcome of each push and each drain turn becomes an input.
- The following are I/O and are not modelled: `TcpListener::bind`, the listener fd in the accept request, the poll event mask, `libc::close`, and all logging.
- The raw buffer pointer in a receive request is not modelled. A request names the buffer by its slab index. The memory effect of an oversized receive is not modelled: `Overwrite` drops the bytes that do not fit. `OversizedFrameOverrunsBuffer` records that such a receive is submitted.
- Which index `Slab::insert` / `vacant_entry` returns is not modelled. The value-level step allows any vacant index. `VacantKey` returns the least vacant index, and the invariant does not depend on that choice.
- Buffers are byte sequences held in a map, not boxed slices in a slab. Aliasing between a buffer and the kernel's pending write is not captured.
- Integer widths are left out: `RawFd` and `res` are unbounded `int` and slab indices are `nat`. The `u32` to `usize` conversion at line 212 cannot fail on the 64-bit targets the program runs on, so its error path is left out.
- The state after a panic is not modelled, because the process ends.
- The first accept push at line 78 is taken to succeed: it goes into the queue just created, which is empty. Its `expect` is modelled only for the re-push at lines 109-111 (`SubmitAccept`).
- Dispatch.Step: a completion is not tied to an outstanding request. Any token index may complete at any time, for example a readiness completion for a Read token. This over-approximates what the kernel delivers, so the invariant holds a fortiori. The property that each connection has at most one outstanding poll or receive, which keeps one connection's completions in order, is not modelled.
- `HashMap` hashing and iteration order are left out. The store is a Dafny `map`.
