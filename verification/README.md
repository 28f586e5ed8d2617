# Verified models of io_wally's protocol and byte-handling code

io_wally is an MQTT 3.1.1 server built on asio, with cxxopts for its command line. This project models the parts of it
that change state step by step, in Dafny, and proves what they promise.

- **Scatter/gather bytes** (`Buffers`, `BuffersIterator`, `BufferCopy`). asio's iterator over a list of buffers keeps a
  two-level cursor and a flat position; it is proved to be an index into the concatenation of the buffers, empty ones
  anywhere, with jumps that agree with single steps. `buffer_copy` runs on one array of bytes that stands for memory;
  every form of it is proved to perform one and the same assignment, whose meaning is stated on the flattened bytes.
  Because all forms satisfy that one equation, they agree with each other.
- **`basic_streambuf`** (`StreamBuf`). A growable array with get and put offsets. Two ghost histories record what was
  appended and what was consumed; the class invariant says that what was consumed followed by what is queued is what
  was appended, so every run of calls that do not throw is a run of a byte queue. Who throws when is exact.
- **`basic_socket_streambuf`, output side** (`SocketStreamBuf`). The network is a schedule that says of each send how
  much it moves or that it fails, and whether the timer expires meanwhile; results hold for every schedule.
- **The MQTT connection** (`MqttSpec`, `MqttLaws`, `MqttTheorems`, `MqttEffects`, `MqttConnection`). `MqttSpec` is a
  state machine over the outstanding asynchronous operations of one connection; the environment completes operations
  and fires timers in any order, and running one queued handler is one step. A timer's `cancel` turns a running wait
  into a queued abort and cannot recall a queued success (`external/asio/include/asio/basic_waitable_timer.hpp`, lines
  192 to 213). `MqttLaws` proves an invariant of every run, `MqttTheorems` the results, `MqttEffects` what each step
  tells the outside and why. The classes in `MqttConnection` follow the original method by method, and every method is
  proved to make its step of the machine; the table lists those that branch, and `Step`, which carries them all.
- **cxxopts** (`CxxoptsIntegers`, `CxxoptsSpec`, `CxxoptsParser`, `CxxoptsLaws`, `CxxoptsTheorems`, `CxxoptsReadings`).
  The integer parser accumulates modulo 2^bits. `ParseResult::parse` compacts `argv` in place while it reads it; the
  methods of `CxxoptsParser` are proved to compute the functions of `CxxoptsSpec`, which mirror the pass. `CxxoptsLaws`
  says what a command line means without any pass: the role, the feeds and the error of an argument are read off the
  arguments before it, and positionals go to the first one that is still free. `CxxoptsTheorems` proves the two equal,
  and `CxxoptsReadings` spells the meaning out on the texts themselves.

`Bytes`, `Characters` and `Wrappers` hold the byte type, a character class, `Option` and `Result`.
`dafny verify dfyconfig.toml` checks everything.

## What the code does not keep

- `basic_streambuf::reserve` moves the queue before it may throw and then leaves the stream pointers as they were. The
  documentation of `prepare` (line 195) promises only the exception; the queue survives it exactly under the condition
  of `FailedReserveKeepsQueueIff`. `overflow` always meets the condition when it throws.
- A flush of the socket stream buffer that fails after a short send keeps the whole put area, so a retry sends the
  first bytes again (`RetryWitness`). Some network makes that happen exactly when more than one byte is pending.
  `close()` ignores the outcome of its flush (`CloseWitness`); nothing can be lost exactly when nothing is pending.
- The overflow test of the integer parser, `result > next`, misses wraps that end above the old value.
- With unrecognised options allowed, a group of unregistered short options is neither used nor kept.
- More than one disconnect notice can be sent for one connection, and one can be sent for a client whose CONNECT the
  dispatcher never got, exactly when an exception cut its acceptance short.
- A keep-alive expiry that is already queued closes a client that has been heard from since, and a connect deadline that
  is already queued closes a client whose CONNECT has been accepted since.
- A server-only packet type, or a peer address that cannot be had, lets an exception out of the read handler; no
  further read is ever started, while the socket stays open until a timer or a stop closes it (`DeafWitness`).
- A packet to dispatch, or a DISCONNECT, before an accepted CONNECT reads an empty `optional`.

## Model

| member | source | states |
|---|---|---|
| `Buffers.NextIsCanonical` | external/asio/include/asio/buffers_iterator.hpp:300-320 | One byte forward from the canonical cursor of position p gives the canonical cursor of p + 1, empty buffers skipped. |
| `Buffers.PrevIsCanonical` | external/asio/include/asio/buffers_iterator.hpp:323-350 | One byte back likewise; a non-empty earlier buffer always exists when it is looked for. |
| `Buffers.CanonicalIsUnique` | external/asio/include/asio/buffers_iterator.hpp:245-297 | On one buffer list, equal positions mean equal cursors, and one position is before another exactly when its cursor is, in the lexicographic order. |
| `Buffers.CanonicalIffLocated` | external/asio/include/asio/buffers_iterator.hpp:118-154 | A cursor is canonical for p if and only if it is the one a plain walk over the list finds. |
| `Buffers.CanonicalNamesFlatByte` | external/asio/include/asio/buffers_iterator.hpp:288-291 | A canonical cursor names byte p of the concatenated buffers, and the end of the list exactly at the total. |
| `Buffers.StepsCompose` | external/asio/include/asio/buffers_iterator.hpp:353-431 | Jumping by a and then b is jumping by a + b for any signs, jumping back by a undoes jumping by a, and every jump lands where the plain walk lands. |
| `BuffersIterator.BuffersIterator.Begin` | external/asio/include/asio/buffers_iterator.hpp:118-135 | The begin iterator is canonical for position 0, even when leading or all buffers are empty. |
| `BuffersIterator.BuffersIterator.End` | external/asio/include/asio/buffers_iterator.hpp:138-154 | The end iterator is canonical for the total number of bytes. |
| `BuffersIterator.BuffersIterator.At` | external/asio/include/asio/buffers_iterator.hpp:169-174 | `it[d]` is byte position + d of the concatenation, for any sign of d. |
| `BuffersIterator.BuffersIterator.Dereference` | external/asio/include/asio/buffers_iterator.hpp:288-291 | Dereferencing yields byte `position` of the concatenation. |
| `BuffersIterator.BuffersIterator.Equal` | external/asio/include/asio/buffers_iterator.hpp:294-297 | Comparing positions alone decides equality of the whole cursors. |
| `BuffersIterator.BuffersIterator.Less` | external/asio/include/asio/buffers_iterator.hpp:263-266 | `<` on positions is the lexicographic order of cursors. |
| `BuffersIterator.BuffersIterator.DistanceTo` | external/asio/include/asio/buffers_iterator.hpp:434-437 | The distance is the number of single steps that carries one iterator onto the other. |
| `BuffersIterator.BuffersIterator.Increment` | external/asio/include/asio/buffers_iterator.hpp:300-320 | `++` is one byte forward in the reference list walk, and stays canonical. |
| `BuffersIterator.BuffersIterator.Decrement` | external/asio/include/asio/buffers_iterator.hpp:323-350 | `--` is one byte back, and the search for an earlier non-empty buffer always succeeds. |
| `BuffersIterator.BuffersIterator.Advance` | external/asio/include/asio/buffers_iterator.hpp:353-431 | A jump that skips whole buffers ends exactly where |n| single steps end; both loops terminate and no assertion fails for any n that stays in range. |
| `BuffersIterator.BuffersIterator.AdvanceForward` | external/asio/include/asio/buffers_iterator.hpp:355-387 | The forward loop reaches position + n canonically, empty buffers included. |
| `BuffersIterator.BuffersIterator.AdvanceBackward` | external/asio/include/asio/buffers_iterator.hpp:388-430 | The backward loop reaches position - n canonically; each search finds a non-empty buffer. |
| `BufferCopy.DerivedBuffers` | external/asio/include/asio/buffer.hpp:423-435 | `b + start` covers what b covers from start on (nothing when past the end), a limited buffer a prefix of it. |
| `BufferCopy.BufferSize` | external/asio/include/asio/buffer.hpp:366-377 | The size of a buffer sequence is the number of addresses it covers. |
| `BufferCopy.MemCpy` | external/asio/include/asio/buffer.hpp:1233-1241 | The copied bytes arrive and every byte outside the target region stays. |
| `BufferCopy.CopyOneToOne` | external/asio/include/asio/buffer.hpp:1233-1241 | One region to one region is the reference assignment of min(sizes) bytes. |
| `BufferCopy.CopyOneToOneLimited` | external/asio/include/asio/buffer.hpp:1679-1684 | With a limit it is the reference assignment of min(sizes, limit) bytes. |
| `BufferCopy.CopyToOne` | external/asio/include/asio/buffer.hpp:1336-1354 | A sequence to one region copies exactly min(totals) bytes: the same reference assignment, however the source is cut. |
| `BufferCopy.CopyFromOne` | external/asio/include/asio/buffer.hpp:1498-1516 | One region to a sequence copies exactly min(totals) bytes: the same reference assignment, however the target is cut. |
| `BufferCopy.CopySeqToSeq` | external/asio/include/asio/buffer.hpp:1614-1654 | A sequence to a sequence copies exactly min(totals) bytes: the same reference assignment; it terminates with empty buffers anywhere. |
| `BufferCopy.CopySeqToSeqLimited` | external/asio/include/asio/buffer.hpp:2118-2161 | With a limit exactly min(totals, limit) bytes, the same reference assignment, so a limit at least the smaller total gives the unlimited copy; every round finishes a buffer or uses up the limit. |
| `BufferCopy.CopyMeaning` | external/asio/include/asio/buffer.hpp:1614-1654 | The reference assignment of n bytes makes the flattened target start with the flattened source's first n bytes and changes no other byte of target, source or memory. |
| `BufferCopy.CopiedAt` | external/asio/include/asio/buffer.hpp:1614-1654 | Address by address: a target address among the first n holds its source byte, any other address its old one. |
| `BufferCopy.GatherScatter` | external/asio/include/asio/buffer.hpp:1336-1354 | Gathering into one region of the total size and scattering into any list of equal total gives every byte back; into the original list it restores memory. |
| `StreamBuf.BasicStreambuf.constructor` | external/asio/include/asio/basic_streambuf.hpp:130-138 | A new streambuf is an empty queue whose stream pointers and array length satisfy the layout invariant. |
| `StreamBuf.BasicStreambuf.Size` | external/asio/include/asio/basic_streambuf.hpp:155-158 | `size()` is the length of the queue and never exceeds `max_size()`. |
| `StreamBuf.BasicStreambuf.Reserve` | external/asio/include/asio/basic_streambuf.hpp:297-335 | Throws exactly when the queue would outgrow the maximum; otherwise room for n bytes and the same queue through shift and resize; a throw leaves the pointers alone and the array shifted. |
| `StreamBuf.BasicStreambuf.Prepare` | external/asio/include/asio/basic_streambuf.hpp:200-204 | Throws exactly when size() + n > max_size(); otherwise hands out n bytes at the start of the put area, queue unchanged. |
| `StreamBuf.BasicStreambuf.Fill` | external/asio/include/asio/basic_streambuf.hpp:200-204 | Writing into a prepared region leaves the queue alone. |
| `StreamBuf.BasicStreambuf.Commit` | external/asio/include/asio/basic_streambuf.hpp:218-224 | Appends the first n bytes of the put area to the queue, or all of it when n is larger. |
| `StreamBuf.BasicStreambuf.Consume` | external/asio/include/asio/basic_streambuf.hpp:233-240 | Takes the first n bytes off the queue, or all of them when n is larger. |
| `StreamBuf.BasicStreambuf.Underflow` | external/asio/include/asio/basic_streambuf.hpp:252-263 | Shows the first queued byte, or end-of-file exactly when the queue is empty. |
| `StreamBuf.BasicStreambuf.Overflow` | external/asio/include/asio/basic_streambuf.hpp:272-295 | Appends one character; throws exactly when the queue is full, and then nothing at all has changed. |
| `StreamBuf.BasicStreambuf.GrowWhenFull` | external/asio/include/asio/basic_streambuf.hpp:276-287 | Growing succeeds exactly while the queue is below its maximum, keeps the queue, and makes room for 128 more characters or for all that the maximum allows. |
| `StreamBuf.BasicStreambuf.ReadSizeHelper` | external/asio/include/asio/basic_streambuf.hpp:342-346 | Preparing the returned size never throws, for any limit and vector capacity; it is zero only for a zero limit or a full queue, and short of both only when it is the larger of 512 and the spare capacity. |
| `StreamBuf.BasicStreambuf.Read` | external/asio/include/asio/impl/read.hpp:86-106 | However the stream cuts its bytes, empty reads included: no prepare throws, the queue grows by exactly the bytes read, and on return the condition asks for nothing more or the queue is full; a condition that asks for more until an error gets all there is, up to the room in the queue; no round reads more than was asked for. |
| `StreamBuf.BasicStreambuf.ReadSome` | external/asio/include/asio/impl/read.hpp:99-100 | One round: the bytes the stream puts into the prepared region are appended, and the prepare cannot throw. |
| `StreamBuf.BasicStreambuf.Sputc` | external/asio/include/asio/basic_streambuf.hpp:272-295 | A character put through put area and `overflow` is appended to the queue unless the queue is full, and only then it throws. |
| `StreamBuf.BasicStreambuf.Sbumpc` | external/asio/include/asio/basic_streambuf.hpp:252-263 | Characters got through get area and `underflow` leave the queue in the order they were appended. |
| `StreamBuf.FailedReserveKeepsQueueIff` | external/asio/include/asio/basic_streambuf.hpp:310-330 | A throwing reserve keeps every queue if and only if nothing was consumed or at least as much was consumed as is queued. |
| `StreamBuf.FailedReserveWitness` | external/asio/include/asio/basic_streambuf.hpp:310-330 | On one streambuf of at most four bytes: "abcd" appended, "a" consumed, a refused prepare, and the queue "bcd" is "cdd". |
| `SocketStreamBuf.BasicSocketStreambuf.Overflow` | external/asio/include/asio/basic_socket_streambuf.hpp:326-396 | For every schedule of sends: what is due reaches the wire in order as far as the schedule lets it, success is all of it and accepts the character; after a failure the wire and put area still spell what was written if and only if the first send failed. |
| `SocketStreamBuf.BasicSocketStreambuf.SendAll` | external/asio/include/asio/basic_socket_streambuf.hpp:362-384 | The loop over short sends terminates and sends exactly what the schedule makes of a flush of that length. |
| `SocketStreamBuf.FailingFlushSendsNothingIff` | external/asio/include/asio/basic_socket_streambuf.hpp:362-384 | Every failing flush has sent nothing, whatever the network does, if and only if at most one byte is to be sent. |
| `SocketStreamBuf.RetryRepeatsPrefix` | external/asio/include/asio/basic_socket_streambuf.hpp:362-385 | A failed flush and then a successful one put the prefix sent by the first on the wire twice; nothing is repeated if and only if the first send failed. |
| `SocketStreamBuf.RetryWitness` | external/asio/include/asio/basic_socket_streambuf.hpp:362-385 | "ab" is written, one byte is sent, the next send fails, the next flush succeeds: the peer has read "aab". |
| `SocketStreamBuf.EveryFlushSucceedsIff` | external/asio/include/asio/basic_socket_streambuf.hpp:214-221 | Every flush succeeds, so that closing loses nothing, whatever the network does, if and only if there is nothing to send. |
| `SocketStreamBuf.CloseWitness` | external/asio/include/asio/basic_socket_streambuf.hpp:214-221 | "a" is written, no send succeeds, `close()` reports success, and the peer has read nothing. |
| `SocketStreamBuf.BasicSocketStreambuf.OverflowUnbuffered` | external/asio/include/asio/basic_socket_streambuf.hpp:328-359 | Unbuffered: the character is sent and accepted, or neither, as the first send of the schedule goes. |
| `SocketStreamBuf.BasicSocketStreambuf.OverflowBuffered` | external/asio/include/asio/basic_socket_streambuf.hpp:360-395 | Buffered: the put area is sent as far as the schedule lets it; it is emptied exactly when all of it was sent. |
| `SocketStreamBuf.BasicSocketStreambuf.Sync` | external/asio/include/asio/basic_socket_streambuf.hpp:398-401 | After a successful sync everything written is on the wire and the put area is empty; after a failed one the put area is as it was, whatever prefix of it was sent. |
| `SocketStreamBuf.BasicSocketStreambuf.SetBuf` | external/asio/include/asio/basic_socket_streambuf.hpp:403-413 | Switches to unbuffered mode exactly for (null, 0) on an empty put area; loses nothing. |
| `SocketStreamBuf.BasicSocketStreambuf.Close` | external/asio/include/asio/basic_socket_streambuf.hpp:214-221 | Reports success whenever the socket closes; everything written has then arrived if and only if the schedule lets the ignored flush send the whole put area. |
| `SocketStreamBuf.BasicSocketStreambuf.InitBuffers` | external/asio/include/asio/basic_socket_streambuf.hpp:426-433 | Empties the put area and keeps the mode. |
| `SocketStreamBuf.BasicSocketStreambuf.Sputc` | external/asio/include/asio/basic_socket_streambuf.hpp:326-396 | Through put area and `overflow`: the wire followed by the put area gains exactly the accepted character. |
| `SocketStreamBuf.BasicSocketStreambuf.Write` | external/asio/include/asio/basic_socket_streambuf.hpp:326-396 | A text written while every operation succeeds is exactly what wire and put area gain, in either mode and across any number of flushes. |
| `CxxoptsIntegers.IntegerParser` | external/cxxopts/include/cxxopts.hpp:462-528 | The accumulating loop accepts exactly the texts whose digit prefixes, reduced modulo 2^bits, never decrease and whose last remainder fits the sign; it returns that remainder, signed. |
| `CxxoptsIntegers.CheckedNegate` | external/cxxopts/include/cxxopts.hpp:446-453 | Negating through the cast of u - 1 gives -u for every magnitude in range, the most negative value and the wrapped zero included. |
| `CxxoptsIntegers.FittingMagnitudeIsRight` | external/cxxopts/include/cxxopts.hpp:462-528 | Every text whose magnitude fits the unsigned type is parsed right: its value exactly when that is in range, an error otherwise and for a minus sign on an unsigned type. |
| `CxxoptsIntegers.ParserIsRightIff` | external/cxxopts/include/cxxopts.hpp:462-528 | A larger magnitude is refused, as it should be, if and only if the guard of the loop, `result > next`, fires at some digit or the remainder does not fit the sign. |
| `CxxoptsIntegers.RepresentableIsParsed` | external/cxxopts/include/cxxopts.hpp:462-528 | Any text denoting a representable value is parsed to it. |
| `CxxoptsIntegers.UnnoticedWrapWitness` | external/cxxopts/include/cxxopts.hpp:509-513 | "300" as an eight-bit unsigned integer is accepted, as 44. |
| `CxxoptsIntegers.RoundTrip` | external/cxxopts/include/cxxopts.hpp:462-528 | Printing any representable value in decimal, or in 0x form in either case, and parsing the text gives the value back, for every width and signedness. |
| `CxxoptsIntegers.DigitMeaning` | external/cxxopts/include/cxxopts.hpp:490-507 | A character stands for a digit exactly when it is that digit's character, in either case, and the digit is of the base; every other character is refused. |
| `CxxoptsIntegers.LexMeaning` | external/cxxopts/include/cxxopts.hpp:397 | A text splits into sign, 0x and digits exactly when it is these put together, 0x being a prefix whenever it can be. |
| `CxxoptsIntegers.RangeMeaning` | external/cxxopts/include/cxxopts.hpp:404-443 | The ranges checked are those of the integer types of 8, 16, 32 and 64 bits, in numbers. |
| `CxxoptsParser.ParseResult.ParseOption` | external/cxxopts/include/cxxopts.hpp:1335-1343 | One text for one option: an error exactly when its parser refuses it, or else the option is counted once more and the text appended to `arguments()` under its long name. |
| `CxxoptsParser.ParseResult.ConsumePositional` | external/cxxopts/include/cxxopts.hpp:1388-1423 | The loop over the positionals computes the specified step of the cursor, with its errors. |
| `CxxoptsParser.ParseResult.CheckedParseArg` | external/cxxopts/include/cxxopts.hpp:1345-1374 | The implicit value is fed, or else the argument at current + 1, which is then skipped, or else there is none and the argument is missing; a refused text is an error. |
| `CxxoptsParser.ParseResult.ParseShortGroup` | external/cxxopts/include/cxxopts.hpp:1497-1536 | A group of short options, letter by letter, with its three errors. |
| `CxxoptsParser.ParseResult.ParseArgument` | external/cxxopts/include/cxxopts.hpp:1466-1577 | One turn of the main loop, by the shape of the argument. |
| `CxxoptsParser.ParseResult.ParseDefaults` | external/cxxopts/include/cxxopts.hpp:1580-1591 | Succeeds if and only if every registered option with no count and with a default accepts that default. |
| `CxxoptsParser.ParseResult.Parse` | external/cxxopts/include/cxxopts.hpp:1449-1614 | The single pass over `argv` computes the specified parse of the arguments as they were before anything was moved; `argv` ends with the kept ones in their order. |
| `CxxoptsParser.ParseResult.Place` | external/cxxopts/include/cxxopts.hpp:1487-1491 | Moving a kept argument down never overwrites an unread one, and keeps the kept ones in order. |
| `CxxoptsParser.ParseResult.ParseRemaining` | external/cxxopts/include/cxxopts.hpp:1593-1613 | After `--`: positionals until one argument is not taken, then the rest is moved down; nothing unread is overwritten. |
| `CxxoptsParser.ParseOptions` | external/cxxopts/include/cxxopts.hpp:1443-1447 | A command line is refused exactly with its first error; otherwise `argv` keeps exactly the arguments whose role is to be kept, the options got exactly what the arguments mean, `arguments()` lists it under the long names, and every option left with nothing accepts its default. |
| `CxxoptsLaws.ConsumePositionalOutcome` | external/cxxopts/include/cxxopts.hpp:1388-1423 | Wherever the cursor stands, an argument goes to the first positional that is a container or has no value yet, or to none if there is none, with the errors of that positional only. |
| `CxxoptsLaws.ShortGroupOutcome` | external/cxxopts/include/cxxopts.hpp:1497-1536 | A short group fails with the error of its first bad letter, or else feeds its registered letters in order and uses the next argument exactly when the last letter needs one. |
| `CxxoptsLaws.OneArgumentTurns` | external/cxxopts/include/cxxopts.hpp:1466-1577 | Whatever the parser does with an argument is the role, feeds and error that the arguments before it give it. |
| `CxxoptsTheorems.ScanMeaning` | external/cxxopts/include/cxxopts.hpp:1457-1578 | The main loop reaches the first `--` that is no option's value, or the end, with exactly the roles and feeds of the arguments passed, or stops at the first error. |
| `CxxoptsTheorems.RemainingMeaning` | external/cxxopts/include/cxxopts.hpp:1593-1611 | So do the two loops after `--`. |
| `CxxoptsTheorems.ParseMeaning` | external/cxxopts/include/cxxopts.hpp:1449-1614 | A parse fails if and only if some argument or default is in error, with the first such error; otherwise roles and feeds are those the arguments mean, each feed was accepted, and the option counts add up to the length of `arguments()`. |
| `CxxoptsTheorems.PositionalsInOrder` | external/cxxopts/include/cxxopts.hpp:1388-1423 | Positional targets never move back; a scalar takes one argument at most and only without a value; the first container reached takes every later argument on offer; after one left-over argument all are left over. |
| `CxxoptsTheorems.UselessOptions` | external/cxxopts/include/cxxopts.hpp:1497-1517 | An argument taken for an option feeds nothing if and only if it is a group of unregistered letters, which happens only where unrecognised options are allowed; such a group vanishes. |
| `CxxoptsTheorems.DroppedWitness` | external/cxxopts/include/cxxopts.hpp:1497-1517 | `p -x` with no options and unrecognised ones allowed parses, and "-x" is neither fed nor kept. |
| `CxxoptsTheorems.KeptArguments` | external/cxxopts/include/cxxopts.hpp:1482-1491 | An argument is kept only if every positional was full, or it is an unrecognised long option that is let through. |
| `CxxoptsReadings.ClassifyMeaning` | external/cxxopts/include/cxxopts.hpp:1164 | An argument is taken for a long option, with or without an attached value, or for a group of short ones, exactly when it is written as one. |
| `CxxoptsReadings.LongOptionFeeds` | external/cxxopts/include/cxxopts.hpp:1560-1573 | A long option is fed its attached value, or else its implicit value, or else the next argument. |
| `CxxoptsReadings.ShortGroupFeeds` | external/cxxopts/include/cxxopts.hpp:1497-1536 | A group feeds its registered letters in order and nothing else: each its implicit value, and a last letter without one the next argument. |
| `CxxoptsReadings.OptionValueIsFed` | external/cxxopts/include/cxxopts.hpp:1366-1372 | An argument used as a value comes right after its option and is the last text fed to it. |
| `CxxoptsReadings.ArgumentError` | external/cxxopts/include/cxxopts.hpp:1449-1578 | Which error an argument causes, if and only if: by its role, its shape, the registered names and what the value parsers accept; a group has the error of its first bad letter. |
| `CxxoptsReadings.ParseSucceedsIff` | external/cxxopts/include/cxxopts.hpp:1449-1614 | A parse succeeds if and only if no argument is in error and every registered option fed nothing before `--` accepts its default, if it has one. |
| `CxxoptsReadings.UnfedDefaults` | external/cxxopts/include/cxxopts.hpp:1580-1591 | After a successful parse every registered option that was given nothing accepts its default. |
| `CxxoptsReadings.KeptInOrder` | external/cxxopts/include/cxxopts.hpp:1482-1492 | In `argv` each argument that stays comes after exactly as many as stayed before it; nothing else is there. |
| `MqttTheorems.EveryReachableState` | source/server/io_wally/mqtt_connection.cpp:94-480 | In every state of every run: at most one read outstanding; on an open socket exactly one if and only if no handler ended early, and none once one did; the connect deadline outstanding until a CONNECT is accepted; exactly one keep-alive wait from then on if asked for; at most one CONNECT dispatched and one accepting CONNACK; only a refusal closes after its write. |
| `MqttTheorems.EveryEventInOrder` | source/server/io_wally/mqtt_connection.cpp:222-342 | In every run: a CONNECT is dispatched once, before its CONNACK, before every other packet and before the client's DISCONNECT; any other disconnect notice comes after it if and only if no exception cut the acceptance short; nothing is written after a stop; only the accepted identity is used; a keep-alive close follows an expiry during whose wait no frame completion was handled. |
| `MqttTheorems.RunGrows` | source/server/io_wally/mqtt_connection.cpp:287-291 | Over any run the client id, once set, never changes, and a closed socket stays closed. |
| `MqttTheorems.NextDiffers` | source/server/io_wally/mqtt_connection.cpp:119-129 | Every step adds exactly the close requests and disconnect notices its completion calls for; on a closed connection a handler uses up one outstanding operation and starts none. |
| `MqttTheorems.ClosedConnectionDrains` | source/server/io_wally/mqtt_connection.cpp:119-129 | Once closed, over any run: still closed, outstanding operations fall by one per handler run, at most one further close request per handler run. |
| `MqttTheorems.SecondConnectCloses` | source/server/io_wally/mqtt_connection.cpp:275-281 | A second CONNECT always closes the socket, requests exactly one close and keeps the first identity (MQTT 3.1.1, section 3.1). |
| `MqttTheorems.PacketsAreAnswered` | source/server/io_wally/mqtt_connection.cpp:222-271 | Every decoded packet whose handler is not cut short is answered as its type asks, and an identity is taken exactly from a first, authenticated CONNECT. |
| `MqttEffects.AnswersAreWritten` | source/server/io_wally/mqtt_connection.cpp:222-315 | PINGREQ gets PINGRESP, a refused CONNECT a refusal that closes once written, an accepted one the accepting CONNACK unless the dispatcher closed the connection first; the keep-alive interval is the client's. |
| `MqttEffects.ClosesForReason` | source/server/io_wally/mqtt_connection.cpp:133-480 | Every step that closes does so for the reason its completion calls for (network failure, protocol violation, keep-alive, or that of the refusal), tells the dispatcher that reason under the client's id, gracefully or not as the reason is, and ends with the stop. |
| `MqttEffects.WritesAreAccountedFor` | source/server/io_wally/mqtt_connection.cpp:346-398 | In every run every write that was started is outstanding or its handler has run, kind by kind. |
| `MqttEffects.SendsAreWritten` | source/server/io_wally/mqtt_connection.cpp:346-355 | What the dispatcher sends is written while the socket is open and dropped once it is closed. |
| `MqttEffects.ReactionsHappen` | source/server/io_wally/mqtt_connection.cpp:103-113 | A stop by the dispatcher during a call from a handler closes the connection; its sends until then are written. |
| `MqttTheorems.CutShortIff` | source/server/io_wally/mqtt_connection.cpp:184-204 | An exception leaves a handler exactly for server-only packet types and for a first CONNECT whose peer address cannot be had; a missing client id is read exactly for a dispatched packet or DISCONNECT before an accepted CONNECT. |
| `MqttTheorems.MissingIdWitness` | source/server/io_wally/mqtt_connection.cpp:322-334 | A run in which a DISCONNECT before any CONNECT reads the missing client id. |
| `MqttTheorems.UnknownClientWitness` | source/server/io_wally/mqtt_connection.cpp:273-305 | A run that sends a disconnect notice for a client whose CONNECT was never dispatched: its peer address was gone. |
| `MqttTheorems.DeafForGood` | source/server/io_wally/mqtt_connection.cpp:154-204 | In every run, once an exception has left a handler or a missing client id ended one, no read is outstanding ever again, whatever follows. |
| `MqttTheorems.DeafWitness` | source/server/io_wally/mqtt_connection.cpp:184-204 | A run after which the socket is open and unread: the client sent a packet type only servers send. |
| `MqttTheorems.NoticesOfRun` | source/server/io_wally/mqtt_connection.cpp:436-480 | Over any run there is one disconnect notice per close request or DISCONNECT of an identified connection, no more and no fewer. |
| `MqttTheorems.TwoNoticesWitness` | source/server/io_wally/mqtt_connection.cpp:346-370 | A run with two disconnect notices: a failed read, then the aborted write of the CONNACK. |
| `MqttTheorems.KeepAliveStaleness` | source/server/io_wally/mqtt_connection.cpp:402-434 | In every run the handler of an expired keep-alive wait closes the connection, and the client has been silent since the wait was armed if and only if no read handler ran while the expiry was queued. |
| `MqttTheorems.FramesCountReads` | source/server/io_wally/mqtt_connection.cpp:171-174 | The frame count these results compare is the number of read handlers run. |
| `MqttTheorems.StaleKeepAliveWitness` | source/server/io_wally/mqtt_connection.cpp:413-434 | A run in which a client is closed for its keep-alive although its PINGREQ was handled first: the expiry was already queued. |
| `MqttTheorems.DeadlineStaleness` | source/server/io_wally/mqtt_connection.cpp:133-150 | In every run a connection whose CONNECT is accepted is still closed by its connect deadline if and only if the deadline had expired before the CONNECT was handled. |
| `MqttTheorems.StaleDeadlineWitness` | source/server/io_wally/mqtt_connection.cpp:133-150 | A run in which a client is accepted, acknowledged, and then closed by the connect deadline. |
| `MqttLaws.NextKeepsInv` | source/server/io_wally/mqtt_connection.cpp:94-480 | Every step of the environment and of every handler keeps the invariant behind these results. |
| `MqttConnection.MqttConnection.ProcessConnectPacket` | source/server/io_wally/mqtt_connection.cpp:273-305 | Second CONNECT, refusal, acceptance, and the two places an exception can escape from. |
| `MqttConnection.MqttConnection.DispatchDisconnectPacket` | source/server/io_wally/mqtt_connection.cpp:322-334 | The dispatcher is told, then the connection stops; a missing client id is not checked for. |
| `MqttConnection.MqttConnection.ConnectionCloseRequested` | source/server/io_wally/mqtt_connection.cpp:436-480 | The notice each reason calls for, if there is an identity, and then the stop. |
| `MqttConnection.MqttConnection.Step` | source/server/io_wally/mqtt_connection.cpp:94-480 | Every step the environment or the event loop takes is the step of the state machine, and keeps the manager's set equal to the open connections. |
| `MqttConnection.MqttConnectionManager.Start` | source/server/io_wally/mqtt_connection_manager.cpp:15-20 | The new connection joins the set; the set is still exactly the open started connections. |
| `MqttConnection.MqttConnectionManager.Stop` | source/server/io_wally/mqtt_connection_manager.cpp:22-27 | The connection leaves the set and is closed. |
| `MqttConnection.MqttConnectionManager.StopAll` | source/server/io_wally/mqtt_connection_manager.cpp:29-35 | Every open connection is closed through its own `do_stop`, closed ones are not touched, and the set is empty. |

## Left out

- All real I/O, resolvers, acceptors, signals, threads and logging. Sends, receives, timers and the authentication
  verdict are parameters or nondeterministic.
- The frame reader, packet codec, dispatcher and sessions are the environment: they yield decoded, malformed or
  unsupported frames, record what is dispatched, and may send on or stop the connection during a call. Exceptions thrown
  inside the completion condition of the frame read are not modelled.
- MqttConnection.MqttConnection.DispatchDisconnectPacket: what follows the read of a missing client id is not modelled;
  `trapped` marks such a connection, and no further step of it is considered. Dispatching a packet is the same.
- An exception that leaves a handler ends that handler; what the caller of `io_service::run` does with it is not part
  of this model.
- The shared write buffer, which overlapping writes of one connection may overwrite, and all packet contents.
- `stop` runs its handler inline, as it does when called on the connection's strand.
- Time. The code closes a client after the keep-alive interval itself; section 3.1.2.10 of MQTT 3.1.1 allows one and a
  half times that. Only the order of arming, expiry, cancellation and handling is modelled.
- Outstanding operations are sequences from which any element may be taken next; they stand for multisets.
- `size_t`, `ptrdiff_t` and the `int` casts of `pbump` and `gbump` are unbounded integers; so are buffer addresses.
- `BufferCopy` takes memory as one array and buffers as offsets in it. Buffer debugging checks and the overloads that
  only forward to the ones modelled are left out.
- `advance` is split by the sign of its argument into two methods; its most negative argument is not special here.
- The completion condition of `asio::read` is any function of the error and the bytes read so far that asks for nothing
  more after an error; the stream yields nothing without an error finitely often.
- `pbackfail`, `data()` and `prepare` regions kept across a reallocation, in both stream buffers; the input side,
  connecting and the timer thread of the socket stream buffer.
- A failed send of the socket stream buffer is taken to have moved no byte, as asio reports it.
- CxxoptsParser.ParseResult.ParseOption: values are kept as the texts fed; what a value parser stores, and defaults
  being appended twice to a container, are not modelled. `accepts` is a fixed predicate on texts.
- The regular expressions are written out as functions on ASCII text; locales are not modelled. `argc` is at least one.
- Help formatting, option declaration and grouping.
