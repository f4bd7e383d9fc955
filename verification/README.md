# RtCSP: a verified model

RtCSP is a chat server and a benchmark client. This project models, in Dafny, the parts of it that
carry hard guarantees, and proves them.

* **The serializer** (`serialize.c`) prints C objects under a format tree and reads them back, and
  skips values it has no schema for. `Schema` has formats and contents; `Printer`, `Parser` and
  `Skipper` specify the three mutually recursive algorithms as functions of the buffer, with the
  announced length as an unsigned 32-bit number that wraps; `Serializer` has the algorithms as they
  run, appending to a buffer, advancing a position and writing the object in place, each method
  proved equal to its specification. `Wire` gives the trees behind the texts and `Decoder` what a
  tree means to a schema; that the byte parser refines this meaning is what the theorems in
  `RoundTrip`, `Exact`, `Contents`, `Evolution`, `Canonical` and `Limits` rest on. `Bounds` says how
  far an accepted value may reach. `Spelling` states the printed text in its letters and marks,
  `Scanning` what the C library reads, `Tolerance` what is made of texts nobody prints, and
  `Storage` what ends up in memory.
* **Framing** (`socket.c`): `Framing` specifies length-prefixed frames and the reassembly state
  machine and proves that delivery does not matter; `Socket` has the connection's buffer as it is
  updated across calls. `EndToEnd` carries a request from the client's printer through frames and
  the server's key lookup to the hook, and the reply back.
* **The connection manager** (`conn.c`, `queue.c`, `loop_event.c`): `RwLock`, `Lifetime` and
  `Server` are systems of interleaved steps, one for each place a thread can be overtaken, with
  theorems about every state of every run. `Queues`, `Allocator` and `Handlers` have the linked
  queue, the index table and the notification loops as code on the heap. `Locking` puts the lookups
  and removals of `Lifetime` under the lock's own steps and proves every such run one of `Lifetime`,
  and `Sections` the converse. `LifetimeHistory` and `ServerHistory` say what the state tells of the
  past: the flags, slots, references, switch and pipes as functions of the actions alone.
* **The benchmark's phase barrier and statistics** (`bench_event.c`): `Barrier` is the protocol
  between the main thread and the workers, `Phase` one worker within a phase, `Statistics` the ring
  of the last ten seconds. `Counting` counts threads.
* **The option scanner** (`getopt.c`): `Getopt` specifies a call as a function of the place the
  scanner keeps, refines it by the scanner's loops, and proves that a command line is read as it was
  written; `OptionErrors` has the answers to command lines that break the rules.

Results that come out as conditions. Contents come back from their print exactly when they are
storable and the memory parsed into is ready for them (`Exact.RoundTripExact`). So an object is read
back exactly when it has a field and its keys have 1 to 100 bytes (`Limits.ObjectLimit`); a
string-keyed table exactly when it has at most one entry (`Limits.StringTableLimit`); an int-keyed
table exactly when `malloc` returns zeroed memory or every value is written in full, that is, holds
no pointer, no empty fixed string and no fixed array with room left (`Limits.TableValueLimit`);
where only what a fixed array holds up to its length counts, the array need not be full, just not
empty (`Contents.TableContentsLimit`). What was read from any bytes can be printed and read again
exactly when no table key is an empty string (`Canonical.Canonicalise`). A value behind values of
other types is read exactly when the announced length covers what its length check asks for, which
for strings and arrays counts the skipped bytes twice (`Tolerance.SkipsOthers`). A value is skipped
exactly when no char in it is a semicolon (`RoundTrip.SkipPrinted`); a message is received exactly
when it is non-empty, below 2^24 bytes and within the limit (`Framing.AcceptedFrames`); an attached
option value comes back exactly when it is non-empty and does not begin with `=`
(`Getopt.LongAttached`, `Getopt.ShortAttached`).

A connection may be closed safely exactly when its `l` has been written: a close that overtakes the
`l` can make a worker free the connection and pop it afterwards (`Server.CloseExact`,
`Server.OvertakenClose`). A connection's removal gets through exactly when no thread holding a
reference waits for the lock (`Lifetime.ProceedExact`). The benchmark's barrier holds, with one
completion byte per worker and stage, exactly in the runs whose workers have a connection left when
they treat the first begin byte and do not lose the last one before (`Barrier.LedgerExact`);
`Barrier.TwoBytesInOneStage`, `Barrier.EarlyCloseSkipsPhase` and `Barrier.EmptyWorkerLoops` are runs
without that. A worker's completion byte means "finished" exactly when no connection closed after
completing (`Phase.ByteMeansFinished`).

Conventions. Buffers end in a NUL, as `socket.c` and `GString` guarantee, so a read at or past the
end yields NUL. `char` is signed and `long` has 64 bits. A parse starts from given old contents;
"zeroed" says whether `malloc` returns zeroed memory, and the theorems hold for both unless they say
otherwise. `format.txt` lists tags (`B`, `F`, `O`, `H`) that no code writes or accepts, and gives
floats without semicolon in one place; the model follows the code.

## Model

| member | source | states |
|---|---|---|
| Serializer.SerializeString | serialize.c:511-618 | Appends to the buffer exactly the text of the value under its format, which opens with the letter of its type, and no other type's, and a colon; nothing already in the buffer changes. |
| Serializer.SerializeLeaf | serialize.c:518-589 | Booleans, chars, integers and both kinds of string are appended in their printed form. |
| Serializer.SerializeArray | serialize.c:597-609 | Count, bracket, every element in order, bracket. |
| Serializer.SerializeTable | serialize.c:501-509 | Every entry of a table, key then value, in the order the table is walked. |
| Serializer.SerializeStringObject | serialize.c:620-629 | Every field in schema order: its key as a string, then its value. |
| Serializer.SerializeParse | serialize.c:163-188 | The typed parser writes into the target in place what the specification of the parse says, returns the consumed bytes (0 for failure) and raises `forcelen` by exactly the skipped bytes; no other slot of the object changes. |
| Serializer.Resynchronise | serialize.c:169-177 | The loop that skips values of another type stops where the specification says and counts what it skipped. |
| Serializer.SerializeParseArray | serialize.c:280-348 | Arrays, dynamic and fixed: element memory is filled in place, the length is clipped to the fixed capacity. |
| Serializer.SerializeParseElements | serialize.c:330-342 | The element loop fills the slots one by one and leaves the others alone. |
| Serializer.SerializeParseObject | serialize.c:439-499 | The field loop over an object: position reached, members written and bytes charged to unknown fields are those of the specification; 0 when it fails or finds no field. |
| Serializer.SerializeParseMember | serialize.c:446-496 | One field: an unknown key skips its value and charges key and value to `forcelen`, a known key is parsed in place. |
| Serializer.SerializeParseTable | serialize.c:370-434 | The entry loop of a hash table, with the string key pointer that is not reset between entries. |
| Serializer.SerializeParseForce | serialize.c:50-161 | The schema-less skipper returns what its specification says, for every input; its nested recursion terminates. |
| Serializer.ForceItems | serialize.c:107-153 | The bracketed item loop, which takes items singly in arrays and in pairs elsewhere, stops exactly where a loop over single items would. |
| Bytes.ScanDecimal | serialize.c:529-565 | `strtol` reads back what `%d`/`%ld` print, up to the next non-digit. |
| Bytes.ScanDigits | serialize.c:581-589 | The same for unsigned decimals. |
| Scanning.DigitsExact | serialize.c:529-589 | What is printed of a number are its decimal digits, without leading zeros. |
| Scanning.DecimalExact | serialize.c:529-565 | A minus stands in front of negative numbers only. |
| Scanning.DigitsOnly | serialize.c:529-589 | Decimal digits without leading zeros are printed by exactly one number. |
| Scanning.NumberRead | serialize.c:201-232 | `strtol` and `strtoul` read any decimal with blanks and a sign in front and leading zeros, up to the first byte that is no digit. |
| Scanning.NoNumberRead | serialize.c:201-232 | Without a digit behind blanks and sign they read zero and stay where they were. |
| Scanning.ULongExact | serialize.c:84-86 | `strtoul` gives a negative number modulo 2^64, and the largest word beyond 64 bits. |
| Scanning.Sub32Exact | serialize.c:80-105 | Announced lengths are subtracted as unsigned 32-bit words. |
| Scanning.StrChrExact | serialize.c:272 | `strchr` finds the first match that no NUL precedes, and nothing else. |
| Scanning.MemChrExact | serialize.c:73-114 | `memchr` finds the first match among the bytes given, and nothing else. |
| Schema.IntKind.Store | serialize.c:201-232 | A number in the range of its field is stored as it is; any other lands in the range, by clamping in `strtol`/`strtoul` and wrap-around on assignment. |
| Storage.StoreExact | serialize.c:201-232 | A number of any size: a signed field takes the nearest 64-bit number, an unsigned one the number modulo 2^64 or all ones beyond it, and the field keeps it modulo its width, in its range. |
| Storage.OneInRange | serialize.c:201-232 | That determines the stored number: no other in range is congruent to it. |
| Spelling.Ranges | serialize.h:35-44 | The range of each of the eight integer types. |
| Storage.InsertExact | serialize.c:409-416 | A table entry gives its key the new value and leaves the others; a new key goes behind, an old one keeps its place. |
| Storage.LastWins | serialize.c:386-427 | In an int-keyed table a key that comes more than once has the value that came last. |
| Storage.AbsentZero | serialize.c:439-499 | Into zeroed memory an object without some of its fields is read with these all zero. |
| Printer.PrintSpells | serialize.c:511-629 | The printed text of any typed contents is the text of a tree of tagged items. |
| Spelling.PrintOpens | serialize.h:8-26 | The first byte of a print is the letter of the format's type, and is that letter for no other type; the second is a colon. |
| Spelling.LeafSpelled | serialize.c:518-589 | Scalars and strings byte by byte: `0` or `1`, the char, the decimal digits, length and bytes, each with its semicolon. |
| Spelling.PartsSpelled | serialize.c:501-629 | Objects, arrays and tables byte by byte: braces, brackets or parentheses around the parts in order, keys as `s:` or `I:` values, the count of an array in front. |
| Skipper.SkipText | serialize.c:50-161 | On the text of any tree, in any surroundings and under any announced length that covers it, the skipper steps over exactly the text; a char that is `;` cuts it short, and makes anything around it fail. |
| Skipper.SkipScalar | serialize.c:73-80 | Scalars end at the first semicolon. |
| Skipper.SkipStrText | serialize.c:82-105 | Strings are skipped by their length, whatever brackets or semicolons they hold. |
| Skipper.SkipPairs | serialize.c:115-153 | A list of key/value pairs is skipped up to its closing bracket. |
| Skipper.SemiStops | serialize.c:73-80 | After a char `;` the enclosing item loop fails. |
| Tolerance.ScalarSkipped | serialize.c:73-80 | A scalar is skipped to the first semicolon among the announced bytes, whatever stands before it, or not at all. |
| Tolerance.StringSkipped | serialize.c:82-105 | A string is skipped by the length it announces, in any spelling, if a semicolon stands behind it; the announced bytes must be more than the string's own and must not end exactly before that semicolon. |
| Tolerance.CompositeSkipped | serialize.c:107-158 | A composite is skipped from the first opening bracket of its kind over items of any number, in pairs or not, to the closing bracket. |
| Tolerance.CompositeCut | serialize.c:107-158 | A composite whose closing bracket is not among the announced bytes is not skipped. |
| Tolerance.NothingSkipped | serialize.c:55-117 | With fewer than two bytes announced, or without the opening bracket among them, nothing is skipped. |
| Decoder.ParseText | serialize.c:163-437 | The byte-level parser refines a tree-level reading: wherever the tree fits the format, it stores what the tree means, consumes exactly the text and charges exactly the unknown fields. |
| Decoder.ParseMembersText | serialize.c:445-496 | The same for the fields of an object, whatever follows. |
| Decoder.ParseEntriesText | serialize.c:386-427 | The same for the entries of a table. |
| Tolerance.EntryBehind | serialize.c:386-427 | Values of other types before an entry's number key and before its value are skipped and charged. |
| Tolerance.NameBehind | serialize.c:386-404 | The same before a string key, which is found if and only if the announced length covers what its check asks for. |
| Decoder.ParseLeafText | serialize.c:190-232 | The same for scalars and strings. |
| Decoder.ParseKeyText | serialize.c:445-472 | A field key of fitting length is read up to its NUL and consumed whole. |
| Tolerance.ByteRead | serialize.c:191-200 | A boolean is false for `0` and true for any other byte, a char is its byte, whatever follows before the semicolon. |
| Tolerance.IntRead | serialize.c:201-232 | An integer in any spelling, with any bytes between it and the semicolon. |
| Tolerance.NoIntRead | serialize.c:201-232 | Without digits behind blanks and sign an integer is zero. |
| Tolerance.ScalarRefused | serialize.c:272-276 | A scalar without a semicolon before the end of the text is refused. |
| Tolerance.NoValue | serialize.c:169-188 | Nothing is read where nothing is announced, the colon is missing, or a byte stands that opens no value. |
| Tolerance.StringRead | serialize.c:280-319 | A string whose length is announced in any spelling is read if and only if it lies within the announced bytes, ends in a semicolon and finds no string there; a fixed string keeps the first bytes that fit. |
| Tolerance.FixedString | serialize.c:290-319 | The print of a string longer than a fixed field is consumed whole, and the first `cap` bytes are stored. |
| Tolerance.KeyExact | serialize.c:446-472 | A field key is taken if and only if it announces 1 to 100 bytes that lie within the announced length and before a semicolon. |
| Tolerance.CountExact | serialize.c:280-348 | An array is read if and only if it has as many elements as it takes (of a fixed one at most its capacity) and its count is not beyond the announced bytes; further elements are refused. |
| Tolerance.SkipsOthers | serialize.c:163-188 | Any values of other types in front are skipped and charged, and the value behind them is read if and only if the announced length covers what its check asks for: strings and arrays count the skipped bytes twice. |
| RoundTrip.DecodePrint | serialize.c:163-437 | Reading the tree of a value over ready memory rebuilds the value with nothing charged to unknown fields. |
| RoundTrip.RoundTripAt | serialize.c:163-437 | Round trip anywhere in a buffer: exact contents, exact length, nothing skipped, for all formats without floats and unbounded nesting. |
| RoundTrip.RoundTrip | serialize.c:631-648 | Parsing a printed value followed by anything, into zeroed memory, gives the value, its length and `forcelen` 0. |
| RoundTrip.PrefixFree | serialize.c:511-618 | Per format, no print is a proper prefix of another, and equal prints have equal contents. |
| RoundTrip.ObjectRoundTrip | serialize.c:650-668 | The bare-field form of an object round-trips too, if what follows does not begin like a key, with `s:`, or is too short for one. |
| RoundTrip.SkipPrinted | serialize.c:50-161 | The skipper steps over the print of any typed contents exactly if no char in it is a semicolon. |
| Exact.RoundTripExact | serialize.c:163-437 | For every format, memory and typed contents: the print is read back in full if and only if the contents are storable and the memory is ready for them; the parse fails if and only if the tree cannot be stored. |
| Exact.OnlyReady | serialize.c:163-437 | The converse of the round trip: contents rebuilt from their tree were storable, and the memory was ready. |
| Exact.ParseBad | serialize.c:163-437 | On the print of typed contents whose tree cannot be stored (a key too long or empty, a second string key, a pointer already set) the parser fails. |
| Contents.ContentsExact | serialize.c:163-437 | The same equivalence for contents: where unused slots of fixed arrays do not count, the print is read in full to the same contents if and only if each part finds the memory it needs. |
| Bounds.ParseBound | serialize.c:272-283 | An accepted value ends within the buffer, or one byte past it, which happens exactly for an empty string or array that the buffer cuts short; nothing is then stored. |
| Bounds.ObjectBound | serialize.c:439-499 | The field loop stops within the buffer, or one byte past it, which happens exactly when its last field is a known one whose value is cut short. |
| Limits.ObjectLimit | serialize.c:448-457 | A printed object is read back if and only if it has a field and every key has 1 to 100 bytes; otherwise the parse fails. |
| Limits.StringTableLimit | serialize.c:383-404 | A printed string-keyed table is read back if and only if it has at most one entry: the second key meets the pointer of the first. |
| Limits.TableValueLimit | serialize.c:409-423 | An int-keyed table of any element format is read back in full, unused slots of fixed arrays included, if and only if the allocator zeroes the value memory or every value is written in full. |
| Contents.TableContentsLimit | serialize.c:409-423 | It is read back to the same contents, unused slots aside, if and only if the allocator zeroes the value memory or every value consists of scalars, non-empty fixed strings and non-empty fixed arrays, and objects of these. |
| Limits.StringValueLimit | serialize.c:409-423 | An int-keyed table of dynamic strings over memory that is not zeroed: the parse fails if and only if some string is not empty. |
| Evolution.SchemaEvolution | serialize.c:474-485 | A text whose tree, once its unknown fields are taken out at every depth, is the printed one is read to the printed contents; `forcelen` ends at the bytes taken out. |
| Evolution.PrintedGrown | serialize.c:474-485 | The print of any contents with any number of unknown fields put in, in any object at any place and depth, is read to the same contents; `forcelen` ends at the bytes put in. |
| Evolution.GrownExact | serialize.c:474-485 | Putting unknown fields in and taking them out are inverse: over a tree without such fields, the trees grown from it are exactly those that come down to it and whose unknown values can be skipped. |
| Evolution.DecodeStrip | serialize.c:445-496 | Reading a tree and reading it without its unknown fields give the same contents, and the charges differ by the bytes removed. |
| Evolution.StripInsert | serialize.c:474-485 | Inserting an unknown field among an object's fields is undone by removing unknown fields. |
| Evolution.Permuted | serialize.c:439-499 | Any permutation of fields with distinct keys is read to the same contents, length and charge. |
| Evolution.FieldOrder | serialize.c:439-499 | The same for the byte-level parser on two texts. |
| Evolution.PrintedOrder | serialize.c:439-499 | A printed object whose fields arrive in any order is read back in full. |
| Evolution.Independent | serialize.c:487-495 | Two fields with different keys commute. |
| Canonical.ParseHeld | serialize.c:163-437 | Whatever bytes are accepted into zeroed memory, the target then holds contents in the range of its format: truncated integers, clipped strings and arrays, distinct table keys. |
| Canonical.Canonicalise | serialize.c:631-682 | If any bytes are accepted and no part of the result is unset memory, printing the result and parsing that print gives the same contents if and only if they are storable, and printing once more the same text. From zeroed memory no part is unset, and the contents are storable if and only if no table key is an empty string. |
| Canonical.NormalPrints | serialize.c:511-618 | The normal form of typed contents (dead array slots zeroed) prints the same and is its own normal form. |
| Framing.HeaderRead | socket.c:20-51 | The four length bytes are read back as the length if the high byte is zero; otherwise the receiver hangs up. |
| Framing.AcceptedFrames | socket.c:55-104 | A frame is taken if and only if its message is non-empty, shorter than 2^24 and within the receive limit. |
| Framing.FrameBytes | socket.c:106-125 | A frame is the length of the message in four bytes, the highest first, and the message. |
| Framing.ReplyExact | socket.c:20-104 | In any state, whatever the receives bring: the receiver hangs up if and only if a receive it makes finds the stream closed, or the header announces nothing, 2^24 bytes or more, or more than the limit; it hands out a message if and only if the bytes complete it, and keeps them otherwise. |
| Framing.CallConserves | socket.c:55-104 | One `socket_recv` neither loses, adds nor reorders bytes between stream, buffer and message; a held buffer is never full. |
| Framing.RunConserves | socket.c:55-104 | The same for any run of calls: frames of the messages handed out, then the bytes in flight, are the bytes taken. |
| Framing.NeverHangsUp | socket.c:55-104 | Acceptable messages never make the receiver hang up. |
| Framing.Delivery | socket.c:55-135 | However a stream of acceptable messages is cut and delayed, the calls hand out a prefix of the messages, in order, and all of them once all bytes are taken. |
| Framing.FramesPrefix | socket.c:106-135 | Framing is uniquely decodable: frames that begin a stream of frames are its first messages. |
| Socket.SocketSend | socket.c:106-135 | Writes exactly the frame of a non-empty message and returns its length; refuses an empty one. |
| Socket.Connection.RecvLength | socket.c:20-51 | The header loop: -1 without data, 0 to hang up, which it does on a closed stream, otherwise the big-endian length; takes just the header from the stream. |
| Socket.Connection.SocketRecv | socket.c:55-104 | One call on `rbuf`, `rbytes`, `rsize` is one step of the reassembly machine, and takes from the network what that step accounts for; on a closed and drained stream it returns 0. |
| Socket.ReadLoop | loop_event.c:160-177 | Repeated calls on one connection deliver a prefix of the messages sent, and all of them once the stream is drained; they hang up only on a stream that is closed and drained, after every message. |
| EndToEnd.RequestReachesHook | loop_event.c:177-203 | The hook gets exactly the key and the body of a request, and the printed key as reply prefix; an unregistered key is reported. |
| EndToEnd.ReplyReachesClient | bench_event.c:73-90 | The reply made of the echoed prefix and a payload is accepted under the same key, with that payload. |
| EndToEnd.OtherKeyRefused | bench_event.c:73-90 | A reply under another key is not accepted; a message under an empty key is neither dispatched nor accepted. |
| EndToEnd.NoValueNoHook | loop_event.c:183-190 | A message that does not begin with a value reaches no hook. |
| EndToEnd.Conversation | loop_event.c:160-213 | Requests framed into one stream and delivered in any pieces reach the hooks in order, each with its own key and body. |
| Queues.Queue.constructor | queue.c:4-14 | An empty queue. |
| Queues.Queue.Push | queue.c:16-31 | The contents gain the entry at the end. |
| Queues.Queue.Pop | queue.c:33-53 | The oldest entry is removed and returned; nothing on an empty queue. |
| Allocator.FreshIndex | conn.c:110-117 | The index handed out belongs to no live connection, also when it is the live count. |
| Allocator.HighWater | conn.c:104-156 | After any run, live and free indices are disjoint, without duplicates and together 1..H, `conn_num` is the number live, and H is the most connections that were ever live together. |
| Allocator.SlotsUsed | conn.c:46-47 | With at most `slots` connections live together no index above `slots` is used, and `slots` itself is used exactly if that many were live together. |
| Allocator.FirstFreedFirst | conn.c:110-139 | Indices are reused in the order they were freed; none is lost or doubled. |
| Allocator.Table.InsertConn | conn.c:104-126 | The slot array, the count and the queue change as the allocator says; the connection gets its index and becomes referable. |
| Allocator.Table.RemoveConn | conn.c:128-139 | The slot is cleared, the count lowered, the index queued last. |
| Allocator.Table.IndexConn | conn.c:51-65 | A live, referable connection is returned with one more reference; nothing else changes. |
| RwLock.StepInv | conn.c:18-37 | Every step of every thread keeps the lock's invariant. |
| RwLock.MutualExclusion | conn.c:18-37 | In every run of any number of threads: no second thread inside beside a writer, `readers` counts the threads between its updates, and the writer mutex is held exactly while a writer is inside or the readers own it. |
| RwLock.Grants | conn.c:18-37 | In every run a thread comes to read only when nobody writes, and to write only when nobody is inside. |
| RwLock.ReadersTogether | conn.c:18-30 | Any number of threads get in to read together. |
| RwLock.NoDeadlock | conn.c:18-37 | In every state of every run some thread can step. |
| Lifetime.NeverDangling | conn.c:51-79 | In every state of every run, whatever a thread references, is about to reference or can look up is allocated, and its count is positive while a reference is held. |
| Lifetime.FreedUnreferenced | conn.c:128-156 | A connection is freed by its remover only, when no thread references it or is about to. |
| Lifetime.NeverReturned | conn.c:51-65 | A freed connection is never returned by a later lookup. |
| Lifetime.ClosingNotFound | conn.c:51-65 | Once a connection is closing (not referable), no lookup that had not found it before ever finds it. |
| LifetimeHistory.LookupExact | conn.c:51-65 | A lookup answers for the index it was asked for with the connection in its slot at the moment it looked, if that was referable, and with nothing otherwise. |
| LifetimeHistory.RefableExact | conn.c:104-126 | In every run a connection is referable if and only if it was inserted and no close of it came since. |
| LifetimeHistory.SlotExact | conn.c:104-139 | In every run a connection stands in a slot if and only if it was inserted there and no removal of the index came since. |
| LifetimeHistory.WholeLife | conn.c:51-156 | A run in which a connection is inserted, found, held and dropped, closed and not found any more, removed and freed. |
| LifetimeHistory.HeldExact | conn.c:67-79 | In every run a thread holds exactly the references it took and has not dropped. |
| Lifetime.WaitsForHolders | conn.c:141-145 | The remover can free if and only if no thread holds a reference, and each reference dropped by a thread that does not wait for the lock lowers the count. |
| Lifetime.ProceedExact | conn.c:141-145 | A waiting remover can get through if and only if no thread that holds a reference waits for the lock itself. |
| Locking.StepRefines | conn.c:18-156 | With the lock taken and given up by its own steps, each step of a thread is one of `Lifetime` or changes nothing there: who is inside has the lock, and the lock's exclusion is the guard `Lifetime` starts from. |
| Locking.Refines | conn.c:18-156 | What any number of threads do to the table and the counts, in any run under the lock's own steps, they do in a run of `Lifetime`. |
| Sections.Complete | conn.c:18-156 | And conversely: every run of `Lifetime` is what the threads do in some run under the lock's own steps, each getting in and out by steps of its own. |
| Locking.SafeUnderLock | conn.c:18-156 | In every such run nothing held, found or tabled is freed, and while a remover waits nobody else is inside the lock. |
| Server.StepInv | loop_event.c:160-413 | Every step of the listen thread, the workers and closing threads keeps the server's invariant, closes of queued connections whose `l` is written included. |
| Server.NoLostWakeup | loop_event.c:65-86 | In every state of every run, if accepting is off then the table is full, or an `e` byte is pending or being treated, or a worker is about to write one. |
| ServerHistory.SwitchExact | loop_event.c:65-75 | In every run accepting is off if and only if some denial was not followed by an enabling. |
| ServerHistory.OffAndOn | loop_event.c:371-388 | A run in which a server for one client opens it, denies the second, stops accepting, and accepts again when the first has gone. |
| ServerHistory.RefusedAndClosed | loop_event.c:371-413 | A run in which a client refused by a hook leaves nothing behind, and the next one is served and closed on request. |
| ServerHistory.WordsKept | loop_event.c:77-86 | No `e` byte is lost or doubled: those written are treated, being treated or in the pipe. |
| Server.WakesUp | loop_event.c:321-347 | If accepting is off with room in the table, at most three steps already under way turn it on, without touching connections. |
| Server.Capacity | loop_event.c:371-388 | The live count never passes the limit and every index lies in 1..maxclients, names one live connection and decides its worker, although check and insertion are separate. |
| Server.QueuesBalance | loop_event.c:232-267 | The assertions on popped connections hold and no connection is removed twice; each queue is as long as its pending bytes plus those about to be written; entries belong to the queue's worker, once; and a connection in both queues is opened before it is closed. |
| ServerHistory.PipesInOrder | loop_event.c:215-268 | In every run a worker treats the notifications written to it in order, each once; the rest is pending. |
| ServerHistory.ReadExact | loop_event.c:227-230 | A handler reads the pending bytes in order, up to 1024 at a time, and only when it has treated what it read before. |
| Server.CloseExact | socket.c:165-187 | After a close of any referable connection, in any state the server reaches, the assertions on popped connections can fail if and only if the connection's `l` had not been written. |
| Server.OvertakenClose | loop_event.c:253-257 | A run in which a queued connection is closed before its `l` is written, and can be freed before it is popped. |
| Server.NothingForgotten | loop_event.c:215-413 | When all notifications are treated, every live connection is served and not closing, every queue is empty, and accepting is off only if the table is full. |
| Handlers.WorkerThread.Notify | loop_event.c:227-268 | The byte loop takes as many entries off each queue as the buffer announces, oldest first, and tells the listen thread of every removal. |
| Handlers.ListenThread.Notify | loop_event.c:328-346 | The byte loop leaves the switch as the last `e` or `d` says, and rebinds the event only when it changes. |
| Handlers.SwitchedExact | loop_event.c:328-346 | The switch is on after a buffer if and only if an `e` came that no `d` follows, or it was on and no `d` came. |
| Barrier.StepInv | bench_event.c:61-72 | Every healthy step keeps the barrier's invariant. |
| Barrier.BarrierHolds | bench_event.c:345-378 | Bytes pending, bytes counted and workers that still owe one make up the number of threads; the main thread moves on only after every worker has begun the stage, accounted for all its connections and written exactly one completion byte in it, with no byte left over. |
| Barrier.PhasesInOrder | bench_event.c:353-378 | Each advance is to the next phase, and the end comes after the last. |
| Barrier.AtMostOneByte | bench_event.c:105-114 | In every healthy run a worker writes at most one completion byte from one advance of the main thread to the next, and has written it exactly when it owes none. |
| Barrier.LedgerNeedsHealth | bench_event.c:178-182 | Where the barrier stands, a step keeps that ledger if and only if it is healthy. |
| Barrier.LedgerExact | bench_event.c:178-182 | A run keeps the ledger in all its states if and only if all its steps are healthy. |
| Barrier.TwoBytesInOneStage | bench_event.c:345-377 | A run in which a worker without connections starts the phase over and the other one writes two completion bytes in the same stage, on which the main thread moves on. |
| Barrier.OneAnswerPerBegin | bench_event.c:105-114 | In every run, healthy or not, a worker answers each begin byte at most once and makes its connections once. |
| Barrier.BalanceNeedsHealth | bench_event.c:62-72 | Where the barrier stands, losing a connection keeps the balance if and only if the worker has begun or has another connection left. |
| Barrier.EarlyCloseSkipsPhase | bench_event.c:345-351 | A run in which a worker loses its only connection before the begin byte: the main thread leaves the phase before that worker has begun it. |
| Barrier.EmptyWorkerMute | bench_event.c:178-182 | A worker that could make no connection is mute when the first phase reaches it: all it holds are begin bytes, and it has told nothing. |
| Barrier.MuteStep | bench_event.c:178-182 | No step of any thread ends that while the phase lasts, and the worker treats a begin byte by writing a begin byte. |
| Barrier.EmptyWorkerUnheard | bench_event.c:178-182 | For any number of workers and in every run, a mute worker stays mute as long as the first phase lasts: it answers begin with begin and writes no completion byte, so the phase can only be left without its signal. |
| Barrier.EmptyWorkerLoops | bench_event.c:178-182 | A run in which a worker without connections answers begin with begin: the phase starts over for ever. |
| Phase.TellsWhenDone | bench_event.c:97-115 | Within a phase the worker has reported, once, if and only if no more connections are busy than closed after completing; without such closes, if and only if all are finished. |
| Phase.AnsweredExactly | bench_event.c:105-109 | After any events of a phase a connection that has not closed is done if and only if it was answered as often as the phase asks for (once at least), and otherwise waits with exactly its answers counted. |
| Phase.AllAnswered | bench_event.c:105-114 | When every connection was answered that often or has closed, the worker has written its byte, once. |
| Phase.LinkRun | bench_event.c:62-114 | From any point of a phase: answers up to the quota, done with the last of them, and after a close no answer; closed after completing or before is told apart. |
| Phase.ByteMeansFinished | bench_event.c:105-114 | The completion byte finds every connection finished if and only if none closed after completing. |
| Phase.CountedTwice | bench_event.c:68-72 | The connection that completes and then closes is counted twice: the worker reports with another connection busy. |
| Phase.Worker.BeginPhase | bench_event.c:174-191 | A begin byte resets the completion count and restarts every open connection. |
| Phase.Worker.OnAnswer | bench_event.c:105-114 | An answer sends the next request or completes the connection. |
| Phase.Worker.OnClose | bench_event.c:62-72 | A close is counted and may be the last one waited for. |
| Statistics.TickConsistent | bench_event.c:421-443 | Draining the counter into the ring keeps sum, minimum, maximum and totals right, though the unsigned sum wraps. |
| Statistics.LastTen | bench_event.c:421-443 | The window is the last ten samples, padded with zeros in front, and words are 32 bits wide. |
| Statistics.Slide | bench_event.c:426-429 | A new sample pushes the eleventh last one out of the sum. |
| Statistics.Extremes | bench_event.c:432-436 | The minimum and maximum bound all samples of the phase and are among them. |
| Statistics.Counter.Tick | bench_event.c:421-443 | One second: the counter becomes the newest sample. |
| Statistics.Counter.Reset | bench_event.c:272-289 | A new phase starts from an empty history. |
| Statistics.Counter.Increment | bench_event.c:92 | An answer is counted, modulo the word. |
| Statistics.Counter.Report | bench_event.c:438 | The displayed sum is that of the ring and of the last ten samples; drained samples and current counter make up all increments of the phase, modulo 2^32. |
| Getopt.Progress | getopt.c:70-201 | Every call leaves the scanner at a readable place and, unless it is the end, uses up an argument or a character of the cluster. |
| Getopt.ReturnsExactly | getopt.c:70-201 | For any command line written from options in the supported styles, clusters included, the calls return exactly those options and values in order, then the end. |
| Getopt.AllCalls | getopt.c:70-201 | The same in front of any further arguments. |
| Getopt.LongAttached | getopt.c:106-112 | A value behind `--name=` comes back if and only if it is not empty and does not begin with `=`. |
| Getopt.ShortAttached | getopt.c:175-182 | A value behind a letter, alone or behind flags in a cluster, comes back if and only if it is not empty and does not begin with `=`. |
| OptionErrors.FindShortExact | getopt.c:140-158 | A letter finds the first option of that letter before the end of the table, or nothing. |
| OptionErrors.FindLongExact | getopt.c:114-123 | A name finds the first option of exactly that name before the end of the table, or nothing. |
| OptionErrors.NameExact | getopt.c:105-112 | The name of a long option ends before the first `=` that is not its last byte. |
| OptionErrors.LetterRefused | getopt.c:143-154 | An unknown letter is an error, and the scan goes on with the next letter of the cluster. |
| OptionErrors.ColonRefused | getopt.c:133-137 | A colon is an error that ends its argument. |
| OptionErrors.NameRefused | getopt.c:116-118 | An unknown name is an error that uses up its argument. |
| OptionErrors.ValueApart | getopt.c:160-176 | A letter at the end of its argument takes the next argument for a required value, or is an error if there is none; an optional value is not looked for. |
| OptionErrors.LongApart | getopt.c:160-176 | The same for a long option. |
| OptionErrors.MixedCluster | getopt.c:143-195 | Every letter of a cluster of flags and unknown letters is answered, in order, and the next argument comes after them. |
| Getopt.MemNStr | getopt.c:11-41 | The search returns the first occurrence of the needle, or nothing if there is none. |
| Getopt.Scanner.Getopt | getopt.c:70-201 | One call on the variables that live between calls is one step of the specification, for every input. |
| Getopt.Scanner.Options | RtCSP.c:129-131 | The program's loop collects what the specification of repeated calls says. |

## Left out

- Float, double and long double fields: formatting by the C library, lossy by design; the skipper does cover their tags.
- Raw memory: offsets, unions and allocation failure; an object is a sequence of members, a fixed capacity a number, and a nested object is parsed in its own array and written back.
- Serializer.Resynchronise: `Tolerance.SkipsOthers` gives the case of whole values of other types in front; where the loop stops in bytes that are no values is left to the specification.
- RoundTrip.RoundTrip: messages whose length plus one reaches 2^32 are excluded, where the positions and lengths of the code wrap.
- Reads beyond the terminating NUL: malformed input that would make the code read further sees NUL, which fails the parse.
- `forcelen` and the element counters are natural numbers; they cannot wrap within one message.
- Torn headers and partial writes: a header arrives whole or not at all, `send` writes everything, and a socket error reads as no data, as in the code.
- EndToEnd.RequestReachesHook: an empty key leaves a null pointer that the hook table cannot look up; it counts as unparsed.
- Allocator.Table.InsertConn: the slot array has room for the indices 1..maxclients, while `attach_conn` allocates maxclients pointers, numbered from 0; `Allocator.SlotsUsed` says when the last index is used. The room itself is the caller's check.
- Allocator.Table.RemoveConn: the wait for the reference count and the freeing are in `Lifetime`.
- Lifetime.ProceedExact: stated with the lock's guards; a waiter is let in at any time they allow, while the steps of the lock itself are in `RwLock` and `Locking`.
- Canonical.Canonicalise: contents with a part left unset by `malloc` have no print that the model could name.
- Lifetime.FreedUnreferenced: removal is asked for live connections, once each, and an address is not reused within a run.
- Server.QueuesBalance: closes are those whose `l` is written, the others being the failing half of `Server.CloseExact`; a close does not overlap with a close by the peer; the check and the clearing of `refable` in `socket_close` are one step, and so is each section under the lock.
- Shutdown: `signal_handler` and the draining of the queues afterwards.
- Server.NoLostWakeup: only `e` bytes are in the listen pipe, as no code of the server asks for `d`; `Handlers.ListenThread.Notify` treats both. Pipes do not fill up.
- The hooks' own effects, libevent, sockets, signals, threads and timeouts.
- Barrier.BarrierHolds: the module and hook numbers are one phase number; the timeout handlers and the final break bytes are not modelled.
- Phase.TellsWhenDone: every request sent gets at most one answer, and a connection with its last answer gets no further one; the skip feature of the benchmark is left out.
- Statistics.Counter.Report: the printed averages and rates are floating point and left out; the two atomic counters are two instances of one class.
- Getopt.Scanner.Getopt: error messages, and the `show_err` and `arg_start` arguments, which do not change what is returned.
- The MySQL and demo modules, the PHP generator, server start and stop, `api.c` and the build scripts.
