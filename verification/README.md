# Verified model of the slow-control software

This project models, in Dafny 4.11, three parts of the repository and proves what they are for.

**The MessagePack codec of rpclib** (MessagePack specification, section "Formats").
`Format` has values, a recursive reference decoder on byte sequences that knows no cursors or states, and the limits
and copies by which the two parsers differ from the standard. `Encoding`, `Decoding`, `Canonical` and `Limiting` prove
the laws of the format: round trip with any suffix, prefix-freeness, the trichotomy of inputs, shortest form, exact
limits, and where the two parsers agree. `Wire` writes the formats out byte by byte, as the specification lists them,
and proves that the decoder reads and the packer writes them so. `Resumption` and `StateTokens` say what a state in the
middle of a message means: the bytes read so far, for every continuation of them. `Arena` models a zone as blocks of raw
slots filled through pointers. On these, `ObjectVisitor` and `ParseV2` are the v2 visitor and parser as classes with the source's
fields and loops, `PartialObjects` and `ParseV1` the v1 parser, and `Unpacking` the one-message functions.
`Packing` is the packer with its recursive object printer, `Equality` the object comparison, `Cloning` the deep copy
with its size computed beforehand, `SimpleBuffer` and `VRefBuffer` the sinks, the latter over the flat byte memory of
`Memory`. `Buffers`, `StreamUnpacker` and `Streaming` are the stream unpacker: buffer growth, counted buffers that
objects go on reading, and independence of chunks. `EndToEnd` puts the pieces together.

**The write queue of a session**: `AsyncWriter`, a state machine of submissions, completions and an exit flag that
may rise before every read of it, and the class whose methods are its steps.

**The cryostat controller**: `Pid` and `Cryo`, the seven states, two PID controllers that share cells with their
owner, and the database row through which outputs leave one step late. Doubles are reals.

What the proofs show that the code and its documentation do not say:

- v2 passes body sizes through 32 bits. An ext32 with length 0xffffffff is a body of 2^32 bytes, and if v2 has to copy
  it, nothing of it is kept, while v1 throws with the default limits (`Limiting.ParsersDiffer`). When neither parser
  throws, this is the only difference (`Limiting.ParsersAgree`). With tight limits v2 throws more: on empty containers
  at the depth limit and on referenced bodies over their limit (`Limiting.ParsesWithin`, `Limiting.ParsesWithinV1`,
  `Limiting.V2Stricter`).
- `clone` loses such an ext in the same way (`Cloning.CloneExact`).
- `operator==` on ext objects compares from the type byte on but counts the data only, so the last byte is never
  compared, and two empty ext objects of different types are equal (`Equality.EqualMeansSame` has the exact condition).
- A socket can be closed while a write is outstanding, because the completion handler reads `exit_` three times; the
  steps that do it are known exactly (`AsyncWriter.ClosesExactly`, `AsyncWriter.ClosedUnderWriteExactly`). After an
  error the queue never moves again (`AsyncWriter.StuckExactly`).
- A PID's output can be outside its limits in automatic mode, exactly as `Pid.NoWindup` says.
- Outside the regions of `Cryo.KeepsState` the controller decides; inside them it goes on with whatever it did, for
  instance with a warm-up that has passed a set point between 220 K and room temperature.
- In Fault the row still receives the minimum cooler power, not zero, with both switches off (`Cryo.FailSafe`).

Conventions: a parse error and an overflow are return values (`ParseError`, `Threw`), because the visitor and the
reference functions throw exactly there. A body's reference is the buffer, the offset and the bytes it had when it was
parsed. Addresses of allocations are whatever the allocator chooses. The three visits for str, bin and ext, and the
array and map forms of starting and ending a container, differ only in type and limit and are one method each with a
parameter. The entry guards are methods of their own, called where the source has them inline. Empty bodies may be
given any offset: nothing is read there.

## Model

| member | source | states |
|---|---|---|
| `Encoding.RoundTrip` | rpclib/rpc/msgpack/v1/object.hpp:243-314 | for every well-formed value, at every depth and with any bytes after it, decoding the packed bytes gives the value back and leaves exactly what followed |
| `Encoding.TokInt` | rpclib/rpc/msgpack/v1/pack.hpp:1411-1594 | the header chosen for a 64-bit integer is read back as that integer, positive or negative, in every mode |
| `Encoding.TokBlob` | rpclib/rpc/msgpack/v1/pack.hpp:1196-1345 | str, bin and ext headers with their bodies are read back as one body of the same kind; an ext keeps its type byte in front |
| `Encoding.TokCont` | rpclib/rpc/msgpack/v1/pack.hpp:1159-1194 | array and map headers announce the same container and count whichever form the packer chose |
| `Bytes.LoadJoin` | rpclib/rpc/msgpack/sysdep.h:149-161 | numbers are big-endian: bytes in front of others count 256 times as much for each of those |
| `Bytes.StoreAt` | rpclib/rpc/msgpack/sysdep.h:163-168 | each stored byte is a digit of the number to the base 256, the first one the highest |
| `Wire.ReadsOneByte` | rpclib/rpc/msgpack/v2/parse.hpp:242-323 | the one-byte formats by their codes: the bytes 00 to 7f and e0 to ff are the integers 0 to 127 and -32 to -1, c0, c2 and c3 are nil, false and true, and c1 is an error, in every mode and whatever follows |
| `Wire.ReadsUnsigned` | rpclib/rpc/msgpack/v2/parse.hpp:359-386 | the bytes after cc, cd, ce and cf are an unsigned integer in 1, 2, 4 and 8 bytes, each byte with its weight written out |
| `Wire.ReadsSigned` | rpclib/rpc/msgpack/v2/parse.hpp:387-414 | the bytes after d0 to d3 are a signed integer in two's complement, each byte with its weight written out; a first byte below 80 makes it a positive one |
| `Wire.ReadsFloat` | rpclib/rpc/msgpack/v2/parse.hpp:339-358 | the bytes after ca and cb are the bit patterns of floats, the highest byte first |
| `Wire.ReadsStr` | rpclib/rpc/msgpack/v2/parse.hpp:440-572 | a str of any length below 2^32 is read after each of the four headers that can show that length, whose length bytes are written out |
| `Wire.ReadsBin` | rpclib/rpc/msgpack/v2/parse.hpp:454-577 | the same for bin and its three headers |
| `Wire.ReadsExt` | rpclib/rpc/msgpack/v2/parse.hpp:415-582 | the same for ext with its five fixed forms and three headers; the type byte comes after the length, which does not count it |
| `Wire.ReadsArray` | rpclib/rpc/msgpack/v2/parse.hpp:583-591 | an array is read after each of the three headers that can show its count, whose bytes are written out |
| `Wire.ReadsMap` | rpclib/rpc/msgpack/v2/parse.hpp:592-599 | a map is read after each of the three headers that can show its number of pairs, whose bytes are written out |
| `Wire.WritesInteger` | rpclib/rpc/msgpack/v1/pack.hpp:1348-1594 | the bytes that the packer writes for every 64-bit integer, written out range by range |
| `Wire.WritesFloat` | rpclib/rpc/msgpack/v1/pack.hpp:1104-1133 | the bytes written for both floats, the highest first |
| `Wire.WritesBodyHeader` | rpclib/rpc/msgpack/v1/pack.hpp:1196-1337 | the header written for every length of a str, bin and ext, byte by byte |
| `Wire.WritesContHeader` | rpclib/rpc/msgpack/v1/pack.hpp:1159-1194 | the header written for every count of an array and a map, byte by byte |
| `Decoding.DecodeLocal` | rpclib/rpc/msgpack/v2/parse.hpp:224-610 | a value is read from its own bytes alone: there is a prefix that decodes to it whatever is appended, leaving what is appended |
| `Decoding.DecodeFinal` | rpclib/rpc/msgpack/v2/parse.hpp:224-610 | every verdict except that more bytes are needed stands whatever bytes arrive later |
| `Decoding.PrefixFree` | rpclib/rpc/msgpack/v2/parse.hpp:242-323 | no message is a proper prefix of another message |
| `Decoding.DecodeComplete` | rpclib/rpc/msgpack/v2/parse.hpp:330-333 | whenever more bytes are asked for, there are bytes that complete a message with nothing left over |
| `Decoding.Trichotomy` | rpclib/rpc/msgpack/v2/parse.hpp:242-323 | input starts with a complete message, or is a proper prefix of one, or has 0xc1 where a header belongs after whole tokens: each if and only if the decoder says so |
| `Canonical.Shortest` | rpclib/rpc/msgpack/v1/pack.hpp:1196-1337 | whatever bytes decode to a value, packing it takes no more of them, and the value is well formed |
| `Canonical.Repack` | rpclib/rpc/msgpack/v1/object.hpp:243-314 | decoding and packing again gives bytes that decode to the same value, and packing is a fixed point of that |
| `Limiting.LimitsExact` | rpclib/rpc/msgpack/v2/create_object_visitor.hpp:107-203 | a complete message is delivered exactly when every container and body passes the parser's checks, and throws otherwise; what is delivered is the value with the bodies that are kept |
| `Limiting.WithinV2` | rpclib/rpc/msgpack/v2/create_object_visitor.hpp:107-203 | v2's checks amount to bounds on sizes, ext counted with its type byte, and on nesting with empty containers counted |
| `Limiting.ThrowsFirst` | rpclib/rpc/msgpack/v2/create_object_visitor.hpp:107-203 | a complete message throws exactly the overflow of the first check that its value fails, in the order of the bytes and with the count before the depth: which of the six limits it is, for both parsers; without such a check it is delivered |
| `Limiting.ParsesWithin` | rpclib/rpc/msgpack/v2/create_object_visitor.hpp:107-203 | v2 parses a complete message without an overflow if and only if its sizes and its nesting are within the limits |
| `Limiting.Unlimited` | rpclib/rpc/msgpack/v1/unpack.hpp:452-841 | with limits that the input cannot reach, the default ones below 4 GiB among them, a parser's outcome on any bytes is the standard's, up to the bodies it copies |
| `Limiting.DeliveredWhole` | rpclib/rpc/msgpack/v2/create_object_visitor.hpp:139-154 | v2 delivers a value unchanged if and only if it does not have to copy an ext of 2^32 bytes; v1 always does |
| `Limiting.WithinV1` | rpclib/rpc/msgpack/v1/unpack.hpp:110-205 | v1's checks amount to bounds on counts, on the sizes of the bodies it copies, and on the nesting of containers that are not empty |
| `Limiting.ParsesWithinV1` | rpclib/rpc/msgpack/v1/unpack.hpp:344-372 | v1 parses a complete message without an overflow if and only if the sizes it copies and the nesting of what is not empty are within the limits |
| `Limiting.NotThrown` | rpclib/rpc/msgpack/v2/parse.hpp:224-610 | whatever the limits, a parser that does not throw gives the standard's outcome on complete, incomplete and invalid input, up to the bodies it copies |
| `Limiting.ParsersAgree` | rpclib/rpc/msgpack/v1/unpack.hpp:344-431 | for all limits and every byte string: a parser that does not throw gives the standard's outcome, v1 exactly and v2 as it keeps bodies; when neither throws they agree except exactly when v2 loses an ext of 2^32 bytes |
| `Limiting.V2Stricter` | rpclib/rpc/msgpack/v1/unpack.hpp:190-205 | whatever v1 refuses for its limits v2 refuses too, on every input, if and only if v1 references an ext of 2^32 bytes or its ext limit admits one |
| `Limiting.ParsersAgreeShort` | rpclib/rpc/msgpack/v2/parse.hpp:53-104 | on every input of at most 4 GiB that cannot reach the limits both parsers give the standard's outcome |
| `Limiting.ParsersAgreeByDefault` | rpclib/rpc/msgpack/v1/unpack_decl.hpp:87-102 | with the default limits that is every input of less than 4 GiB |
| `Limiting.ParsersDiffer` | rpclib/rpc/msgpack/v2/parse.hpp:552-567 | for all limits, on an ext32 of length 0xffffffff: v1 throws if it has to copy it and its limit is below 2^32 bytes, and otherwise delivers all of it; v2 never throws and delivers nothing of what it copies |
| `Resumption.StepItem` | rpclib/rpc/msgpack/v2/parse.hpp:164-199 | adding a value to an open container that still has room resumes to the same outcome on any bytes |
| `Resumption.StepClose` | rpclib/rpc/msgpack/v2/parse.hpp:164-199 | filling the last place of an open container is the same as completing the container around it |
| `Resumption.StepOpen` | rpclib/rpc/msgpack/v2/parse.hpp:53-90 | opening a container and going on inside it gives the outcome of decoding it from its header |
| `Resumption.TrackOpen` | rpclib/rpc/msgpack/v2/parse.hpp:53-90 | a state that tracks the bytes read so far still tracks them when it has read a container header |
| `Resumption.TrackItem` | rpclib/rpc/msgpack/v2/parse.hpp:92-104 | a value that goes to a container with room leaves a state that tracks the same bytes |
| `Resumption.TrackClose` | rpclib/rpc/msgpack/v2/parse.hpp:164-199 | a value that fills its container stands for the container, for every continuation of the input |
| `StateTokens.TrailNumber` | rpclib/rpc/msgpack/v2/parse.hpp:339-414 | the number states read what the recursive decoder reads from the header and the bytes after it |
| `StateTokens.TrailSize` | rpclib/rpc/msgpack/v2/parse.hpp:440-567 | a length field leaves a state that waits for a body exactly as the decoder does, for every continuation |
| `StateTokens.TrailBody` | rpclib/rpc/msgpack/v2/parse.hpp:568-582 | the body states deliver the body that the decoder reads, or the same overflow |
| `StateTokens.TrackOver` | rpclib/rpc/msgpack/v2/create_object_visitor.hpp:155-203 | an overflow of count or depth, count first, is the decoder's verdict on every continuation |
| `StateTokens.TrackShort` | rpclib/rpc/msgpack/v2/parse.hpp:330-333 | with fewer bytes than the state waits for the decoder asks for more too |
| `Parsing.TrailPositive` | rpclib/rpc/msgpack/v2/parse.hpp:328-334 | outside the header state the parser waits for at least one byte |
| `Parsing.AnswerJoin` | rpclib/rpc/msgpack/v2/parse.hpp:224-240 | the answer to the rest of the data is the answer to all of it, wherever it was cut |
| `Arena.HoldsFrame` | rpclib/rpc/msgpack/v2/create_object_visitor.hpp:155-203 | what an object holds depends only on the blocks above it, so blocks that are added later do not change it |
| `Arena.BodySize` | rpclib/rpc/msgpack/v2/create_object_visitor.hpp:107-154 | the size of a str or bin object is the number of its bytes, that of an ext one less, without the type byte |
| `Arena.PutTop` | rpclib/rpc/msgpack/v2/create_object_visitor.hpp:66-154 | writing through the top slot pointer disturbs no open container and no finished item |
| `Arena.AdvanceTop` | rpclib/rpc/msgpack/v2/create_object_visitor.hpp:178-181 | what the end of an item means: the next slot is allocated and still raw, all containers stay coupled, and no slot is filled twice |
| `Arena.CloseTop` | rpclib/rpc/msgpack/v2/create_object_visitor.hpp:182-185 | what the end of a container means: once its last slot is filled the slot around it holds the whole container, and the rest stays coupled |
| `Arena.OpenTop` | rpclib/rpc/msgpack/v2/create_object_visitor.hpp:155-203 | a new container's block is its own, raw, and coupled to the open containers |
| `ParseV2.TwoStacks` | rpclib/rpc/msgpack/v2/parse.hpp:150-199 | the visitor's stack is one longer than the parser's, and each slot pointer stands at size - rest in arrays and 2 * (size - rest), plus one for a value, in maps |
| `ObjectVisitor.Visitor.Init` | rpclib/rpc/msgpack/v2/create_object_visitor.hpp:51-56 | forgets the message in progress and keeps the finished objects of the zone |
| `ObjectVisitor.Visitor.VisitNegativeInteger` | rpclib/rpc/msgpack/v2/create_object_visitor.hpp:83-94 | a non-negative integer sent in a signed form becomes a positive one |
| `ObjectVisitor.Visitor.VisitBody` | rpclib/rpc/msgpack/v2/create_object_visitor.hpp:107-154 | a body over its limit throws and changes nothing; else the slot holds it, in place with the flag and the reference recorded, or copied |
| `ObjectVisitor.Visitor.StartContainer` | rpclib/rpc/msgpack/v2/create_object_visitor.hpp:155-203 | the count is checked before the depth and the depth for empty containers too; a throw changes nothing |
| `ParseV2.Context.Init` | rpclib/rpc/msgpack/v2/parse.hpp:32-38 | leaves a state that tracks the empty message |
| `ParseV2.Context.Next` | rpclib/rpc/msgpack/v2/parse.hpp:164-199 | a value in its slot and a sibling to come: both stacks move to the sibling's slot, and the bytes stay tracked |
| `ParseV2.Context.Finish` | rpclib/rpc/msgpack/v2/parse.hpp:164-199 | a value in the last slot: both stacks pop and the container is the finished value |
| `ParseV2.Context.Consume` | rpclib/rpc/msgpack/v2/parse.hpp:164-199 | ends with a complete message in the root, or at an empty slot with the bytes tracked; terminates on the stack |
| `ParseV2.Context.AfterVisit` | rpclib/rpc/msgpack/v2/parse.hpp:92-104 | steps over the value's last byte and ends in a success or in the header state |
| `ParseV2.Context.StartAggregate` | rpclib/rpc/msgpack/v2/parse.hpp:53-90 | a container header leads to its first slot, to a finished empty container, or to the overflow that the decoder reports |
| `ParseV2.Context.BodyVisit` | rpclib/rpc/msgpack/v2/parse.hpp:568-582 | a body visit delivers the decoder's value or throws its overflow, and records the reference inside the bytes just read |
| `ParseV2.Context.Header` | rpclib/rpc/msgpack/v2/parse.hpp:242-323 | one header byte: the decoder's value or container, 0xc1 as the only error, or a state that waits for its trail |
| `ParseV2.Context.Size` | rpclib/rpc/msgpack/v2/parse.hpp:440-567 | a length of zero is a value at once, another length a state that waits for that body, as the decoder has it; `Wire.ReadsStr`, `Wire.ReadsBin` and `Wire.ReadsExt` have the bytes of the lengths |
| `ParseV2.Context.Numeral` | rpclib/rpc/msgpack/v2/parse.hpp:339-414 | numbers of each width and sign end as the decoder's value; `Wire.ReadsUnsigned`, `Wire.ReadsSigned` and `Wire.ReadsFloat` have the weight of each byte |
| `ParseV2.Context.Trail` | rpclib/rpc/msgpack/v2/parse.hpp:328-605 | with the awaited bytes there, every state ends as the decoder does; the parse error of the default branch is not reached |
| `ParseV2.Context.Pass` | rpclib/rpc/msgpack/v2/parse.hpp:241-607 | one pass consumes bytes, or stays on a byte only to go from a length to its body; the cursor never passes the end |
| `ParseV2.Context.Execute` | rpclib/rpc/msgpack/v2/parse.hpp:224-610 | the answer is that of decoding all bytes since the last reset, whatever the earlier calls were; off never decreases and the object tree holds the value; references are new only with bytes read and only inside them; it terminates |
| `PartialObjects.TakeItem` | rpclib/rpc/msgpack/v1/unpack.hpp:374-413 | an array element goes to a raw slot, and the array is whole exactly when its count runs out |
| `PartialObjects.TakeKey` | rpclib/rpc/msgpack/v1/unpack.hpp:374-413 | a map key waits beside the map until its value comes |
| `PartialObjects.TakePair` | rpclib/rpc/msgpack/v1/unpack.hpp:374-413 | the waiting key and its value go to two raw slots, and the map is whole exactly when its count runs out |
| `ParseV1.Context.Init` | rpclib/rpc/msgpack/v1/unpack.hpp:312-318 | leaves a state that tracks the empty message |
| `ParseV1.Context.PushItem` | rpclib/rpc/msgpack/v1/unpack.hpp:374-413 | a complete value climbs through the containers it completes, to the end or to one with room |
| `ParseV1.Context.PushProc` | rpclib/rpc/msgpack/v1/unpack.hpp:415-431 | ends with the whole message in the root entry or in the header state |
| `ParseV1.Context.PushAggregate` | rpclib/rpc/msgpack/v1/unpack.hpp:344-372 | a container header opens an entry, finishes an empty container, or throws what the decoder reports; depth counts only for non-empty containers |
| `ParseV1.Context.Execute` | rpclib/rpc/msgpack/v1/unpack.hpp:452-841 | the same contract as for v2: the answer of decoding all bytes since the start, with the value in the root object |
| `Unpacking.UnpackV2` | rpclib/rpc/msgpack/v2/unpack.hpp:146-171 | one message: the value and its end, extra bytes if and only if something follows, or the decoder's exception with the offset left alone |
| `Unpacking.UnpackV1` | rpclib/rpc/msgpack/v1/unpack.hpp:1383-1411 | the same for v1 |
| `Unpacking.UnpackPacked` | rpclib/rpc/msgpack/v1/object.hpp:243-314 | a packed value with any suffix is delivered if and only if it is within the limits, and unchanged unless v2 copies an ext of 2^32 bytes |
| `EndToEnd.PackThenUnpack` | rpclib/rpc/msgpack/v1/pack.hpp:704-1594 | an object within the limits, packed to an sbuffer, unpacks whatever follows it: to its value as v2 delivers it, at exactly its length, with extra bytes if and only if there is a suffix |
| `EndToEnd.UnpackCut` | rpclib/rpc/msgpack/v2/parse.hpp:330-333 | a packed value within the limits that is cut short anywhere makes both unpack functions report too few bytes and leave the offset |
| `EndToEnd.UnpackNeverUsed` | rpclib/rpc/msgpack/v2/parse.hpp:318-322 | the byte c1 in front is a parse error in both, whatever follows, and the offset stays |
| `EndToEnd.UnpackTwice` | rpclib/rpc/msgpack/v1/unpack.hpp:452-841 | with any limits, on every byte string: if neither parser throws they return the same code and offset; v1's object holds the standard's value and v2's the same except exactly for a copied ext of 2^32 bytes; v1 throwing means v2 throwing but for that ext |
| `Packing.Packer.PackUint8` | rpclib/rpc/msgpack/v1/pack.hpp:1348-1361 | one write of the shortest form of an unsigned 8-bit integer, the same as through any wider function |
| `Packing.Packer.PackUint16` | rpclib/rpc/msgpack/v1/pack.hpp:1363-1381 | one write of the shortest form of an unsigned 16-bit integer, the same as through any wider function; from 256 up the bytes cd, high, low |
| `Packing.Packer.PackUint32` | rpclib/rpc/msgpack/v1/pack.hpp:1383-1410 | one write of the shortest form of an unsigned 32-bit integer, the same as through any wider function; cd or ce with the big-endian bytes written out |
| `Packing.Packer.PackUint64` | rpclib/rpc/msgpack/v1/pack.hpp:1412-1444 | one write of the shortest form of an unsigned 64-bit integer, the same as through any narrower function; cd, ce or cf with the big-endian bytes written out |
| `Packing.Packer.PackInt8` | rpclib/rpc/msgpack/v1/pack.hpp:1446-1459 | one write of the shortest form of a signed 8-bit integer, unsigned when it is not negative |
| `Packing.Packer.PackInt16` | rpclib/rpc/msgpack/v1/pack.hpp:1461-1492 | one write of the shortest form of a signed 16-bit integer, unsigned when it is not negative; d1 for negative ones, with the big-endian bytes written out |
| `Packing.Packer.PackInt32` | rpclib/rpc/msgpack/v1/pack.hpp:1494-1535 | one write of the shortest form of a signed 32-bit integer, unsigned when it is not negative; d1 or d2 for negative ones, with the big-endian bytes written out |
| `Packing.Packer.PackInt64` | rpclib/rpc/msgpack/v1/pack.hpp:1537-1594 | one write of the shortest form of a signed 64-bit integer, unsigned when it is not negative; d1, d2 or d3 for negative ones, with the big-endian bytes written out |
| `Packing.Packer.PackFloat` | rpclib/rpc/msgpack/v1/pack.hpp:1104-1112 | one write of ca and the four bytes of the 32-bit pattern, the highest first |
| `Packing.Packer.PackDouble` | rpclib/rpc/msgpack/v1/pack.hpp:1115-1133 | one write of cb and the eight bytes of the 64-bit pattern, the highest first |
| `Packing.Packer.PackArray` | rpclib/rpc/msgpack/v1/pack.hpp:1160-1175 | one write of the header that the decoder reads as this array, dc and dd with the big-endian bytes written out |
| `Packing.Packer.PackMap` | rpclib/rpc/msgpack/v1/pack.hpp:1178-1194 | one write of the header that the decoder reads as this map, de and df with the big-endian bytes written out |
| `Packing.Packer.PackStr` | rpclib/rpc/msgpack/v1/pack.hpp:1197-1217 | one write of the header that the decoder reads as a str of this length, da and db with the big-endian bytes written out |
| `Packing.Packer.PackBin` | rpclib/rpc/msgpack/v1/pack.hpp:1255-1271 | one write of the header that the decoder reads as a bin of this length, c5 and c6 with the big-endian bytes written out |
| `Packing.Packer.PackExt` | rpclib/rpc/msgpack/v1/pack.hpp:1281-1337 | one write of header and type byte, fixed sizes in their own forms, c8 and c9 with the big-endian bytes written out |
| `Packing.Packer.PackObject` | rpclib/rpc/msgpack/v1/object.hpp:243-314 | walking the object through its pointers writes exactly the encoding of the value it holds, and no write from a local array is longer than 9 bytes |
| `Packing.Packer.PackBlob` | rpclib/rpc/msgpack/v1/object.hpp:277-290 | a body is written as header and bytes of the value, the ext type byte in the header's array |
| `Packing.Packer.PackArrayObject` | rpclib/rpc/msgpack/v1/object.hpp:292-300 | elements are written in order behind their header |
| `Packing.Packer.PackMapObject` | rpclib/rpc/msgpack/v1/object.hpp:302-311 | keys and values are written in turn behind their header |
| `Equality.ObjectsEqual` | rpclib/rpc/msgpack/v1/object.hpp:436-510 | the comparison answers whether the held values are alike: floats as numbers, ext without its last byte; a float object equals itself unless its exponent bits are all ones and its mantissa is not zero |
| `Equality.ItemsEqual` | rpclib/rpc/msgpack/v1/object.hpp:469-505 | elements and pairs are compared in order up to the first difference |
| `Equality.AlikeSelf` | rpclib/rpc/msgpack/v1/object.hpp:453-455 | an object equals itself if and only if it holds no NaN |
| `Equality.EqualMeansSame` | rpclib/rpc/msgpack/v1/object.hpp:436-510 | for a value without NaN, equal means identical if and only if it holds no zero float and no ext |
| `Equality.LastByteIgnored` | rpclib/rpc/msgpack/v1/object.hpp:465-467 | two ext objects of the same type and size that differ only in their last byte compare equal |
| `Equality.Floats64` | rpclib/rpc/msgpack/v1/object.hpp:453-455 | a double equals itself unless bits 52 to 62 are all ones and the bits below are not all zero, and another pattern only when the two are the two zeros |
| `Equality.Floats32` | rpclib/rpc/msgpack/v1/object.hpp:453-455 | the same for floats of 32 bits, with bits 23 to 30 |
| `Equality.Bodies` | rpclib/rpc/msgpack/v1/object.hpp:457-467 | str and bin are alike exactly when all bytes are the same, ext when all but the last are, the type byte among them |
| `Cloning.AlignedZoneSize` | rpclib/rpc/msgpack/v1/object.hpp:139-174 | the computed size is the sum of the blocks and bodies of the held value, ext with its type byte |
| `Cloning.Target.Copy` | rpclib/rpc/msgpack/v1/object.hpp:316-377 | the copy is in new blocks, reads no buffer, holds the value up to what 32 bits lose of an ext, and asks for exactly the memory of what it holds |
| `Cloning.Clone` | rpclib/rpc/msgpack/v1/object.hpp:176-192 | the clone stands alone in its zone; without a zone, for an object that needs no memory, it is the object itself |
| `Cloning.CloneExact` | rpclib/rpc/msgpack/v1/object.hpp:335-341 | the clone holds the same value, and asks for exactly the computed size, if and only if no ext has 2^32 bytes |
| `Growth.Doubled` | rpclib/rpc/msgpack/v1/sbuffer.hpp:113-120 | the loop, also that of expand_buffer, ends with the first doubling of the start that is enough, if 64 bits can hold one, and otherwise with exactly what is needed, because doubling wraps; unless the start is enough, less than twice what is needed |
| `SimpleBuffer.SBuffer.constructor` | rpclib/rpc/msgpack/v1/sbuffer.hpp:26-36 | starts empty with the given allocation |
| `SimpleBuffer.SBuffer.Write` | rpclib/rpc/msgpack/v1/sbuffer.hpp:69-76 | the contents grow by exactly the bytes written; the allocation never shrinks, and stays as long as there is room |
| `SimpleBuffer.SBuffer.ExpandBuffer` | rpclib/rpc/msgpack/v1/sbuffer.hpp:108-129 | the new allocation is the first doubling that is enough, or exactly what is needed when none fits 64 bits; always strictly larger than the old one, with the contents kept |
| `SimpleBuffer.SBuffer.Release` | rpclib/rpc/msgpack/v1/sbuffer.hpp:93-100 | gives away the allocation with the contents in it and is empty |
| `SimpleBuffer.SBuffer.Clear` | rpclib/rpc/msgpack/v1/sbuffer.hpp:102-105 | is empty and keeps its allocation |
| `SimpleBuffer.SBuffer.WriteAll` | rpclib/rpc/msgpack/v1/sbuffer.hpp:69-76 | after any writes the contents are their concatenation |
| `VRefBuffer.VRefBuffer.constructor` | rpclib/rpc/msgpack/v1/vrefbuffer.hpp:56-86 | starts empty, with a reference size above the packer's largest local array |
| `VRefBuffer.VRefBuffer.AppendRef` | rpclib/rpc/msgpack/v1/vrefbuffer.hpp:113-133 | one more entry, the array doubling when full, and the described bytes grow by what it points to |
| `VRefBuffer.VRefBuffer.NewChunk` | rpclib/rpc/msgpack/v1/vrefbuffer.hpp:139-155 | a new chunk has the room asked for in memory that was not in use, and changes nothing described so far |
| `VRefBuffer.VRefBuffer.Copy` | rpclib/rpc/msgpack/v1/vrefbuffer.hpp:157-160 | the copy goes to memory that no entry describes, and holds the bytes |
| `VRefBuffer.VRefBuffer.AppendCopy` | rpclib/rpc/msgpack/v1/vrefbuffer.hpp:135-170 | the described bytes grow by the copied ones, in a new chunk only if the last has no room; only memory that was free or not in use is touched or newly pointed to |
| `VRefBuffer.VRefBuffer.AppendCopied` | rpclib/rpc/msgpack/v1/vrefbuffer.hpp:162-170 | the copy joins the last entry exactly when it follows it in memory, and either way the described bytes grow by it |
| `VRefBuffer.VRefBuffer.Join` | rpclib/rpc/msgpack/v1/vrefbuffer.hpp:162-166 | coalescing with the last entry describes the same bytes as a new entry would |
| `VRefBuffer.VRefBuffer.Write` | rpclib/rpc/msgpack/v1/vrefbuffer.hpp:104-111 | the described bytes grow by what was written; a long write adds one entry and copies nothing, a short one leaves nothing pointing to the caller's array |
| `VRefBuffer.VRefBuffer.Clear` | rpclib/rpc/msgpack/v1/vrefbuffer.hpp:246-263 | describes nothing, keeps the head chunk with the usual room, frees the others and touches no other memory |
| `VRefBuffer.VRefBuffer.WriteLocal` | rpclib/rpc/msgpack/v1/pack.hpp:606-607 | a packer's local array of up to 9 bytes may be freed after the write without changing what is described |
| `VRefBuffer.VRefBuffer.WriteAll` | rpclib/rpc/msgpack/v1/vrefbuffer.hpp:104-170 | after any mix of local and body writes the described bytes are their concatenation, with all local arrays gone |
| `Buffers.DecrCounted` | rpclib/rpc/msgpack/v1/unpack.hpp:235-246 | giving up one ownership keeps all counts right and every buffer with another owner readable; the last one frees it |
| `Buffers.SoleOwner` | rpclib/rpc/msgpack/v2/parse.hpp:846-856 | a count of one and no referenced flag mean that no zone has the buffer and no object reads in it |
| `Buffers.Moved` | rpclib/rpc/msgpack/v2/parse.hpp:858-877 | moving a solely owned buffer leaves every reference of every live object intact |
| `Buffers.ReplacedOwned` | rpclib/rpc/msgpack/v2/parse.hpp:878-916 | a new buffer: the old one goes to the zone if something in it is referenced and loses an owner if not, and no live reference breaks |
| `Buffers.Flushed` | rpclib/rpc/msgpack/v2/unpack.hpp:130-144 | pushing the finalizer and counting up keeps counts right and hands all references of the zone to its finalizers |
| `Buffers.HandedOut` | rpclib/rpc/msgpack/v2/unpack.hpp:90-103 | an object that leaves with its zone takes exactly the buffers that it reads |
| `Buffers.RefsGrown` | rpclib/rpc/msgpack/v2/create_object_visitor.hpp:107-154 | what a parse references in place is inside the current buffer before off, with the flag set |
| `Buffers.HandleReads` | rpclib/rpc/msgpack/v2/unpack.hpp:90-103 | every str, bin and ext of a handed-out zone that was left in a buffer still reads there the bytes that were parsed |
| `Buffers.RunFinalizers` | rpclib/rpc/msgpack/v2/unpack.hpp:31-38 | destroying a zone gives up each of its buffers once and frees those nobody else owns |
| `StreamUnpacker.Unpacker.constructor` | rpclib/rpc/msgpack/v2/parse.hpp:776-799 | starts with an empty buffer counted once, at least as large as its counter |
| `StreamUnpacker.Unpacker.MessageSize` | rpclib/rpc/msgpack/v2/parse.hpp:962-966 | parsed, unparsed and taken together, it is the number of bytes since the last object |
| `StreamUnpacker.Unpacker.Rewind` | rpclib/rpc/msgpack/v2/parse.hpp:848-856 | reuses the room of parsed bytes only when no object can be reading them |
| `StreamUnpacker.Unpacker.Extend` | rpclib/rpc/msgpack/v2/parse.hpp:858-877 | realloc keeps the unparsed bytes and breaks no reference: with off at the counter the buffer has one owner and nothing reads it |
| `StreamUnpacker.Unpacker.Replace` | rpclib/rpc/msgpack/v2/parse.hpp:878-916 | a new buffer starts with the unparsed bytes, and the parsed ones stay readable where they are |
| `StreamUnpacker.Unpacker.ExpandBuffer` | rpclib/rpc/msgpack/v2/parse.hpp:846-916 | through all three paths the pending bytes and message_size stay, the capacity is at least what is asked for, the accounting holds, and a new allocation is the first doubling that is enough or, when doubling wraps, just that |
| `StreamUnpacker.Unpacker.ReserveBuffer` | rpclib/rpc/msgpack/v2/parse.hpp:838-843 | capacity of at least size, with the pending bytes and message_size unchanged |
| `StreamUnpacker.Unpacker.BufferConsumed` | rpclib/rpc/msgpack/v2/parse.hpp:930-935 | the bytes written to the buffer join the pending ones |
| `StreamUnpacker.Unpacker.SkipNonparsedBuffer` | rpclib/rpc/msgpack/v2/parse.hpp:986-990 | drops exactly that many unparsed bytes |
| `StreamUnpacker.Unpacker.RemoveNonparsedBuffer` | rpclib/rpc/msgpack/v2/parse.hpp:992-996 | drops the unparsed bytes without counting their room as free |
| `StreamUnpacker.Unpacker.FlushZone` | rpclib/rpc/msgpack/v2/unpack.hpp:130-144 | clears the flag and makes the zone an owner of the buffer, with nothing else changed |
| `StreamUnpacker.Unpacker.Reset` | rpclib/rpc/msgpack/v2/parse.hpp:954-959 | the message in progress is forgotten and the unparsed bytes stay |
| `StreamUnpacker.Unpacker.ExecuteImp` | rpclib/rpc/msgpack/v2/parse.hpp:943-951 | the outcome is that of decoding the bytes since the last object, and the parsed size counts what was consumed of them |
| `StreamUnpacker.Unpacker.HandOut` | rpclib/rpc/msgpack/v2/unpack.hpp:90-128 | the object leaves with its value, zone, finalizers and references, and the next message starts in a fresh zone |
| `StreamUnpacker.Unpacker.Next` | rpclib/rpc/msgpack/v2/unpack.hpp:90-103 | true with the next object of the pending bytes and the bytes after it pending, false with nothing changed when they hold none, or the decoder's exception |
| `StreamUnpacker.Unpacker.DropHandle` | rpclib/rpc/msgpack/v1/unpack.hpp:235-246 | destroying one object frees what only it owned, and disturbs neither the unpacker nor another object |
| `StreamUnpacker.Unpacker.Destroy` | rpclib/rpc/msgpack/v2/parse.hpp:829-834 | the unpacker goes, every count is right for the objects that are left, and all of them still read their bytes |
| `Streaming.StreamSplit` | rpclib/rpc/msgpack/v2/parse.hpp:224-610 | decoding a stream is decoding a part of it and then its remainder together with the rest |
| `Streaming.Drain` | rpclib/rpc/msgpack/v2/unpack.hpp:90-103 | next() until false hands out exactly the objects at the front of the pending bytes, in order |
| `Streaming.Feed` | rpclib/rpc/msgpack/v2/parse.hpp:838-953 | for every way to cut a byte stream into chunks, the objects handed out, the bytes left pending and the exception, if any, are those of decoding the whole stream |
| `AsyncWriter.Writer.constructor` | rpclib/rpc/detail/async_writer.h:23-25 | starts idle with the invariant of all runs |
| `AsyncWriter.Writer.DoWrite` | rpclib/rpc/detail/async_writer.h:26-38 | starts a write of the front item unless exit is set by then |
| `AsyncWriter.Writer.Write` | rpclib/rpc/detail/async_writer.h:65-73 | one submission step: queued last, and started only if it is alone |
| `AsyncWriter.Writer.Handler` | rpclib/rpc/detail/async_writer.h:35-61 | one completion step, with exit possibly raised before each of its three reads: what `AsyncWriter.StepEffects` says of it field by field |
| `AsyncWriter.StepKeeps` | rpclib/rpc/detail/async_writer.h:26-73 | every step keeps: completed then queued is what was submitted; at most one write outstanding, for the front item; one outstanding exactly when something is queued, without error and exit |
| `AsyncWriter.StepEffects` | rpclib/rpc/detail/async_writer.h:26-73 | what every event does to every field: a successful completion pops the front item and an error leaves it, the next write starts only without exit, exit rises only by the other thread, and the socket is closed by exactly the completions that leave exit set |
| `AsyncWriter.InOrder` | rpclib/rpc/detail/async_writer.h:26-73 | in every run what was started is a prefix of what was submitted, at most one item ahead of what completed |
| `AsyncWriter.StuckForGood` | rpclib/rpc/detail/async_writer.h:39-49 | after an error, or after exit with nothing outstanding, no write is ever started or completed again |
| `AsyncWriter.StuckExactly` | rpclib/rpc/detail/async_writer.h:26-73 | and in no other state: from every other one some run starts or completes a write |
| `AsyncWriter.Drains` | rpclib/rpc/detail/async_writer.h:39-46 | without errors and exit, one completion per queued item empties the queue and completes everything in order |
| `AsyncWriter.ClosedExactly` | rpclib/rpc/detail/async_writer.h:50-61 | over every run the socket is closed at the end if and only if some completion in it left exit set, whether or not anything was queued or outstanding |
| `AsyncWriter.ClosesExactly` | rpclib/rpc/detail/async_writer.h:41-60 | a step closes the socket under a write if and only if it is a successful completion with more queued, exit unset up to the start of the next write, and raised before the handler's last read |
| `AsyncWriter.ClosedUnderWriteExactly` | rpclib/rpc/detail/async_writer.h:26-73 | a run ever has the socket closed under a write if and only if such a completion is part of it |
| `AsyncWriter.ClosedUnderWrite` | rpclib/rpc/detail/async_writer.h:41-60 | there is such a run: two submissions and one completion |
| `Pid.Pid.constructor` | PID_v1.cpp:18-36 | manual mode, limits 0 and 75, a second due, and tunings signed by direction unless one is negative |
| `Pid.Pid.Compute` | PID_v1.cpp:55-92 | nothing in manual mode or before the sample time; else the clamped sum and output, with input and time remembered; `Pid.ClosedForm`, `Pid.LastOutput` and `Pid.Opposes` say what the numbers are |
| `Pid.Pid.SetTunings` | PID_v1.cpp:99-126 | negative gains change nothing; others are kept as entered and scaled and signed, as `Pid.TuningScales` has it |
| `Pid.Pid.SetOutputLimits` | PID_v1.cpp:151-165 | reversed limits change nothing; others clamp sum and output only in automatic mode |
| `Pid.Pid.SetMode` | PID_v1.cpp:172-180 | manual to automatic takes over the clamped output and the input |
| `Pid.NoWindup` | PID_v1.cpp:55-192 | over any mix of operations the sum stays within the limits in automatic mode, and the output ends up within them if and only if the last operation that matters put it there: a due computation or new limits in automatic mode, or limits in manual mode around the output |
| `Pid.StartsOutside` | PID_v1.cpp:151-192 | limits lowered in manual mode leave an output above them after the switch to automatic |
| `Pid.ClosedForm` | PID_v1.cpp:55-92 | over any number of due, unclamped computations the sum is the start plus ki times the summed errors, minus kp times the whole change of input if proportional on measurement |
| `Pid.LastOutput` | PID_v1.cpp:74-88 | over any number of due computations, clamped or not, the output is the sum minus kd times the last change of input, plus kp times the last error if proportional on error, cut off at the limits; the last input and time are remembered |
| `Pid.Opposes` | PID_v1.cpp:55-92 | with gains that are not negative, a higher input never makes the output higher and a higher setpoint never makes it lower |
| `Pid.ComputesWhen` | PID_v1.cpp:57-60 | a computation happens exactly in automatic mode once the sample time has passed or the clock was set back; otherwise nothing changes |
| `Pid.TuningScales` | PID_v1.cpp:99-119 | ki is multiplied and kd divided by the sample time, all three are negated in reverse, and one negative gain changes nothing at all |
| `Pid.SwitchesQuietly` | PID_v1.cpp:172-180 | no switch of mode changes the output or the limits, and only the one from manual to automatic changes more than the mode |
| `Pid.Bumpless` | PID_v1.cpp:172-192 | switching to automatic at the setpoint leaves the output as it was, clamped |
| `Cryo.Build` | CryoControlSM.cpp:21-50 | from arbitrary uninitialised outputs, sums and inputs, the controller starts idle within the invariant, both PIDs proportional on measurement with gains 2, 5 and 1 |
| `Cryo.CryoControlSM.StateDecision` | CryoControlSM.cpp:152-212 | the overriding conditions amount to a priority list with the fault first; no condition keeps the last decision. `Cryo.ByRegion` says what each region leads to |
| `Cryo.KeepsState` | CryoControlSM.cpp:161-195 | the exact temperatures and set points at which no condition applies and the controller goes on with what it did |
| `Cryo.ByRegion` | CryoControlSM.cpp:152-195 | what a step of an automatic controller with fresh feeds sets up, by temperature and set point: cooler, SRS, which PID, its limits and the direction of the rate for cooling above and below 220 K, for warming, for holding below and above 220 K and for the hot idle region; elsewhere state, switches and PID modes stay |
| `Cryo.Computes` | CryoControlSM.cpp:260-262 | every step computes the PID that is in automatic mode, at any second but that of its last computation, from the temperature or rate just taken in, and its output is the value of the run; without one the value is zero |
| `Cryo.CryoControlSM.Choose` | CryoControlSM.cpp:109-111 | afterwards the function pointer is at the decided state and that state's function may run: its guard is active if and only if the state changed, and otherwise its set-up is in place |
| `Cryo.CryoControlSM.Warmup` | CryoControlSM.cpp:231-264 | from the guard, whatever came before, or from its own earlier step: rate PID within 0 and 75 towards a rise, cooler and SRS off |
| `Cryo.CryoControlSM.Idle` | CryoControlSM.cpp:267-294 | from the guard, whatever came before, or from its own earlier step: no PID, everything off, value 0 |
| `Cryo.CryoControlSM.Fault` | CryoControlSM.cpp:297-326 | from the guard, whatever came before, or from its own earlier step: no PID, everything off, value 0 |
| `Cryo.CryoControlSM.CoolDownHot` | CryoControlSM.cpp:336-368 | from the guard, whatever came before, or from its own earlier step: rate PID within 0 and 75 towards a fall, cooler on, SRS off |
| `Cryo.CryoControlSM.CoolDownCold` | CryoControlSM.cpp:371-406 | from the guard, whatever came before, or from its own earlier step: rate PID within -120 and 75 towards a fall, cooler and SRS on |
| `Cryo.CryoControlSM.MaintainWarm` | CryoControlSM.cpp:409-438 | from the guard, whatever came before, or from its own earlier step: absolute PID within 0 and 75, cooler and SRS off |
| `Cryo.CryoControlSM.MaintainCold` | CryoControlSM.cpp:441-472 | from the guard, whatever came before, or from its own earlier step: absolute PID within -120 and 75, cooler and SRS on |
| `Cryo.CryoControlSM.PostRunSanityCheck` | CryoControlSM.cpp:123-146 | heater minus cooler power is the PID value, never both, and neither above 320 K |
| `Cryo.CryoControlSM.UpdateVars` | CCMySQLInteraction.cpp:80-113 | the row receives the last step's heater power, cooler power plus minimum, and both switches, and nothing else changes |
| `Cryo.CryoControlSM.Tune` | CryoControlSM.cpp:70-77 | a PID gets the row's gains exactly when they differ from those it shows, and stays within its limits |
| `Cryo.TakesGains` | CryoControlSM.cpp:70-77 | afterwards the gains in use are those of the row, all three as entered, or the old ones if one of the new is negative |
| `Cryo.CryoControlSM.SenseAverages` | CryoControlSM.cpp:104-105 | an average takes in a twentieth of the distance to a reading above 10 K and ignores others |
| `Cryo.CryoControlSM.SenseTemperature` | CryoControlSM.cpp:87-101 | the set point and temperature reach the PIDs' cells, and the rate average moves only once there was a temperature |
| `Cryo.CryoControlSM.SMEngine` | CryoControlSM.cpp:57-119 | every step keeps the invariant: cooler, SRS, PID modes and limits fit the state, powers are in range and never both; both PIDs are retuned, guarded and computed as the new state wants, the value is the output of the one in use, and the row gets the outputs of the step before |
| `Cryo.Serve` | CryoControlSM.cpp:57-119 | the invariant holds after any number of steps with any feeds, clocks and changes of the row by others |
| `Cryo.FailSafe` | CryoControlSM.cpp:200-209 | from any reachable state, a step that sees a feed older than 60 s, or is switched off, ends with all outputs zero, in Fault unless switched off, and the next step sends zero heater, both switches off and the minimum cooler power |
| `Cryo.NoFalseAlarm` | CryoControlSM.cpp:104-105 | the averages, and so the 320 K cut-off, never exceed the largest reading |

## Left out

- Allocation failure: `malloc` and `realloc` succeed, and `std::bad_alloc` paths are not part of this model.
- Visitors that return false (PARSE_STOP_VISITOR), user-written visitors and the start-item events, which do nothing in the object visitor.
- Use of a parser or unpacker after it has thrown; the objects handed out before stay covered.
- The 32-bit-platform checks on ext sizes, and the v1 unpacker's copy of the buffer and ownership code, which is the same as v2's.
- IEEE rounding and NaN arithmetic: the codec carries floats as bit patterns, the controller computes with reals.
- The width of the buffer's owner count: it is unbounded here and an unsigned int in the source.
- `unpacker::reset_zone`, move construction and assignment of unpackers and buffers.
- `vrefbuffer::migrate`, `zbuffer`, `fbuffer` and the type adaptors.
- pack_char to pack_unsigned_long_long, pack_fix_* and pack_v4raw: they choose among the integer and header functions that are modelled.
- The zone's own allocator, its chunks and padding: zones are fresh blocks, bytes asked for and a list of finalizers.
- The handlers' strand, sockets and logging: steps of the writer are atomic, and bytes on the wire are not modelled.
- MySQL sessions, the monitoring table, serial devices and printing; PID::SetControllerDirection and PID::SetSampleTime.
- The narrowing of the feeds' ages to int in the fault condition.
- EndToEnd.PackThenUnpack: is stated for v2; `Unpacking.UnpackV1` and `Unpacking.UnpackPacked` give the same for v1.
- StreamUnpacker.Unpacker.ExpandBuffer: requires that used plus size does not exceed 64 bits, which the source takes for granted.
