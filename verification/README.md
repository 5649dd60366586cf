# The libquicr data plane, modelled and proved in Dafny

libquicr is a publish/subscribe library over datagrams. A publisher cuts a named
object into blocks, tags each with its offset and sends each as one message; a
relay keeps track of who subscribed to which name prefix and forwards messages
unaltered; a subscriber rebuilds the object from blocks that arrive in any order,
mixed with those of other objects, and hands it to every delegate whose namespace
contains the name. This project models those parts and proves what they promise,
from the arithmetic of 128-bit names up to the delivery of an object and to whole
runs of the server, the relay and the client. `dafny verify dfyconfig.toml` checks
it all.

## How the model is organised

Code that updates objects in place is a class here (`NameCell`, `MessageBuffer`,
`FragmentCache`, `QuicRServer`, `QuicRClient`, `SubscriptionIndex`, `ReallyServer`)
and loops stay loops. Each method is proved to do what a function on values says;
the properties are then proved about those functions, over all inputs or all runs.

| file | part of libquicr |
|---|---|
| `Bits`, `ByteOrder`, `Hex`, `Wrappers`, `Ordered`, `NamespaceMaps` | fixed-width arithmetic, integers as bytes, hexadecimal text, optional results, ordered containers, maps keyed by namespaces |
| `Names`, `Namespaces` | 128-bit names in two limbs, prefix namespaces |
| `HexEndec`, `HexEndecLaws` | packing values into hexadecimal text by bit widths |
| `MessageBuffers`, `Messages`, `WireFormat` | the byte buffer, variable-length integers, the message codecs, the messages byte by byte |
| `Fragmentation`, `Reassembly`, `CacheRuns`, `RetentionLimits`, `EndToEnd`, `NameReuse` | cutting objects, the rotating cache of fragments, how long it keeps them, delivery, names used twice |
| `Server`, `ServerRuns`, `ServerSteps` | the server's handlers, what holds in every run, what each event does exactly and where messages go |
| `Subscriptions`, `Relay`, `RelaySteps`, `Relayed` | the relay application: its subscription index, forwarding, answers and ends, delivery through it |
| `Client`, `ClientRuns`, `ClientTraffic`, `ClientSteps`, `SharedCache` | the client's handlers, delegate lifetime, what delegates are handed in any run, what each event does and sends exactly, several clients on one cache |
| `Dispatch`, `Sessions` | which message reaches which handler, and client and relay together over the bytes between them |

Handlers are atomic steps. What is handed to the transport or to a delegate is
appended to a transcript. The transport's answer to each message, whether a delegate
is still alive, whether it moves the bytes it is handed away, transaction ids, and
what the server's application calls in a callback are parameters, so every theorem
holds for all of them.

## Where the code does not do what it seems to promise

These are kept as the code has them. Each item names the members that say exactly
when the code does and does not do what is expected.

- The 8-byte integer form keeps 60 bits of a type that admits 61
  (`MessageBuffers.VarRoundTrip`).
- A vector's length passes through 16 bits (`MessageBuffers.VectorRoundTrip`).
- A whole object is recognised by its tag before the tag is narrowed to an `int`, and
  the cache does not test a first fragment, so an object whose tag is 1 plus a
  multiple of 2^32 is stored and never delivered (`EndToEnd.FirstCheckLosesIff`,
  `EndToEnd.WrappedTagLost`, with 2^32 + 1 in `EndToEnd.WrappedTagArrives`).
- An unfragmented object is moved into the first delegate that takes it, so a later
  delegate gets it empty (`ClientSteps.WholeObjectReachesDelegates`,
  `ClientSteps.WholeObjectIntactIff`, `ClientRuns.SharedDeliveryIff`,
  `ClientRuns.TakenWitness`).
- The cache of fragments is static, so clients in one program share it: a completed
  object goes to the delegates of the client whose arrival completed it and to no
  other (`SharedCache.OwnCompletionsOnly`, `SharedCache.SpreadObject`), and a second
  client that receives every message may hand on nothing
  (`SharedCache.SecondClientGetsNothing`).
- Of a name used for two objects the cache keeps the first fragment of each tag, so
  blocks of both that arrive mixed can be joined to something that was never
  published (`NameReuse.MixtureComplete`, `NameReuse.ReusedName`,
  `NameReuse.NeverPublishedIff`), or can meet in a way that no further block resolves
  (`NameReuse.StuckForGood`, `NameReuse.DifferentCountsCollide`).
- Maps keyed by `Namespace` are ordered by the name alone
  (`src/quicr_namespace.cpp:59-63`), so namespaces of one name and different lengths
  share an entry, which keeps the first key. A later subscription under that name is
  served by the stored delegate exactly when the stored namespace is no longer
  (`ClientRuns.StoredKeyServesIff`, `ClientRuns.StoredKeyMissesWitness`).
- A `PublishIntentEnd` longer than the stored namespace of the same name leaves
  published names that nothing announces (`ServerRuns.EndKeepsCoverageIff`, and in a run
  from the start `ServerRuns.EndLeavesNameWitness`).
- No answer ever makes a client's subscription ready, so the test at
  `src/quicr_client.cpp:299` never holds and every call for a namespace sends its
  message again (`ClientSteps.StepNeverReady`, `ClientSteps.ServerHearsCalls`).
- `docs/unsubscribe-flows.md` has the server free the state of the subscription that
  ends. An unsubscription that leaves other subscribers drops them all
  (`src/quicr_server.cpp:268-270`; `ServerRuns.UnsubscribeKeepsOthersIff`), and leaves
  their ids alive for good (`ServerRuns.UnsubscribeOrphans`,
  `ServerRuns.OrphanForGood`, `ServerRuns.OthersDroppedWitness`).
- A disconnection drops the id and keeps the entry, so a context that subscribes
  again is given the id that is gone, and is neither answered nor sent anything while
  the entry stays (`ServerRuns.IdGivenLiveIff`, `ServerRuns.NoAnswerAfterDisconnect`,
  `ServerRuns.DeadEntryWitness`).
- `Subscriptions::remove` has an inverted guard and removes nothing
  (`Subscriptions.SubscriptionIndex.Remove`, `Subscriptions.RemoveMeetsMeaningIff`).
- The relay's rule against sending an object back to its source compares with fields
  that are never filled in, and a subscriber listed under several lengths is sent a
  copy for each (`Relay.ForwardedExactly`).
- The multiword `HexEndec` form puts values in the low bits and reads them from the
  top, so it needs widths that fill it, which only some overloads check
  (`HexEndecLaws.WideRoundTripIff`); above 512 bits its expected length overflows a
  byte and decoding always throws (`HexEndecLaws.DecodesIff`).
- From an offset of 2^30 on, the shifted offset overflows an `int` and the call
  throws (`Fragmentation.SendableIff`, `Fragmentation.PublishNamedObject`).

Of the comment at `include/quicr/quicr_common.h:11-17` the model follows the constant,
1200, not the 1280 mentioned; the 66 bytes allowed for headers are proved to be
enough (`Fragmentation.DatagramOverhead`).

## Model

| member | source | states |
|---|---|---|
| Hex.HexToUint | include/quicr/quicr_name.h:43-55 | parsing gives the positional value of the digits, wrapped to 64 bits |
| Hex.UintToHex | include/quicr/quicr_name.h:60-72 | printing gives the sixteen hexadecimal digits of the value |
| Hex.HornerOfDigits | include/quicr/quicr_name.h:40-72 | parsing n printed digits gives the value modulo 16^n |
| Hex.DigitsOfHorner | include/quicr/quicr_name.h:40-72 | printing the value of an upper-case digit string gives the string back |
| Hex.DigitValues | include/quicr/quicr_name.h:12-38 | the value of each hexadecimal digit in either case, and the upper-case digit printed for it |
| Hex.OtherCharacters | include/quicr/quicr_name.h:12-38 | any other character counts as zero |
| Names.ShiftRightIsDivision | src/quicr_name.cpp:78-94 | shifting right by 0..127 divides the 128-bit number by a power of two |
| Names.ShiftLeftIsMultiplication | src/quicr_name.cpp:104-120 | shifting left by 0..127 multiplies modulo 2^128 |
| Names.PlusIsAddition | src/quicr_name.cpp:122-137 | the carry between limbs makes addition that of 128-bit numbers |
| Names.MinusIsSubtraction | src/quicr_name.cpp:139-154 | the borrow between limbs makes subtraction that of 128-bit numbers |
| Names.LessIsNumeric | src/quicr_name.cpp:281-289 | the order of names is the order of the numbers |
| Names.BitNotIsComplement | include/quicr/quicr_name.h:144-150 | complement is 2^128 - 1 minus the number |
| Names.BitAndIsLimbwise | src/quicr_name.cpp:222-227 | conjunction of limbs is conjunction of the 128-bit numbers |
| Names.ByteAtIsBase256Digit | src/quicr_name.cpp:56-66 | byte access gives the digit in base 256 |
| Names.OfHexIsHorner | include/quicr/quicr_name.h:96-114 | any text of at most 32 characters after the prefix gives the number it denotes, in either case; longer text is refused; the prefix makes no difference |
| Names.HexRoundTrip | src/quicr_name.cpp:46-54 | parsing the printed name gives the name |
| Names.HexTextRoundTrip | src/quicr_name.cpp:46-54 | printing the name parsed from 32 upper-case digits gives the text |
| Names.ToHex | src/quicr_name.cpp:46-54 | prints both limbs after the prefix |
| Names.OfHex | include/quicr/quicr_name.h:96-114 | the hex constructor, with its refusal of long text |
| Names.NameCell.ShiftRightAssign | src/quicr_name.cpp:78-94 | the compound assignment, updating the limbs in place |
| Names.NameCell.ShiftLeftAssign | src/quicr_name.cpp:104-120 | the compound assignment, updating the limbs in place |
| Names.NameCell.AddAssign | src/quicr_name.cpp:130-137 | the new number is the sum modulo 2^128 |
| Names.NameCell.SubtractAssign | src/quicr_name.cpp:147-154 | the new number is the difference modulo 2^128 |
| Names.NameCell.PostIncrement | src/quicr_name.cpp:163-169 | returns the old name and leaves its successor |
| Names.NameCell.PostDecrement | src/quicr_name.cpp:178-184 | returns the old name and leaves its predecessor |
| Namespaces.MaskValue | src/quicr_namespace.cpp:6 | the mask of a length L in 0..127 is 2^128 - 2^(128-L) |
| Namespaces.MaskRoundsDown | src/quicr_namespace.cpp:5-9 | the constructor rounds the name down to a multiple of 2^(128-L) |
| Namespaces.ContainsIffInterval | src/quicr_namespace.cpp:17-21 | a namespace contains exactly the names in an interval of 2^(128-L) from its own |
| Namespaces.NestedOrDisjoint | src/quicr_namespace.cpp:17-21 | two namespaces are nested or disjoint, and between them `contains` is inclusion |
| Namespaces.ContainsNamespaceIffCovers | include/quicr/quicr_namespace.h:25 | one namespace includes all names of another if and only if it contains its name and is no longer |
| Namespaces.LongLengthWraps | src/quicr_namespace.cpp:17-21 | a length of 128 or more masks like 64 plus its remainder modulo 64, with the shifts of the usual processors |
| HexEndec.EncodeWord | include/quicr/hex_endec.h:98-116 | the loop of shifts and ors packs the values in mixed radix and prints sixteen digits |
| HexEndec.DecodeWord | include/quicr/hex_endec.h:234-252 | each result is its field of the parsed word |
| HexEndec.EncodeWide | include/quicr/hex_endec.h:136-166 | the bit set packs the values in mixed radix and prints all its digits, word by word |
| HexEndec.DecodeWide | include/quicr/hex_endec.h:254-296 | each result is its field counted from the top, or the error the code throws |
| HexEndecLaws.PackField | include/quicr/hex_endec.h:98-116 | field i of packed values is value i modulo 2^width |
| HexEndecLaws.PackOfFields | include/quicr/hex_endec.h:234-252 | packing the fields of a number gives the number modulo 2^(sum of widths) |
| HexEndecLaws.WordRoundTripIff | include/quicr/hex_endec.h:98-116 | in one word every list of values comes back, cut to the widths, if and only if the widths sum to at most 64 |
| HexEndecLaws.WordHexRoundTripIff | include/quicr/hex_endec.h:234-252 | sixteen digits decoded and encoded come back if and only if the number fits the widths |
| HexEndecLaws.WideRoundTripIff | include/quicr/hex_endec.h:136-166 | in a bit set of up to 512 bits every list of values comes back, cut to the widths, if and only if they sum to the size or to nothing |
| HexEndecLaws.WideHexRoundTrip | include/quicr/hex_endec.h:254-296 | full-length text decodes if and only if every field is below 2^64, and then encodes to itself |
| HexEndecLaws.DecodesIff | include/quicr/hex_endec.h:254-296 | decoding succeeds if and only if the size is at most 512, the length is right and the fields fit 64 bits |
| HexEndecLaws.NarrowFieldsFit | include/quicr/hex_endec.h:286-293 | widths of at most 64 that fill the size never overflow |
| HexEndecLaws.NameRoundTrip | include/quicr/hex_endec.h:298-304 | values encoded into 128 bits make a name, and decoding that name gives them back |
| ByteOrder.SwapBytesReverses | src/message_buffer.cpp:121-135 | the eight shifted and masked terms, joined, are the number with its bytes in reverse order |
| ByteOrder.SwappedCopy | src/message_buffer.cpp:138-145 | swapping and copying a number to little-endian memory lays it out most significant byte first |
| ByteOrder.CopiedSwap | src/message_buffer.cpp:182-186 | copying eight bytes from little-endian memory and swapping reads them most significant byte first |
| MessageBuffers.VarRoundTrip | src/message_buffer.cpp:236-320 | decoding an encoded integer and any suffix gives the integer modulo 2^60 and the suffix |
| MessageBuffers.VarPrefixFree | src/message_buffer.cpp:236-270 | no encoding is the start of another |
| MessageBuffers.VarMinimal | src/message_buffer.cpp:236-320 | re-encoding a decoded integer never takes more bytes than were read |
| MessageBuffers.VectorRoundTrip | src/message_buffer.cpp:210-234 | a vector and suffix are read back if and only if the vector is shorter than 65536 bytes |
| MessageBuffers.Uint64RoundTrip | src/message_buffer.cpp:138-189 | an 8-byte integer and any suffix are read back exactly |
| MessageBuffers.MessageBuffer.Push | include/quicr/message_buffer.h:93-93 | appends one byte |
| MessageBuffers.MessageBuffer.Pop | src/message_buffer.cpp:197-208 | takes the first byte, or fails and leaves the buffer |
| MessageBuffers.MessageBuffer.PopFrontOf | src/message_buffer.cpp:71-86 | takes the first bytes, or fails and leaves the buffer |
| MessageBuffers.MessageBuffer.WriteUint64 | src/message_buffer.cpp:138-145 | the swapped and copied integer is appended most significant byte first |
| MessageBuffers.MessageBuffer.ReadUint64Value | src/message_buffer.cpp:162-189 | eight bytes are copied, taken off and swapped, with both of its errors |
| MessageBuffers.MessageBuffer.WriteVar | src/message_buffer.cpp:236-270 | the masks, tags and shifts of the four forms write the tagged big-endian form |
| MessageBuffers.MessageBuffer.ReadVar | src/message_buffer.cpp:272-320 | the first-byte tests and sums read that form, or fail where a byte is missing |
| MessageBuffers.FormOf | src/message_buffer.cpp:276-293 | the tests of the first byte tell the four lengths apart |
| MessageBuffers.MessageBuffer.WriteVector | src/message_buffer.cpp:210-216 | appends the length and the bytes |
| MessageBuffers.MessageBuffer.ReadVector | src/message_buffer.cpp:226-234 | reads a vector through a 16-bit length |
| WireFormat.VarAsNumber | src/message_buffer.cpp:236-270 | the bytes of a variable-length integer, read as one number, are the value below the tag 0, 0x80.., 0xC0.. or 0xE0.. of its length |
| WireFormat.Uint64Fails | src/message_buffer.cpp:162-189 | an 8-byte integer is refused exactly below eight bytes, with which error, and nothing is taken |
| WireFormat.VarFails | src/message_buffer.cpp:272-320 | a variable-length integer is refused exactly when bytes of the length its first one announces are missing, and all there are have been taken |
| WireFormat.VectorFails | src/message_buffer.cpp:226-234 | a vector is refused exactly when fewer bytes are left than its 16-bit length, and only the length has been taken |
| WireFormat.NameFails | src/encode.cpp:361-371 | a name is refused exactly below sixteen bytes |
| Messages.NameRoundTrip | src/encode.cpp:352-371 | a name and any suffix are read back exactly |
| Messages.NamespaceRoundTrip | src/encode.cpp:373-389 | a namespace comes back masked by its length, so a constructed one unaltered |
| Messages.WriteName | src/encode.cpp:352-359 | the loop over bytes writes the name most significant byte first |
| Messages.ReadNameFrom | src/encode.cpp:361-371 | the loop over bytes rebuilds both limbs, or fails where a byte is missing |
| Messages.SubscribeRoundTrip | src/encode.cpp:22-51 | a Subscribe and suffix are read back; the version is the reader's own |
| Messages.UnsubscribeRoundTrip | src/encode.cpp:53-76 | an Unsubscribe and suffix are read back; the version is the reader's own |
| Messages.SubscribeResponseRoundTrip | src/encode.cpp:78-108 | a SubscribeResponse and suffix are read back |
| Messages.SubscribeEndRoundTrip | src/encode.cpp:110-138 | a SubscribeEnd and suffix are read back |
| Messages.PublishIntentRoundTrip | src/encode.cpp:144-182 | a PublishIntent and suffix are read back for payloads below 65536 bytes, integers modulo 2^60 |
| Messages.PublishIntentResponseRoundTrip | src/encode.cpp:184-211 | a PublishIntentResponse and suffix are read back |
| Messages.PublishIntentEndRoundTrip | src/encode.cpp:319-350 | a PublishIntentEnd and suffix are read back for payloads below 65536 bytes |
| Messages.HeaderRoundTrip | src/encode.cpp:213-237 | a Header and suffix are read back, integers modulo 2^60 |
| Messages.PublishRoundTrip | src/encode.cpp:239-288 | a PublishDatagram and suffix are read back when its length field is that of its data, below 65536 bytes |
| Messages.PublishStreamRoundTrip | src/encode.cpp:290-317 | a PublishStream and suffix are read back when its length field is that of its data, below 65536 bytes |
| Messages.WriteSubscribe | src/encode.cpp:22-31 | the sequence of writes appends the encoding |
| Messages.ReadSubscribe | src/encode.cpp:33-51 | the sequence of reads decodes, with every error and what it leaves in the buffer |
| Messages.WriteUnsubscribe | src/encode.cpp:53-60 | the sequence of writes appends the encoding |
| Messages.ReadUnsubscribe | src/encode.cpp:62-76 | the sequence of reads decodes, with every error and what it leaves in the buffer |
| Messages.WriteSubscribeResponse | src/encode.cpp:78-87 | the sequence of writes appends the encoding |
| Messages.ReadSubscribeResponse | src/encode.cpp:89-108 | the sequence of reads decodes, with every error and what it leaves in the buffer |
| Messages.WriteSubscribeEnd | src/encode.cpp:110-118 | the sequence of writes appends the encoding |
| Messages.ReadSubscribeEnd | src/encode.cpp:120-138 | the sequence of reads decodes, with every error and what it leaves in the buffer |
| Messages.WritePublishIntent | src/encode.cpp:144-154 | the sequence of writes appends the encoding |
| Messages.ReadPublishIntent | src/encode.cpp:168-182 | the sequence of reads decodes, with every error and what it leaves in the buffer |
| Messages.WritePublishIntentResponse | src/encode.cpp:184-193 | the sequence of writes appends the encoding |
| Messages.ReadPublishIntentResponse | src/encode.cpp:195-211 | the sequence of reads decodes, with every error and what it leaves in the buffer |
| Messages.WritePublishIntentEnd | src/encode.cpp:319-327 | the sequence of writes appends the encoding |
| Messages.ReadPublishIntentEnd | src/encode.cpp:339-350 | the sequence of reads decodes, with every error and what it leaves in the buffer |
| Messages.WriteHeader | src/encode.cpp:213-224 | the sequence of writes appends the encoding |
| Messages.ReadHeader | src/encode.cpp:226-237 | the sequence of reads decodes, with every error and what it leaves in the buffer |
| Messages.WritePublish | src/encode.cpp:239-249 | the sequence of writes appends the encoding |
| Messages.ReadPublish | src/encode.cpp:263-288 | the sequence of reads decodes, with the check of the length field |
| Messages.WritePublishStream | src/encode.cpp:290-296 | the sequence of writes appends the encoding |
| Messages.ReadPublishStream | src/encode.cpp:306-317 | the sequence of reads decodes, with the check of the length field |
| WireFormat.NameAsNumber | src/encode.cpp:352-359 | the sixteen bytes of a name are its 128-bit number, most significant first |
| WireFormat.SubscribeLayout | src/encode.cpp:22-31 | what stands where in the 27 bytes, of type 1 |
| WireFormat.UnsubscribeLayout | src/encode.cpp:53-60 | what stands where in the 18 bytes, of type 4 |
| WireFormat.SubscribeResponseLayout | src/encode.cpp:78-87 | what stands where in the 27 bytes, of type 2 |
| WireFormat.SubscribeEndLayout | src/encode.cpp:110-118 | what stands where in the 19 bytes, of type 3 |
| WireFormat.PublishIntentLayout | src/encode.cpp:144-154 | type, id and namespace at their places, then payload and two integers |
| WireFormat.PublishIntentResponseLayout | src/encode.cpp:184-193 | what stands where in the 27 bytes |
| WireFormat.PublishIntentEndLayout | src/encode.cpp:319-327 | type and namespace at their places, then the payload |
| WireFormat.PublishLayout | src/encode.cpp:239-249 | type 5, the number of the name, four integers, flags, media type, length and data |
| WireFormat.SubscribeCut | src/encode.cpp:33-51 | a Subscribe cut short anywhere is refused |
| WireFormat.UnsubscribeCut | src/encode.cpp:62-76 | an Unsubscribe cut short anywhere is refused |
| WireFormat.SubscribeResponseCut | src/encode.cpp:89-108 | a SubscribeResponse cut short anywhere is refused |
| WireFormat.SubscribeEndCut | src/encode.cpp:120-138 | a SubscribeEnd cut short anywhere is refused |
| WireFormat.PublishIntentCut | src/encode.cpp:168-182 | a PublishIntent cut short anywhere is refused, for payloads below 65536 bytes |
| WireFormat.PublishIntentResponseCut | src/encode.cpp:195-211 | a PublishIntentResponse cut short anywhere is refused |
| WireFormat.PublishIntentEndCut | src/encode.cpp:339-350 | a PublishIntentEnd cut short anywhere is refused, for payloads below 65536 bytes |
| WireFormat.PublishCut | src/encode.cpp:263-288 | a PublishDatagram cut short anywhere is refused, for data below 65536 bytes |
| WireFormat.WrongTypeRefused | include/quicr/quicr_common.h:34-45 | the readers that look at the type refuse every type but their own |
| Fragmentation.PublishNamedObject | src/quicr_client.cpp:369-484 | a small object goes whole with tag 1; of a large one the messages handed over are a prefix of those of its blocks, all of them unless the transport refuses one or the offset overflows |
| Fragmentation.PublishFragments | src/quicr_client.cpp:417-483 | the fragmenting loop and the last short block |
| Fragmentation.BlockBounds | src/quicr_client.cpp:419-470 | blocks have 1 to 1200 bytes, all but the last exactly 1200 |
| Fragmentation.BlocksPartition | src/quicr_client.cpp:419-470 | the blocks joined in order are the object |
| Fragmentation.BlockTags | src/quicr_client.cpp:427-464 | tags rise with the offset, carry it shifted, and only the last is odd |
| Fragmentation.SendableIff | src/quicr_client.cpp:428-464 | no block overflows if and only if the last offset is below 2^30, as in every object of at most 2^30 bytes |
| Fragmentation.DatagramOverhead | include/quicr/quicr_common.h:11-18 | a datagram takes at most 55 bytes beside its data |
| Fragmentation.FragmentOnWire | src/quicr_client.cpp:424-458 | a block's message decodes to the block's datagram |
| Fragmentation.WholeOnWire | src/quicr_client.cpp:391-415 | the message of an object of at most 1200 bytes decodes to it, with tag 1 and zeros for group, object and flags |
| Reassembly.ReassembleFragments | src/quicr_client.cpp:498-518 | the test and the pass over the fragments in order of their tags |
| Reassembly.FragmentCache.HandlePubFragment | src/quicr_client.cpp:533-580 | one fragment: found in the current buffer, found in another, or new; delivery, erasure and rotation |
| Reassembly.FragmentCache.RotateIfFull | src/quicr_client.cpp:571-579 | a full buffer moves the index on and purges the buffer it moves to |
| CacheRuns.InitInv | src/quicr_client.cpp:36-36 | the empty cache meets the invariant for at least one buffer of at least one name |
| CacheRuns.StepInv | src/quicr_client.cpp:533-580 | every call keeps the invariant: indices in range, a name in one buffer, the current one not full, no name without a fragment |
| CacheRuns.RunInv | src/quicr_client.cpp:533-580 | the invariant holds after every run |
| CacheRuns.TotalBelowCapacity | src/quicr_client.cpp:571-579 | all buffers together hold fewer names than buffers times names |
| CacheRuns.InsertView | src/quicr_client.cpp:536-569 | a fragment changes what is pending for its own name alone, as a reassembler of that name would |
| CacheRuns.FirstFragmentUnchecked | src/quicr_client.cpp:564-568 | not testing the first fragment of a name delivers the same as testing it if and only if its narrowed tag is not 1 |
| CacheRuns.RotateView | src/quicr_client.cpp:571-579 | rotation discards exactly the names of the purged buffer |
| CacheRuns.StepSlack | src/quicr_client.cpp:571-579 | only a new name brings the purge of a buffer nearer, by one, and it comes when nothing is left |
| CacheRuns.RetentionBound | src/quicr_client.cpp:564-579 | a name just taken in is not purged before the (buffers-1)*names-th later call with a new name |
| RetentionLimits.PurgedIff | src/quicr_client.cpp:564-579 | while only new names come in, a pending name is purged if and only if they have used up the slack of its buffer |
| RetentionLimits.RetentionTight | src/quicr_client.cpp:564-579 | the bound is tight: a name that fills its buffer is purged by the (buffers-1)*names-th later new name, and by none before |
| RetentionLimits.RetentionTightRun | src/quicr_client.cpp:564-579 | a run from the start that shows it, for all limits |
| CacheRuns.OwnNeverPurged | src/quicr_client.cpp:564-579 | fragments of one name alone never get it purged, given two buffers |
| CacheRuns.ActsAlone | src/quicr_client.cpp:533-580 | under any interleaving, and whatever its tags, a name that is not purged is delivered as by a reassembler of its own |
| CacheRuns.StepView | src/quicr_client.cpp:533-580 | with two buffers a call does to its own name exactly what a reassembler of that name does |
| EndToEnd.JoinExact | src/quicr_client.cpp:508-518 | the pass over a part of an object's blocks succeeds if and only if none is missing from where it starts |
| EndToEnd.CompleteExact | src/quicr_client.cpp:498-531 | a non-empty part of an object is complete if and only if it is the whole, and gives the object |
| EndToEnd.ObjectAlone | src/quicr_client.cpp:498-569 | blocks in any order and number deliver the object at exactly the arrivals that complete the set since the last delivery |
| EndToEnd.ExpectedOnce | src/quicr_client.cpp:533-569 | when only the last arrival completes the set, the object is delivered once, there |
| EndToEnd.FirstCheckLosesIff | src/quicr_client.cpp:622-636 | of the datagrams given to the cache, not testing a first one loses a delivery if and only if its tag is 1 modulo 2^32 |
| EndToEnd.WrappedTagLost | src/quicr_client.cpp:564-568 | a message with such a tag, received by an empty cache, is a complete object that is not delivered |
| EndToEnd.WrappedTagArrives | src/encode.cpp:239-288 | a datagram with tag 2^32 + 1 decodes with that tag |
| EndToEnd.HeldBlocksDelivered | src/quicr_client.cpp:533-580 | blocks among any other fragments deliver the object at exactly the completing arrivals, as long as the name is not purged |
| EndToEnd.BlocksDelivered | src/quicr_client.cpp:533-580 | blocks among any other fragments deliver the object at exactly the completing arrivals, within the retention bound |
| EndToEnd.ObjectDelivered | src/quicr_client.cpp:417-580 | fragmenting, encoding, any interleaving, decoding and reassembly deliver the object at exactly the completing arrivals |
| EndToEnd.ObjectDeliveredOnce | src/quicr_client.cpp:417-580 | a permutation of the messages, with duplicates before completion, delivers the object once, intact |
| EndToEnd.ObjectDeliveredAlone | src/quicr_client.cpp:417-580 | without other traffic the same holds for the messages in any order and number, with no limit on their count |
| NameReuse.MixtureComplete | src/quicr_client.cpp:498-518 | any mixture of blocks of any objects is complete if and only if it ends with a last block, each offset is there exactly once, and no shorter block is in between; it gives the blocks in order |
| NameReuse.StuckForGood | src/quicr_client.cpp:508-543 | two fragments of one offset keep a name from ever completing, whatever blocks follow |
| NameReuse.DifferentCountsCollide | src/quicr_client.cpp:427-464 | the last block of a shorter object and the block of that number of a longer one are two such fragments |
| NameReuse.ReusedName | src/quicr_client.cpp:533-580 | blocks of two objects of as many blocks, mixed in any way, deliver at exactly the arrivals that complete the numbers, of each number the block that came first |
| NameReuse.NeverPublishedIff | src/quicr_client.cpp:508-518 | what is delivered is neither object if and only if it keeps a block of each that the other does not have |
| Server.PerformAllKeeps | src/quicr_server.cpp:115-203 | the calls an application makes never change subscriptions, ids, publishers or the announced namespaces |
| Server.QuicRServer.SubscribeResponse | src/quicr_server.cpp:139-161 | sends to the context of a live id, and nothing for one that is gone |
| Server.QuicRServer.SubscriptionEnded | src/quicr_server.cpp:163-184 | sends to the context of a live id, and nothing for one that is gone |
| Server.QuicRServer.SendNamedObject | src/quicr_server.cpp:186-203 | sends to the context of a live id, and nothing for one that is gone |
| Server.QuicRServer.PublishIntentResponse | src/quicr_server.cpp:115-137 | answers the announcer of a registered namespace and marks it ready |
| Server.QuicRServer.HandleSubscribeMessage | src/quicr_server.cpp:209-243 | a new context gets the next id in both maps; the application is told in either case |
| Server.QuicRServer.HandleUnsubscribeMessage | src/quicr_server.cpp:245-272 | the application is told first, then the id and the entry go, with the whole namespace when others remain |
| Server.QuicRServer.HandlePublishMessage | src/quicr_server.cpp:274-308 | an object in no announced namespace is dropped; the first publisher of a name is remembered |
| Server.QuicRServer.HandlePublishIntentMessage | src/quicr_server.cpp:310-346 | registers the namespace unless its name is taken |
| Server.QuicRServer.HandlePublishIntentEndMessage | src/quicr_server.cpp:348-376 | erases the namespace and the published names the message's own namespace contains |
| Server.QuicRServer.OnDisconnected | src/quicr_server.cpp:387-427 | every subscription of the context is reported and loses its id, in order of the names |
| Server.QuicRServer.OnReceived | src/quicr_server.cpp:458-506 | dispatch by the first byte; a message that cannot be read changes nothing |
| ServerSteps.NewSubscription | src/quicr_server.cpp:219-242 | a context not listed under the name gets the next id, alive in both maps with the context and stream the message came on; the application is told that id, once; nothing else changes |
| ServerSteps.RepeatedSubscription | src/quicr_server.cpp:219-242 | a listed context changes nothing and is reported with its id |
| ServerSteps.Unsubscription | src/quicr_server.cpp:253-271 | a listed context is reported with its id, that id alone goes, and the name keeps an empty entry or loses the one it has |
| ServerSteps.StrayUnsubscription | src/quicr_server.cpp:253-254 | any other context leaves at most an empty entry |
| ServerSteps.Disconnection | src/quicr_server.cpp:401-424 | every subscription of the context is reported, once and in order of the names, and exactly their ids go |
| ServerSteps.PublicationEffect | src/quicr_server.cpp:282-307 | an object in no announced namespace does nothing; another is reported with the context and stream of the first publisher of its name |
| ServerSteps.IntentEffect | src/quicr_server.cpp:319-345 | an intent is reported, and registered when its name is free |
| ServerSteps.IntentReadyIff | src/quicr_server.cpp:115-137 | an intent is ready if and only if it has been answered |
| ServerSteps.IntentEndEffect | src/quicr_server.cpp:357-375 | the end of a registered namespace is reported, frees its name and forgets the publishers of exactly the names in the message's namespace |
| ServerSteps.RunRegistrations | src/quicr_server.cpp:310-376 | in every run the registered namespaces are those of the messages, whatever the application does |
| ServerSteps.ReportedIffRegistered | src/quicr_server.cpp:282-307 | in every run an object is reported if and only if a namespace registered by the messages so far contains its name |
| ServerSteps.MessagesGoBack | src/quicr_server.cpp:115-203 | in every run each message goes to the context and stream on which came the subscription that created its id, or the intent it answers, under that intent's transaction id |
| ServerSteps.CallSends | src/quicr_server.cpp:115-203 | each call sends its one message for a live id or a registered name, and none otherwise |
| ServerSteps.CallsInOrder | src/quicr_server.cpp:115-203 | the calls of a callback are all made, one after the other |
| Dispatch.SubscribeReceived | src/quicr_server.cpp:469-472 | a Subscribe, with anything after it, reaches its handler with context, stream and message |
| Dispatch.PublishReceived | src/quicr_server.cpp:473-475 | a PublishDatagram reaches its handler, or is dropped when its length field is not that of its data |
| Dispatch.UnsubscribeReceived | src/quicr_server.cpp:476-479 | an Unsubscribe reaches its handler |
| Dispatch.UnsubscribeEnds | src/quicr_server.cpp:245-272 | the message of a listed context's unsubscription ends its id and removes its entry |
| Dispatch.PublishIntentReceived | src/quicr_server.cpp:480-484 | a PublishIntent reaches its handler |
| Dispatch.PublishIntentEndReceived | src/quicr_server.cpp:485-489 | a PublishIntentEnd reaches its handler |
| Dispatch.ServerDispatch | src/quicr_server.cpp:468-492 | the first byte decides which handler a message can reach; every other type is dropped |
| Dispatch.SubscribeCutDropped | src/quicr_server.cpp:494-496 | a Subscribe cut short reaches no handler |
| Dispatch.UnsubscribeCutDropped | src/quicr_server.cpp:494-496 | an Unsubscribe cut short reaches no handler |
| Dispatch.PublishIntentCutDropped | src/quicr_server.cpp:494-496 | a PublishIntent cut short reaches no handler |
| Dispatch.PublishIntentEndCutDropped | src/quicr_server.cpp:494-496 | a PublishIntentEnd cut short reaches no handler |
| Dispatch.PublishCutDropped | src/quicr_client.cpp:124-137 | a PublishDatagram cut short reaches no handler of the server or the client |
| ServerRuns.StepIdInv | src/quicr_server.cpp:209-424 | every step keeps the agreement of both subscription maps |
| ServerRuns.RunIdInv | src/quicr_server.cpp:209-424 | runs keep ids below the counter and distinct, the id map keyed by its own ids, and equal ids with equal contexts |
| ServerRuns.ReachableIdInv | src/quicr_server.cpp:209-424 | so it is in every state reachable from the start |
| ServerRuns.GoneForGood | src/quicr_server.cpp:139-203 | an id that is gone stays gone, and nothing is ever sent for it, whatever the application calls |
| ServerRuns.SilentAfterLeaving | src/quicr_server.cpp:245-272 | an id that leaves during a run is sent nothing in the rest of it |
| ServerRuns.UnsubscribeKeepsOthersIff | src/quicr_server.cpp:265-270 | an unsubscription removes its own entry, and keeps every other if and only if there is no other of that name |
| ServerRuns.UnsubscribeOrphans | src/quicr_server.cpp:265-270 | the others it drops keep live ids without an entry |
| ServerRuns.OrphanForGood | src/quicr_server.cpp:245-424 | a live id without an entry stays so in every run |
| ServerRuns.OthersDroppedWitness | src/quicr_server.cpp:265-270 | two subscriptions of one namespace and one unsubscription leave such an id |
| ServerRuns.IdGivenLiveIff | src/quicr_server.cpp:219-242 | a context already listed is given the id of its entry, which is alive if and only if it was |
| ServerRuns.DisconnectLeavesDeadEntry | src/quicr_server.cpp:404-424 | a disconnection keeps the entries of its context and ends their ids |
| ServerRuns.NoAnswerAfterDisconnect | src/quicr_server.cpp:219-242 | while such an entry stays, a new subscription of the context gets the id that is gone: no answer and no object, then or later |
| ServerRuns.DeadEntryWitness | src/quicr_server.cpp:404-424 | one subscription and its disconnection leave such an entry |
| ServerRuns.RunCovered | src/quicr_server.cpp:282-371 | runs keep every published name in an announced namespace, when ends are no longer than what they erase |
| ServerRuns.ReachableCovered | src/quicr_server.cpp:282-371 | so it is in every state reachable from the start by such ends |
| ServerRuns.EndKeepsCoverageIff | src/quicr_server.cpp:359-371 | an end keeps that in every state if and only if it is no longer than the namespace it erases |
| ServerRuns.EndLeavesNameWitness | src/quicr_server.cpp:359-371 | an intent, one object and a longer end, from the start, leave a published name that nothing announces |
| ServerRuns.FirstPublisherKept | src/quicr_server.cpp:294-307 | until an end erases it, a name is reported with the context of its first publisher |
| Subscriptions.SubscriptionIndex.AddRemote | cmd/really/subscription.cpp:8-26 | lists the remote under the masked name in the map of its length |
| Subscriptions.SubscriptionIndex.Remove | cmd/really/subscription.cpp:28-38 | as written, never changes the index |
| Subscriptions.RemoveMeetsMeaningIff | cmd/really/subscription.cpp:28-38 | that is what removal should do if and only if the remote is not listed |
| Subscriptions.SubscriptionIndex.FindRemotes | cmd/really/subscription.cpp:40-59 | the loops over lengths and sets collect the remotes of every prefix of the name |
| Subscriptions.RunAgrees | cmd/really/subscription.cpp:8-38 | after any additions and meant removals the index lists what a flat list of subscriptions does |
| Subscriptions.FindIsFlatScan | cmd/really/subscription.cpp:40-59 | after any such history `find` gives exactly the subscriptions whose namespace contains the name, once per length, ascending |
| Subscriptions.CountDestinations | cmd/really/subscription.cpp:45-56 | a remote is returned once for each length at which it was found |
| Relay.ReallyServer.OnSubscribeCallback | cmd/really/really.cpp:203-229 | lists the subscriber and answers it |
| Relay.ReallyServer.OnUnsubscribeCallback | cmd/really/really.cpp:183-201 | sends the end; the list stays |
| Relay.ReallyServer.OnPublisherObjectCallback | cmd/really/really.cpp:162-181 | sends to what `find` gives, except where source context and stream coincide |
| Relay.ReallyServer.OnPublishIntentCallback | cmd/really/really.cpp:145-154 | answers the announcer |
| Relay.OneEndAndLast | cmd/really/really.cpp:183-201 | in every run of the relay each id is sent at most one end, and nothing after it |
| Relay.ForwardedExactly | cmd/really/really.cpp:162-181 | in every reachable state an object is sent, unaltered, to exactly the live ids with a subscription that contains its name, once for each length of such subscriptions, or to none when its publisher is context 0 on stream 0 |
| RelaySteps.SubscriptionAnswered | cmd/really/really.cpp:203-229 | a new subscription is answered with one Ok, to where it came from |
| RelaySteps.SubscriptionAnsweredAgain | cmd/really/really.cpp:203-229 | a repeated one is answered where the first came from, if and only if its id is alive |
| RelaySteps.IntentIsAnswered | cmd/really/really.cpp:145-154 | an intent is answered with one Ok, to where the one registered under its name came from, and is ready then |
| RelaySteps.IntentEndSilent | cmd/really/really.cpp:156-160 | the end of an intent sends nothing |
| RelaySteps.UnsubscriptionEnds | cmd/really/really.cpp:183-201 | in every reachable state the unsubscription of a live id sends exactly one end, with Ok, to its context and stream; any other sends nothing |
| RelaySteps.DisconnectionEnds | src/quicr_server.cpp:401-424 | in every reachable state a disconnection sends exactly one end for each live id listed for the context |
| RelaySteps.EndedExactlyOnce | cmd/really/really.cpp:183-201 | over every run of the relay an id that is gone was sent exactly one end, and a live one none |
| RelaySteps.WantsIffSubscribed | cmd/really/really.cpp:203-229 | the relay has a subscription of an id that contains a name if and only if some event of the run made one |
| RelaySteps.SubscriberIsServed | cmd/really/really.cpp:162-181 | in every run, while the id of a new subscription is alive, every announced object of its namespace is sent to the context and stream it came on |
| RelaySteps.ForwardedInOrder | cmd/really/really.cpp:162-181 | an object goes to the live ones of the remotes that `find` lists, in that order |
| Relayed.ReadAsWrittenIff | src/encode.cpp:239-288 | a datagram is read as it was written if and only if its integers are below 2^60 and its length field is that of its data, for data below 65536 bytes |
| Relayed.SentAsReceived | cmd/really/really.cpp:162-181 | what the relay sends for such a datagram is, byte for byte, the message it received |
| Relayed.BlockReceived | src/quicr_server.cpp:458-475 | the server receives the message of a block as that block |
| Relayed.RelaysBlockIff | cmd/really/really.cpp:162-181 | the relay sends a block to a subscriber if and only if the name is announced, its publisher is not context 0 on stream 0, and the id is alive with a subscription that contains the name |
| Client.QuicRClient.SubscribeTo | src/quicr_client.cpp:268-311 | keeps the first delegate, and sends unless the subscription is ready |
| Client.QuicRClient.UnsubscribeFrom | src/quicr_client.cpp:348-365 | gives the subscription up and keeps the delegate |
| Client.QuicRClient.Announce | src/quicr_client.cpp:217-243 | keeps the first publisher delegate, sends the intent, and returns whether the transport took it |
| Client.QuicRClient.Withdraw | src/quicr_client.cpp:245-266 | sends the end only for a registered publisher |
| Client.QuicRClient.RemoveSubscribeState | src/quicr_client.cpp:313-346 | removal of one or of all, as a loop over the keys |
| Client.QuicRClient.Handle | src/quicr_client.cpp:582-664 | dispatch by the first byte; a message that cannot be read changes nothing |
| Client.QuicRClient.HandlePublication | src/quicr_client.cpp:618-640 | whole objects are offered at once, fragments go to the cache |
| Client.QuicRClient.CopyToAll | src/quicr_client.cpp:520-528 | a rebuilt object is copied to the delegates in order of the names |
| Client.QuicRClient.OfferAll | src/quicr_client.cpp:625-634 | one object is moved to the delegates in turn |
| ClientRuns.RunHasDelegates | src/quicr_client.cpp:268-365 | runs keep a delegate for each subscription in progress |
| ClientRuns.ReachableHasDelegates | src/quicr_client.cpp:268-365 | so it is in every state reachable from the start |
| ClientRuns.RemoveAllEnds | src/quicr_client.cpp:313-346 | removing everything ends the subscriptions in progress, tells each live delegate among them once, and leaves only delegates already given up |
| ClientRuns.EndedOnce | docs/unsubscribe-flows.md:17-17 | a registration is told of at most one end, and of nothing after it until it is made anew |
| ClientRuns.DeliverExactly | src/quicr_client.cpp:520-528 | a rebuilt object reaches exactly the live delegates whose namespace contains the name, each once, unaltered |
| ClientRuns.StoredKeyServesIff | src/quicr_client.cpp:280-282 | a later subscription under a stored name keeps the stored delegate, whom all its objects reach if and only if the stored namespace is no longer |
| ClientRuns.StoredKeyMissesWitness | src/quicr_namespace.cpp:59-63 | with the first 64 bits stored, the namespace of the first 32 is not served |
| ClientRuns.SharedDeliveryIff | src/quicr_client.cpp:625-634 | an unfragmented object reaches all of them unaltered if and only if none that takes its bytes comes before another |
| ClientRuns.TakenWitness | src/quicr_client.cpp:625-634 | two live delegates, the first of which takes the bytes: the second is handed an empty object |
| ClientRuns.ObjectsAreDeliveries | src/quicr_client.cpp:498-640 | over a run of publications the delegates get exactly what the cache delivers |
| ClientRuns.PublicationsReachDelegates | src/quicr_client.cpp:417-640 | in a run of publications the objects of the name handed out are one for each live delegate whose namespace contains it, intact |
| ClientRuns.ObjectReachesDelegatesAlone | src/quicr_client.cpp:417-640 | any permutation of an object's messages, with duplicates before completion, hands the object once, intact, to each live delegate whose namespace contains the name |
| ClientTraffic.FragmentInMessage | src/quicr_client.cpp:618-637 | a received message gives the cache exactly the fragment that can be read off it |
| ClientTraffic.ObjectsAreHandedOver | src/quicr_client.cpp:498-640 | in any run a delegate that stays registered is handed exactly what the cache delivers of a name while it is alive |
| ClientTraffic.ObjectReachesDelegates | src/quicr_client.cpp:417-640 | from the publisher to the delegates in any run: one that stays registered, whose namespace contains the name and that is alive when the last block arrives, is handed the object once, intact |
| ClientTraffic.ReachableSound | src/quicr_client.cpp:268-365 | every state reached from the start has a delegate for each subscription and a sound cache, as delivery asks |
| ClientSteps.StepDelegates | src/quicr_client.cpp:280-345 | a key has a delegate exactly from the first registration until it is ended or removed, and it is that of the first |
| ClientSteps.StepProgress | src/quicr_client.cpp:280-365 | a subscription is in progress, pending and under its transaction id, exactly from the call until it is given up, ended or removed |
| ClientSteps.StepPublishers | src/quicr_client.cpp:217-266 | a publisher delegate is there exactly from the first announcement until the name is withdrawn |
| ClientSteps.StepNeverReady | src/quicr_client.cpp:290-305 | nothing makes a subscription ready |
| ClientSteps.SubscribeSends | src/quicr_client.cpp:287-306 | a call sends exactly one message, which reads as what is asked, unless the subscription is ready |
| ClientSteps.UnsubscribeSends | src/quicr_client.cpp:356-364 | a call sends exactly one message, which reads as the Unsubscribe |
| ClientSteps.AnnounceSends | src/quicr_client.cpp:228-240 | a call sends exactly one message, which reads as the intent with its payload |
| ClientSteps.WithdrawSends | src/quicr_client.cpp:249-265 | a call sends one end if and only if the name has a publisher delegate |
| ClientSteps.ServerHearsCalls | src/quicr_client.cpp:217-365 | in every run from the start the server hears, in order, exactly what the calls ask, for payloads below 65536 bytes |
| ClientSteps.ResponseTold | src/quicr_client.cpp:592-607 | an answer is told to the live delegate of its name, and changes nothing |
| ClientSteps.EndTold | src/quicr_client.cpp:609-616 | an end is told, with its reason, to the live delegate of its name, which is gone afterwards |
| ClientSteps.RemovedTold | src/quicr_client.cpp:313-346 | removal tells exactly the live delegates of the subscriptions removed, with their namespaces and the reason |
| ClientSteps.IntentAnswerTold | src/quicr_client.cpp:642-659 | the answer to an intent is told to the live publisher delegate of its name |
| ClientSteps.UnreadableIgnored | src/quicr_client.cpp:124-132 | a message that cannot be read changes nothing, sends nothing and tells nobody |
| ClientSteps.WholeObjectReachesDelegates | src/quicr_client.cpp:618-634 | the message of an object of at most 1200 bytes tells exactly the live delegates whose namespace contains its name, each once, of the object, or of nothing when one told before took its bytes; the client stays as it was |
| ClientSteps.WholeObjectIntactIff | src/quicr_client.cpp:625-634 | all of them get the object if and only if it is empty or no delegate but the last takes it |
| ClientSteps.AllObjectsHandedOver | src/quicr_client.cpp:498-640 | in any run, whole objects and fragments mixed, a registered delegate is handed exactly the whole objects as offered and what the cache completes |
| Dispatch.SubscribeResponseReceived | src/quicr_client.cpp:592-594 | a SubscribeResponse, with anything after it, reaches its handler |
| Dispatch.SubscribeEndReceived | src/quicr_client.cpp:609-611 | a SubscribeEnd reaches its handler |
| Dispatch.PublicationReceived | src/quicr_client.cpp:618-620 | a PublishDatagram reaches its handler, or is dropped when its length field is not that of its data |
| Dispatch.PublishIntentResponseReceived | src/quicr_client.cpp:642-644 | a PublishIntentResponse reaches its handler |
| Dispatch.ClientDispatch | src/quicr_client.cpp:584-663 | the first byte decides which handler a message can reach; the rest is dropped |
| Dispatch.SubscribeResponseCutDropped | src/quicr_client.cpp:124-137 | a SubscribeResponse cut short reaches no handler |
| Dispatch.SubscribeEndCutDropped | src/quicr_client.cpp:124-137 | a SubscribeEnd cut short reaches no handler |
| Dispatch.PublishIntentResponseCutDropped | src/quicr_client.cpp:124-137 | a PublishIntentResponse cut short reaches no handler |
| Sessions.SubscriptionAccepted | src/quicr_client.cpp:268-311 | from call to answer: the relay answers the client's message once, where it came from, and the answer tells the registered delegate |
| Sessions.UnsubscriptionCompleted | docs/unsubscribe-flows.md:3-17 | from call to end: the relay answers a live subscription's message with the end, which tells the delegate and removes it |
| Sessions.AnnouncementAccepted | src/quicr_client.cpp:217-243 | from call to answer: an announcement under a free name is answered once and tells the publisher delegate |
| Sessions.AnnouncedAfterIntent | src/quicr_server.cpp:319-328 | after it the relay takes objects of that namespace |
| Sessions.WholeObjectRelayed | cmd/really/really.cpp:162-181 | from subscription to delegate: while the id is alive, the message of an announced object of at most 1200 bytes makes the relay send the subscriber one that tells its delegates as the publisher's would |
| Relayed.RelayedObjectReachesDelegates | cmd/really/really.cpp:162-181 | from publisher through relay to subscriber: the blocks the relay sends on, in any run of it, reach the delegates as the object, once and intact |
| SharedCache.OwnCompletionsOnly | src/quicr_client.cpp:36-36 | of clients that share the cache, the one whose arrival completes an object hands it to its delegates, and no other does |
| SharedCache.SpreadObject | src/quicr_client.cpp:533-580 | with the blocks of an object spread over the clients, a client hands it on at exactly those of its arrivals that complete the blocks received by all |
| SharedCache.SecondClientGetsNothing | src/quicr_client.cpp:536-580 | two clients receive every block in turn: the first hands the object on, the second hands on nothing |

## Left out

- Reassembly.FragmentCache.HandlePubFragment: models the meant erasure, from the buffer the object was found in; the code erases an iterator of another map (src/quicr_client.cpp:557), which C++ leaves undefined.
- Fragmentation.PublishNamedObject: asks for fewer than 1200 * 2^31 bytes, above which the number of blocks no longer fits the `int` it is kept in; pacing and sleeps are not modelled.
- HexEndec.EncodeWord: asks for widths below 64, since C++ leaves a shift of a word by its size undefined.
- HexEndec.DecodeWord: asks for widths below 64 for the same reason.
- Server.QuicRServer.OnReceived: asks for a message of at least one byte, since reading the first byte of an empty one is undefined (src/quicr_server.cpp:465); the limit of 150 messages a notification is not modelled.
- Subscriptions.SubscriptionIndex.Remove: stated as the code has it, the identity; what removal should do is `Subscriptions.Removed`, and `Subscriptions.RunAgrees` and `Subscriptions.FindIsFlatScan` are about that.
- Relay.ReallyServer.OnSubscribeCallback: asks for a length of at most 128, above which the code indexes past its vector; `Relay.Listed` skips such a subscription.
- Relay.ReallyServer.OnUnsubscribeCallback: asks for a length of at most 128 for the same reason.
- EndToEnd.ObjectDelivered: counts on at most (buffers-1)*names new names during the transfer, so that the object is not purged.
- ClientTraffic.ObjectReachesDelegates: the delegate stays registered during the transfer, no unfragmented object of the same name arrives (for those see `ClientSteps.AllObjectsHandedOver`), and at most (buffers-1)*names new names come in.
- ClientSteps.ServerHearsCalls: asks for payloads below 65536 bytes; a longer one is not read back (`MessageBuffers.VectorRoundTrip`).
- Relayed.RelayedObjectReachesDelegates: the same, and what the transports lose or reorder is the choice of the messages that arrive.
- NameReuse.ReusedName: is about two objects of as many blocks; for others there are the statements about any mixture, `NameReuse.MixtureComplete` and `NameReuse.StuckForGood`.
- Shifts of a name by 128 or more: undefined in C++; modelled as the usual processors do it, and kept out of the theorems about numbers. Length 128 in the subscription index is one of them.
- Reading a variable-length integer from an empty buffer: the code looks at a byte that is not there; modelled as the failure the next read reports.
- Byte order: the host is little-endian, as the code assumes for integers of 16 and 32 bits; those two forms, which no message uses, are left out.
- Subscriber ids: unbounded here; the code's counter would wrap after 2^64 subscriptions.
- Bitwise or and exclusive or of names, comparison by `>` and `!=`, and names from fewer than 16 bytes: easy, or undefined.
- Threads, locks and callbacks that reenter the library: handlers are atomic steps.
- A vector that was moved from: taken to be empty, as every implementation leaves it.
- Names of the delegates' other callbacks, logging, connection set-up, the run loop, random transaction ids: no added difficulty.
- The programs chatty, forty and reallyTest, benchmarks and the build.
