# A verified model of the TPM 2.0 client library

This project models the path that a typed value takes through the library, and proves what each
stage keeps:

1. **The codec** (`src/Marshal.c`, `src/Memory.c`). Everything reachable from `TPM2B_PUBLIC`, and
   `TPMS_AUTH_COMMAND`, `TPMS_CAPABILITY_DATA` and `TPM2B_CREATION_DATA`, marshalled and unmarshalled
   through the mutable cursor and budget of the source. Structures follow the TPM 2.0 Library
   Specification, Part 2 (TPMT_PUBLIC is section 12.2.4, TPM2B_PUBLIC section 12.2.5).
2. **Commands and responses** (`src/tpm_codec.c`). `TSS_BuildCommand` with its two back-patched
   lengths, `TSS_DispatchCmd`, `CleanResponseCode`, and `TPM2_ReadPublic` end to end.
3. **The transport** (`src/tpm_socket_comm.c`, `src/tpm_comm_emulator.c`). The receive buffer over
   arbitrarily fragmented input, the send loop over partial sends, and the framed request/reply
   protocol in lockstep over whole runs.
4. **Transactions** (`src/tpm_codec.c`). `SignData` over an HMAC sequence, and
   `TSS_CreatePersistentKey` over the TPM's object table.

## How it is built

| File | Contents |
|---|---|
| `Bytes.dfy` | integer widths, big-endian order, bitwise operators, the byte-order primitives on arrays |
| `Memory2B.dfy` | comparison, copy, concatenation and padding of sized buffers |
| `Wire.dfy` | cursor and budget, what a list of field writes does to them, primitive (un)marshallers |
| `Codec.dfy` | laws of an inverse parser and printer, lifted to arrays |
| `Grammar.dfy`, `PublicGrammar.dfy`, `ListGrammar.dfy` | what the structures are on the wire, in numbers and offsets, and the agreement of the codec with it |
| `Algorithms.dfy`, `Blobs.dfy`, `Schemes.dfy` | interface types, sized buffers, selector-tagged schemes |
| `PublicArea.dfy`, `PublicCodec.dfy` | the public area: values, fields, parsers and laws; the methods |
| `Lists.dfy`, `Capability.dfy`, `Creation.dfy`, `Auth.dfy` | counted lists and the structures around them |
| `Command.dfy` | command building, and a reference parser for commands |
| `Transport.dfy`, `Emulator.dfy` | the socket and the emulator protocol |
| `ResponseCodes.dfy`, `Response.dfy`, `ReadPublic.dfy` | response codes, dispatch, one command end to end |
| `Signing.dfy`, `PersistentKey.dfy` | the two transactions |

Three ideas carry most of the proofs.

* A structure `X` has a function `XFields` that lists the atomic writes of its marshaller, a predicate
  `XOk` for the values its unmarshaller may produce, and a function `ParseX` for what the unmarshaller
  makes of the bytes that the budget covers. `MarshalX` is proved to have exactly the effect of its
  fields on memory, cursor and budget, overdrawn budgets included (`Wrote`); `UnmarshalX` is proved to
  do exactly what `ParseX` says (`Read`). `ParseX` promises soundness: whatever it accepts is `XOk`
  and prints as the bytes consumed. `XRoundTrip` is the other direction, before any suffix.
* A protocol step is a function from the connection's state to a result and a new state, each method is
  proved to follow its function for every fragmentation and every partial send, and lemmas over the
  functions say what is on the wire and what was consumed.

* What these functions say is stated once more without them, in literal numbers, bits and offsets: which
  bytes of a structure are accepted, where it ends and which code refuses anything else (`PublicAgrees`,
  `CapabilityAgrees`, `CreationAgrees`, `AuthAgrees`, `InterpretInNumbers`); which bytes each value is
  written as (`PublicInBytes`, `AnswerInBytes`, `CommandInBytes`); and what every step does in every case,
  failures included (`ReadExactly`, `SendExactly`, `RequestExactly`, `ReplyExactly`, `ReadPublicExactly`,
  `LongInNumbers`, `KeyExactly`). The lemmas are for all inputs.

The environment is arbitrary: which chunks arrive and which sends are accepted (`Network`), and which
commands the TPM refuses (`Tpm`). A command the TPM refuses is taken to have had no effect. HMAC is an
unknown function.

Families of identical C text are modelled once with a parameter: the one-switch interface types
(`Tpmi`), the sized buffers (by their maximum length), the RSA and ECC scheme structures (by their
selector type), and the list loops (by `Kind`). Union members are kept as words that are zero when the
selector does not use them, so that a value has one representation; attribute structures are the raw
words. The limits that C takes from `sizeof` are named constants.

## What the proofs brought to light

Each is a lemma, with the exact condition under which the code does what it is for.

* `send_socket_bytes` compares only the last chunk with the total: a message taken in two parts is sent
  in full and reported as failed (`PartialSendReportsFailure`). Success is reported exactly when one
  `send` took everything or the length is not a positive `int` (`SendSucceedsIff`), and then all bytes
  were sent exactly if the length is below 2^31 (`SuccessMeansSent`).
* `tpm_socket_read` looks at what at most one `recv` brings (`ReadSucceedsIff`). A pending reply is
  therefore returned exactly if its length, payload and acknowledgement arrive in time (`Timely` in
  `ReplySucceedsIff`, a condition on how much the first arrivals hold); and from an empty buffer there is
  a way for it to arrive so that it is read exactly if it has at most 2044 bytes (`LongestReply`),
  although the response buffer holds 4096.
* A call that fails leaves the input before the reply, after it, or inside it; inside it exactly if the
  length arrived in time and the payload did not, or exceeds the capacity or is empty, or the
  acknowledgement did not arrive in time (`FailedReplyLeaves`). The next call then takes payload or
  acknowledgement for a length.
* A deferred-length marshaller writes the whole body into a budget that leaves no room for the length,
  and then drops the length (`DeferredLength`). It has the effect of writing in order exactly if the
  budget covers both, or the length is in memory already and the two bytes withheld make no field fall
  short (`DeferredExactly`).
* `TSS_BuildCommand` patches the size of the authorization area even if its placeholder did not fit, and
  then writes over the end of the capacity, by at most four bytes (`StrayIsOutside`).
* `TSS_BuildCommand` counts the parameters as a UINT16, so the size field is right exactly for
  parameters below 65536 bytes (`ClaimIsTrue`); and a non-null session array with no sessions gives a
  command that claims an authorization area it does not have (`CommandRoundTrip`, with the instance
  `EmptySessionArray`).
* `CleanResponseCode` maps some failure codes to success, 0x200 among them (`CleanHidesFailure`,
  `HiddenFailureExists`).
* `TPM_CAP_Unmarshal` accepts the vendor property that the union then refuses; an answer is refused for
  its selector exactly in that case (`VendorPropertyIsRefused`).
* `MemoryConcat2B` compares with an unsigned difference, so the bound is the intended one exactly for a
  destination whose size is within the maximum (`TakesIff`).
* A `SignData` that fails leaves its sequence in the TPM exactly if the token needed one and it was
  started; the sequence then holds what the successful updates fed it, a prefix of the token (`Leaves` in
  `SignInSequence` and `SignData`). With a reported input buffer of no size, updates without data are
  sent until one fails. A result of 32 for a short buffer is the same as for success, as the code's
  comment intends.
* `TSS_CreatePersistentKey` returns a transient handle as if it were persistent when asked for one
  (`TransientIsReturned`; `SuccessIsPersistent` has the exact condition), and a failed flush reports
  failure with the key persistent and a second copy loaded (`FailureLeavesBehind`, `RetryFindsKey`).

## Model

| member | source | states |
|---|---|---|
| Bytes.DecodeEncode | src/Memory.c:161-252 | reading back a number stored big-endian in n bytes gives the number, for every number that fits |
| Bytes.EncodeDecode | src/Memory.c:161-252 | storing the number read from any bytes gives those bytes: the two conversions are mutually inverse |
| Bytes.BEIsBigEndian | src/Memory.c:161-252 | byte i of n holds the digit of weight 256^(n-1-i): the most significant byte is first |
| Bytes.Uint16ToByteArray | src/Memory.c:161-169 | the two bytes at the offset become the big-endian form, all others are unchanged |
| Bytes.Uint32ToByteArray | src/Memory.c:176-186 | the same for four bytes |
| Bytes.Uint64ToByteArray | src/Memory.c:192-206 | the same for eight bytes |
| Bytes.StoreBytes | src/Memory.c:192-206 | storing the low byte and shifting, from the end backwards, yields the big-endian form |
| Bytes.ByteArrayToUint16 | src/Memory.c:213-219 | the value is the big-endian number in the two bytes |
| Bytes.ByteArrayToUint32 | src/Memory.c:226-234 | the same for four bytes |
| Bytes.ByteArrayToUint64 | src/Memory.c:240-252 | the same for eight bytes |
| Bytes.AccumulateBytes | src/Memory.c:240-252 | shift-and-add in a register of the given width loses nothing and yields the big-endian number |
| Bytes.AndBits | src/Marshal.c:433-435 | a bit of the conjunction is set exactly if it is set in both words |
| Bytes.AndIsClear | src/Marshal.c:433-435 | a mask test is passed exactly by the words that share no bit with the mask |
| Bytes.OrBits | src/Memory.c:47-54 | a bit of the disjunction is set exactly if it is set in either word |
| Bytes.XorBits | src/Memory.c:47-54 | a bit of the exclusive or is set exactly if it differs |
| Memory2B.XorIsZero | src/Memory.c:53-54 | the exclusive or of two numbers is zero exactly if they are equal |
| Memory2B.OrIsZero | src/Memory.c:53-55 | the accumulated or is zero exactly if both parts are |
| Memory2B.StaysInWidth | src/Memory.c:47-54 | neither operator leaves the width of its operands, so the BYTE accumulator loses nothing |
| Memory2B.MemoryEqual | src/Memory.c:41-56 | the OR-of-XOR loop answers true exactly when all the bytes agree |
| Memory2B.MemoryCopy2B | src/Memory.c:63-89 | the destination holds the source, or is empty if the source is missing or longer than dSize; bytes after it are unchanged; the result is the size as an INT16 |
| Memory2B.MemoryConcat2B | src/Memory.c:95-108 | the contents are extended exactly if the unsigned comparison takes the input, which for a size within aMaxSize means that they then stay within it; that bound is kept; the new size is stored as a UINT16; bytes after the contents are unchanged |
| Memory2B.TakesIff | src/Memory.c:102 | the comparison is the intended bound exactly for sizes within aMaxSize: from a larger size every input is taken |
| Memory2B.AppendsAccepted | src/Memory.c:95-108 | any run of concatenations keeps the bound and leaves the start followed by the inputs that fitted when their turn came, in order |
| Memory2B.MemoryEqual2B | src/Memory.c:117-126 | true exactly when sizes and contents agree |
| Memory2B.MemoryPad2B | src/Memory.c:147-155 | the contents are extended by zeros to the new size, all other bytes are unchanged; a smaller new size clears as many bytes as the negative difference is as a size_t |
| Wire.MarshalUint8 | src/Marshal.c:58-70 | one field through the budget: charged always, written only while the budget is not overdrawn, and the returned count never depends on either |
| Wire.MarshalUint16 | src/Marshal.c:95-107 | the same for two bytes in big-endian order |
| Wire.MarshalUint32 | src/Marshal.c:129-141 | the same for four bytes |
| Wire.MarshalByteArray | src/Marshal.c:5372-5386 | the same for a byte array, whose count is returned as a UINT16 |
| Wire.UnmarshalUint8 | src/Marshal.c:33-46 | succeeds exactly if a byte is covered, and is refused for a budget of zero or less; cursor and budget move by one; the value is that byte |
| Wire.UnmarshalUint16 | src/Marshal.c:79-91 | the same for two bytes in big-endian order |
| Wire.UnmarshalUint32 | src/Marshal.c:113-125 | the same for four bytes |
| Wire.UnmarshalByteArray | src/Marshal.c:5361-5370 | succeeds exactly if the budget is not negative and `count` bytes are covered, and returns just these |
| Wire.UintRoundTrip | src/Marshal.c:79-141 | any value that fits, marshalled before any suffix, reads back as itself and leaves the suffix |
| Wire.OverdrawnIsSticky | src/Marshal.c:58-70 | once a budget is negative, no later sequence of writes changes memory or cursor; only the charge continues |
| Wire.StickyOverflow | src/Marshal.c:95-107 | from any budget of at least zero: a whole-field prefix of the encoding is written, inside the budget, the rest of memory is unchanged, and the budget ends at its start minus the full size |
| Wire.FittingIsMaximal | src/Marshal.c:5372-5386 | that prefix is the longest that fits |
| Wire.EmitsAll | src/Marshal.c:4742-4753 | with budget for everything, memory holds the full encoding at the cursor and is otherwise unchanged |
| Wire.EmitsAllUnbudgeted | src/Marshal.c:58-70 | without a budget everything is written in order; without a buffer nothing happens |
| Wire.DeferredLength | src/Marshal.c:4776-4788 | a deferred-length marshaller equals writing length and body in order if the budget covers both; otherwise the two length bytes are not written; the charge is the same |
| Wire.DeferredExactly | src/Marshal.c:4776-4788 | for every memory and budget, it has the effect of writing in order exactly if the budget covers both, or the length stands in memory already and the same whole fields of the body fit with two bytes less |
| Codec.AcceptsExactly | src/Marshal.c:4757-4774 | an unmarshaller inverse to its marshaller accepts exactly the encodings of well-formed values followed by anything |
| Codec.ReadsPrefix | src/Marshal.c:4757-4774 | a value is read from some bytes exactly if it is well formed and they start with its encoding |
| Codec.PrefixFree | src/Marshal.c:4757-4774 | and then no encoding begins another, and every value has one encoding |
| Codec.Local | src/Marshal.c:5361-5370 | and then a success depends only on the bytes consumed: more bytes after them, or none, change neither value nor extent |
| Codec.ManySound | src/Marshal.c:5464-5476 | an element loop that succeeds read exactly `count` well-formed elements, and their encodings are the bytes consumed |
| Codec.ManyRoundTrip | src/Marshal.c:5464-5488 | an element loop reads back any number of well-formed elements from their encodings |
| Codec.ManyFailsEarly | src/Marshal.c:5464-5476 | the first element that fails decides the result |
| Algorithms.UnmarshalTpmi | src/Marshal.c:1002-1034 | a 16-bit interface type is accepted exactly if the enabled algorithms, key sizes or curves include it, NULL only under the flag, and refused with the type's own code |
| Grammar.TablesAgree | src/Marshal.c:1002-1034 | the values of every 16-bit interface type and the code of its refusal, in numbers |
| Grammar.TpmiAgrees | src/Marshal.c:1002-1034 | at any offset, exactly these values are accepted, and anything else is refused with that code |
| Blobs.MarshalBlob | src/Marshal.c:1452-1462 | writes the length and, unless it is zero, the bytes |
| Blobs.UnmarshalBlob | src/Marshal.c:1439-1450 | refuses a length beyond the array before reading it; otherwise as ParseBlob |
| Blobs.ParseBlob | src/Marshal.c:1439-1450 | an accepted buffer is no longer than its array and encodes as the bytes consumed |
| Blobs.BlobRoundTrip | src/Marshal.c:1439-1462 | any buffer within its array reads back as itself |
| Grammar.BlobAgrees | src/Marshal.c:1439-1450 | at any offset, a sized buffer is accepted exactly if its length is within the array and covered; otherwise TPM_RC_SIZE or TPM_RC_INSUFFICIENT |
| Grammar.BlobInBytes | src/Marshal.c:1452-1462 | a sized buffer is written as its length and its bytes |
| Blobs.UnmarshalAttributes | src/Marshal.c:426-438 | an attribute word is accepted exactly if none of its bits is reserved, with bits taken from their weights |
| Blobs.AttributesAreBits | src/Marshal.c:426-438 | which words are accepted, bit by bit, and with which code others are refused |
| Schemes.SymDefObjectRoundTrip | src/Marshal.c:2781-2953 | every well-formed symmetric definition, its key bits and mode selected by its algorithm, reads back as itself |
| Schemes.ParseSymDefObject | src/Marshal.c:2931-2943 | an accepted one is well-formed and encodes as the bytes consumed |
| Schemes.MarshalSymDefObject | src/Marshal.c:2945-2953 | writes exactly its fields, in order |
| Schemes.UnmarshalSymDefObject | src/Marshal.c:2931-2943 | does exactly what its parser says, on every input |
| Schemes.KeyedHashSchemeRoundTrip | src/Marshal.c:3182-3296 | the same for the keyed-hash scheme with its HMAC and XOR details |
| Schemes.ParseKeyedHashScheme | src/Marshal.c:3277-3286 | an accepted one is well-formed and encodes as the bytes consumed |
| Schemes.MarshalKeyedHashScheme | src/Marshal.c:3288-3296 | writes exactly its fields, in order |
| Schemes.UnmarshalKeyedHashScheme | src/Marshal.c:3277-3286 | does exactly what its parser says, on every input |
| Schemes.KdfSchemeRoundTrip | src/Marshal.c:3484-3557 | the same for the key-derivation scheme |
| Schemes.ParseKdfScheme | src/Marshal.c:3538-3547 | an accepted one is well-formed and encodes as the bytes consumed |
| Schemes.MarshalKdfScheme | src/Marshal.c:3549-3557 | writes exactly its fields, in order |
| Schemes.UnmarshalKdfScheme | src/Marshal.c:3538-3547 | does exactly what its parser says, on every input |
| Schemes.AsymSchemeRoundTrip | src/Marshal.c:3613-3711 | the same for RSA and ECC schemes, whose details are a hash, a hash with a count, or nothing |
| Schemes.ParseAsymScheme | src/Marshal.c:3775-3784 | an accepted one is well-formed and encodes as the bytes consumed |
| Schemes.MarshalAsymScheme | src/Marshal.c:3786-3794 | writes exactly its fields, in order |
| Schemes.UnmarshalAsymScheme | src/Marshal.c:4117-4126 | does exactly what its parser says, on every input |
| PublicArea.RsaParmsRoundTrip | src/Marshal.c:4582-4611 | every well-formed set of RSA parameters reads back as itself |
| PublicArea.EccParmsRoundTrip | src/Marshal.c:4615-4642 | every well-formed set of ECC parameters reads back as itself |
| PublicArea.PublicParmsRoundTrip | src/Marshal.c:4647-4693 | the parameters of all four types read back under their selector |
| PublicArea.PublicIdRoundTrip | src/Marshal.c:4504-4550 | the unique fields of all four types read back under their selector |
| PublicArea.ParsePublic | src/Marshal.c:4719-4740 | an accepted public area is well-formed under the enabled algorithms and encodes as the bytes consumed |
| PublicArea.PublicRoundTrip | src/Marshal.c:4719-4753 | every well-formed public area of all four types, before any suffix, reads back as itself |
| PublicArea.ParsePublic2B | src/Marshal.c:4757-4774 | accepts only if the length is not zero and equals the bytes its body used; re-marshalling reproduces the bytes consumed |
| PublicArea.Public2BRoundTrip | src/Marshal.c:4757-4788 | every well-formed sized public area reads back as itself, with its size the length of its body |
| PublicArea.PublicAcceptsExactly | src/Marshal.c:4757-4774 | the unmarshaller succeeds exactly on the encodings of well-formed public areas followed by any suffix |
| PublicGrammar.PublicAgrees | src/Marshal.c:4720-4774 | for every input: which bytes of a TPM2B_PUBLIC are accepted, where it ends, and with which code anything else is refused, in numbers, bits and offsets |
| PublicGrammar.PublicInBytes | src/Marshal.c:4742-4788 | every public area is written as exactly these bytes, member by member, for all four key types |
| PublicGrammar.PublicIsRead | src/Marshal.c:4757-4774 | an accepted input is read as the value whose bytes it starts with |
| PublicArea.PublicIsLocal | src/Marshal.c:4757-4774 | appended bytes change neither the value nor the count consumed |
| PublicArea.PublicPrefixFree | src/Marshal.c:4757-4774 | no accepted encoding is a prefix of another for the same flag, and a value has one encoding |
| PublicArea.PublicSize | src/Marshal.c:4742-4753 | the body of a well-formed public area takes 12 to 350 bytes, so the UINT16 sum cannot wrap |
| PublicCodec.MarshalPublic | src/Marshal.c:4742-4753 | writes exactly its fields, in order, through the budget, and returns their count, dry run included |
| PublicCodec.MarshalPublic2B | src/Marshal.c:4776-4788 | has exactly the effect of the deferred-length scheme on memory, cursor and budget, and returns body plus two |
| PublicCodec.MarshalPublicParms | src/Marshal.c:4671-4693 | writes the selected member |
| PublicCodec.MarshalPublicId | src/Marshal.c:4528-4550 | writes the selected member |
| PublicCodec.UnmarshalPublicParms | src/Marshal.c:4647-4669 | reads the selected member; any other selector is refused |
| PublicCodec.UnmarshalPublicId | src/Marshal.c:4504-4526 | reads the selected member; any other selector is refused |
| PublicCodec.UnmarshalPublic | src/Marshal.c:4719-4740 | does exactly what ParsePublic says; success moves the cursor by the decrease of the budget, and no outcome looks beyond it |
| PublicCodec.UnmarshalPublic2B | src/Marshal.c:4757-4774 | follows the sized parser in result, value, cursor and budget on every input; PublicAgrees says in numbers what that is |
| PublicCodec.PublicInMemory | src/Marshal.c:4776-4788 | with two bytes more than the body, memory holds exactly the sized encoding at the cursor and is otherwise unchanged |
| PublicCodec.PublicThroughMemory | src/Marshal.c:4719-4788 | marshalled anywhere in memory and unmarshalled from there, every well-formed public area comes back, with its size, using exactly the bytes written |
| Lists.ItemRoundTrip | src/Marshal.c:1655-1918 | every well-formed element of each list type reads back as itself |
| Lists.ParseList | src/Marshal.c:2066-2077 | an accepted list stays within its array and encodes as the bytes consumed |
| Lists.ListRoundTrip | src/Marshal.c:1919-2209 | a list of any count within its limit reads back as itself |
| Lists.ListSize | src/Marshal.c:1933-2209 | no list exceeds MAX_CAP_DATA bytes and its count field, so the UINT16 sum cannot wrap |
| Lists.MarshalList | src/Marshal.c:2079-2087 | writes the count and every element, by the element loop |
| Lists.UnmarshalList | src/Marshal.c:2066-2077 | refuses a count beyond the array; otherwise reads the elements, by the element loop |
| Lists.MarshalItems | src/Marshal.c:5477-5488 | the loop writes the fields of all the elements in order and returns their sum |
| Lists.UnmarshalItems | src/Marshal.c:5464-5476 | the loop stops at the first failure with its code, and otherwise reads `count` elements |
| Capability.ParseCapability | src/Marshal.c:2275-2284 | an accepted answer holds the list its selector names and encodes as the bytes consumed |
| Capability.CapabilityRoundTrip | src/Marshal.c:2213-2293 | every well-formed answer, of all ten kinds, reads back as itself |
| Capability.CapabilityAcceptsExactly | src/Marshal.c:2275-2284 | the unmarshaller succeeds exactly on encodings of well-formed answers followed by anything |
| Capability.CapabilityIsLocal | src/Marshal.c:2275-2284 | bytes after an accepted answer change neither its value nor its extent |
| Capability.CapabilityPrefixFree | src/Marshal.c:2275-2284 | no encoding is a prefix of another |
| Capability.CapabilityFitsCapBuffer | src/Marshal.c:2286-2293 | no answer exceeds MAX_CAP_BUFFER, 1024 bytes |
| Capability.VendorPropertyIsRefused | src/Marshal.c:343-372 | an answer is refused for its selector exactly if the selector is the vendor property, which the check of the selector lets pass |
| Capability.MarshalCapability | src/Marshal.c:2286-2293 | writes the selector and the list it names |
| Capability.UnmarshalCapability | src/Marshal.c:2275-2284 | follows ParseCapability on every input; CapabilityAgrees and AnswerIsRead say in numbers what that is |
| ListGrammar.CapabilityAgrees | src/Marshal.c:2213-2284 | for every input: which bytes of an answer are accepted under each selector, with its limit, its elements and their reserved bits, where it ends, and with which code anything else is refused |
| ListGrammar.AnswerInBytes | src/Marshal.c:2246-2293 | every answer is written as its selector, its count and its elements, in exactly these bytes |
| ListGrammar.AnswerIsRead | src/Marshal.c:2213-2284 | the bytes of an answer, followed by anything, are read as that answer exactly if its selector is one of the ten, its count within the limit, and its elements of the selector's kind and sound |
| Creation.ParseCreation2B | src/Marshal.c:5327-5344 | accepts only if the length equals the bytes its body used; re-marshalling reproduces them |
| Creation.Creation2BRoundTrip | src/Marshal.c:5285-5358 | every well-formed sized creation data reads back as itself |
| Creation.Creation2BAcceptsExactly | src/Marshal.c:5327-5344 | the unmarshaller succeeds exactly on encodings of well-formed creation data followed by anything |
| Creation.Creation2BIsLocal | src/Marshal.c:5327-5344 | bytes after accepted creation data change neither their value nor their extent |
| Creation.Creation2BPrefixFree | src/Marshal.c:5327-5344 | no encoding is a prefix of another |
| Creation.CreationSize | src/Marshal.c:5311-5324 | the body takes 15 to 305 bytes |
| Creation.MarshalCreation2B | src/Marshal.c:5346-5358 | has exactly the effect of the deferred-length scheme |
| Creation.UnmarshalCreation2B | src/Marshal.c:5327-5344 | does exactly what ParseCreation2B says, on every input |
| ListGrammar.CreationAgrees | src/Marshal.c:5285-5344 | for every input: which bytes of creation data are accepted, where they end, and with which code others are refused |
| ListGrammar.CreationInBytes | src/Marshal.c:5311-5358 | creation data is written as exactly these bytes |
| Auth.ParseAuth | src/Marshal.c:2635-2650 | an accepted authorization names a session in range or the password, has no reserved attribute, and encodes as the bytes consumed |
| Auth.AuthRoundTrip | src/Marshal.c:2635-2661 | every well-formed authorization reads back as itself |
| Auth.AuthAcceptsExactly | src/Marshal.c:2635-2650 | the unmarshaller succeeds exactly on encodings of well-formed authorizations followed by anything |
| Auth.AuthIsLocal | src/Marshal.c:2635-2650 | bytes after an accepted authorization change neither its value nor its extent |
| Auth.AuthPrefixFree | src/Marshal.c:2635-2650 | no encoding is a prefix of another |
| Auth.AuthSize | src/Marshal.c:2652-2661 | it takes nine bytes and its two buffers |
| Auth.MarshalAuth | src/Marshal.c:2652-2661 | writes exactly its fields, in order |
| Auth.UnmarshalAuth | src/Marshal.c:2635-2650 | does exactly what ParseAuth says, on every input |
| ListGrammar.AuthAgrees | src/Marshal.c:2635-2650 | for every input: which bytes of an authorization are accepted, where it ends, and with which code others are refused |
| ListGrammar.AuthInBytes | src/Marshal.c:2652-2661 | an authorization is written as exactly these bytes |
| Command.PatchCommutes | src/tpm_codec.c:1247-1252 | overwriting memory behind the cursor commutes with everything written after it |
| Command.PatchField | src/tpm_codec.c:1290-1305 | patching a placeholder later gives the memory that writing the final value at once would have given |
| Command.PatchLayout | src/tpm_codec.c:1247-1252 | writing the total size last, into the place remembered for it, gives what the finished fields give in order, for any capacity from the header up |
| Command.MarshalHandles | src/tpm_codec.c:1257-1260 | the loop writes all handles and counts four bytes each |
| Command.MarshalSessions | src/tpm_codec.c:1279-1282 | the loop writes all sessions and returns the exact length of the authorization area |
| Command.MarshalAuthArea | src/tpm_codec.c:1267-1293 | writes a placeholder and the sessions, as far as they fit, and then the true size of the area at the place where the area was to start, without a budget |
| Command.AreaPatched | src/tpm_codec.c:1267-1293 | the result is the area with its true size in front, although the size was written last; and, if the placeholder did not fit, a stray write of that size |
| Command.StrayIsOutside | src/tpm_codec.c:1290-1293 | that stray write starts behind the tag and total size, inside the capacity, and ends at most four bytes past it |
| Command.BuildCommand | src/tpm_codec.c:1214-1308 | the result is 0 exactly for the arguments that the checks refuse, and the buffer is then unchanged; a command that fits is in the buffer as exactly the bytes its arguments describe, by number; in general, for any capacity, the buffer is what writing the finished command front to back would give, but for the stray write of a capacity that ends before the size of the authorization area; and the result is the size the command claims, whatever fitted |
| Command.ClaimIsTrue | src/tpm_codec.c:1298-1305 | the claimed size is the real one exactly when the parameters are shorter than 65536 bytes |
| Command.CommandInBytes | src/tpm_codec.c:1214-1308 | a command is exactly these bytes: tag, size, code, handles, sessions behind their length, parameters; the size counts the parameters modulo 65536 |
| Command.FittingCommand | src/tpm_codec.c:1214-1308 | if the command fits, the buffer starts with exactly its bytes and is unchanged after them |
| Command.CommandRoundTrip | src/tpm_codec.c:1214-1308 | a reference parser recovers tag, code, handles, sessions and parameters exactly when a non-null session array came with at least one session |
| Command.EmptySessionArray | src/tpm_codec.c:1218-1240 | an instance of the failing case: an accepted command that is built under the sessions tag without a session and does not parse back |
| Command.AuthsRoundTrip | src/tpm_codec.c:1279-1282 | the authorization area parses back into the sessions, in order |
| Transport.ReadConserves | src/tpm_socket_comm.c:251-284 | delivered, then buffered, then still to arrive is the original stream; a success delivers exactly the length asked for, and a failure only moves bytes into the buffer |
| Transport.ReadSucceedsIff | src/tpm_socket_comm.c:263-281 | a read succeeds exactly when its bytes are buffered or the next arrival completes them |
| Transport.ReadExactly | src/tpm_socket_comm.c:251-284 | exactly what a read takes from the network, delivers and leaves buffered, in every case |
| Transport.SplitMessageNeedsRetry | src/tpm_socket_comm.c:263-281 | a message that the second of two fragments completes, however it is cut, is refused once and delivered by the next read, whatever follows |
| Transport.StageRead | src/tpm_socket_comm.c:263-281 | the next read of a run succeeds exactly if what the first arrivals hold reaches to its end with at most one arrival more, and delivers the next bytes of the stream |
| Transport.RunsAreFifo | src/tpm_socket_comm.c:251-284 | over any run of reads, successful or not, no byte is lost, duplicated or reordered |
| Transport.RetriesDeliver | src/tpm_socket_comm.c:251-284 | however a message is fragmented, repeating the read delivers exactly its bytes within as many tries as there are arrivals |
| Transport.SendSucceedsIff | src/tpm_socket_comm.c:129-151 | success is reported exactly when one `send` took everything or the length is no positive int |
| Transport.SendExactly | src/tpm_socket_comm.c:129-142 | exactly how the loop ends, for any answers of the peer: how many sends, how many bytes taken, the last count |
| Transport.SuccessMeansSent | src/tpm_socket_comm.c:129-151 | reported success means that all bytes were sent exactly for lengths below 2^31 |
| Transport.PartialSendReportsFailure | src/tpm_socket_comm.c:143-147 | a message taken in two parts is sent in full and reported as failed |
| Transport.Socket.AddToBuffer | src/tpm_socket_comm.c:51-92 | the buffer is extended by the bytes, and the length stays that of the buffer |
| Transport.Socket.RemoveFromBuffer | src/tpm_socket_comm.c:94-115 | the first bytes are dropped, the rest kept, and the length stays that of the buffer |
| Transport.Socket.ReadSocketBytes | src/tpm_socket_comm.c:155-186 | one `recv` moves one arrival into the buffer, or fails and keeps the buffer |
| Transport.Socket.Read | src/tpm_socket_comm.c:251-284 | does exactly what ReadOnce says to the buffer, the network and the target, for any fragmentation |
| Transport.Socket.SendRemaining | src/tpm_socket_comm.c:129-142 | the loop ends for any partial sends, and the wire gets a prefix of the bytes in order |
| Transport.Socket.SendSocketBytes | src/tpm_socket_comm.c:117-153 | the wire gets exactly the bytes taken, and the result is 0 exactly when SendSucceeds |
| Transport.Socket.Send | src/tpm_socket_comm.c:286-299 | refuses a null or empty message without sending; otherwise as the loop |
| Emulator.RequestSendsFrame | src/tpm_comm_emulator.c:293-312 | whatever becomes of a request, the wire got a prefix of its frame; one that succeeded was sent in full exactly when its length is a positive int |
| Emulator.SendBytesExactly | src/tpm_comm_emulator.c:80-83 | a send succeeds exactly if its bytes are taken in one piece, or are too many for an int and then not sent; what it leaves in either case |
| Emulator.RequestExactly | src/tpm_comm_emulator.c:293-312 | a request succeeds exactly if the peer takes the word 8, the locality 0, the length and the command each in one piece; exactly what is on the wire after a success or after a failure at any part |
| Emulator.FrameInNumbers | src/tpm_comm_emulator.c:293-312 | the frame of a request, byte by byte |
| Emulator.ReplyConsumesFrame | src/tpm_comm_emulator.c:313-347 | a successful reply consumes exactly length, payload and a zero acknowledgement; the payload is not empty and fits the capacity |
| Emulator.ReplyByStages | src/tpm_comm_emulator.c:313-347 | for every state of the connection: how many bytes a call consumes, successful or not; and it succeeds exactly if the length is positive and within the capacity, the three parts arrive in time, and the acknowledgement is zero |
| Emulator.ReplySucceedsIff | src/tpm_comm_emulator.c:313-347 | a pending reply frame is returned exactly if its payload is not empty, fits the capacity, and arrives in time, a condition on how much the first arrivals hold; what follows the frame stays pending |
| Emulator.ReplyExactly | src/tpm_comm_emulator.c:313-347 | exactly which bytes and arrivals a reply leaves, whether or not the call succeeds |
| Emulator.FailedReplyLeaves | src/tpm_comm_emulator.c:313-347 | where exactly a failed call leaves the input: before the reply, after it, or in front of its payload or acknowledgement, which the next call takes for a length |
| Emulator.LongestReply | src/tpm_comm_emulator.c:317-331 | from an empty buffer, some fragmentation lets a reply be read exactly if it is not empty, fits the capacity and has at most 2044 bytes |
| Emulator.SubmitInStep | src/tpm_comm_emulator.c:279-351 | one successful call puts exactly one request frame on the wire and consumes exactly one reply frame |
| Emulator.SubmitSucceedsIff | src/tpm_comm_emulator.c:279-351 | a submission succeeds exactly if the request is taken and a reply within the capacity with a zero acknowledgement arrives in time, by what the peer accepts and how its bytes arrive; it returns the bytes behind the length |
| Emulator.RunsInLockstep | src/tpm_comm_emulator.c:279-351 | over any run, for any fragmentation: k successful calls put exactly k request frames on the wire in order, consume exactly k reply frames, and call i returned the payload of frame i |
| Emulator.LongReplyFails | src/tpm_comm_emulator.c:317-331 | from an empty buffer no fragmentation lets a reply of more than 2044 bytes be read |
| Emulator.WholeReplySucceeds | src/tpm_comm_emulator.c:313-347 | a reply within the capacity whose frame is complete with the next arrival is returned, whatever was buffered before and whatever follows |
| Emulator.OversizedReplyIsNotDrained | src/tpm_comm_emulator.c:322-326 | a reply longer than the capacity fails and leaves its payload to be taken for the next length |
| Emulator.SetupExchanges | src/tpm_comm_emulator.c:97-216 | a successful handshake and power-on exchange exactly their words, in order |
| Emulator.HandshakeSucceedsIff | src/tpm_comm_emulator.c:166-208 | the handshake succeeds exactly if the peer takes 15 and 1 and answers 1, anything and 0 in time |
| Emulator.PowerOnSucceedsIff | src/tpm_comm_emulator.c:96-164 | power-on succeeds exactly if the platform takes 1, answers 0, takes 11 and answers 0 in time |
| Emulator.HandshakeExactly | src/tpm_comm_emulator.c:166-208 | exactly what a handshake leaves on the wire and in the buffer, by the step at which it ends |
| Emulator.PowerOnExactly | src/tpm_comm_emulator.c:96-164 | the same for power-on |
| Emulator.SendSyncBytes | src/tpm_comm_emulator.c:80-83 | does exactly what SendBytes says, which SendBytesExactly states by what the peer accepts; a null pointer fails without sending |
| Emulator.SendSyncCmd | src/tpm_comm_emulator.c:85-89 | sends the word in network order |
| Emulator.ReadSyncBytes | src/tpm_comm_emulator.c:56-59 | does exactly what ReadBytes says |
| Emulator.ReadSyncCmd | src/tpm_comm_emulator.c:61-72 | reads a word in network order |
| Emulator.ReadExpected | src/tpm_comm_emulator.c:74-78 | succeeds exactly if the next word has the expected value |
| Emulator.PowerOnSimulator | src/tpm_comm_emulator.c:96-164 | does exactly what PowerOn says on the platform connection, and fails without one |
| Emulator.ExchangeHandshake | src/tpm_comm_emulator.c:166-208 | does exactly what Handshake says |
| Emulator.Comm.ExecuteSetup | src/tpm_comm_emulator.c:166-216 | succeeds exactly if handshake and power-on do, and then the connection is in lockstep |
| Emulator.Comm.SubmitCommand | src/tpm_comm_emulator.c:279-351 | does exactly what Submit says to connection, response and length, and succeeds exactly if the request is taken and the reply arrives; says what a failed call leaves in length and buffer too; keeps the lockstep history of the object over every run of calls |
| Emulator.Comm.SendCommandFrame | src/tpm_comm_emulator.c:293-312 | does exactly what SendRequest says |
| Emulator.Comm.ReceiveReply | src/tpm_comm_emulator.c:313-347 | does exactly what ReadReply says |
| Emulator.Comm.CloseSimulator | src/tpm_comm_emulator.c:91-94 | sends the session end, the word 20, and leaves lockstep |
| Emulator.CreateComm | src/tpm_comm_emulator.c:218-261 | returns a connection exactly if both ports are reached, the peer greets and the platform powers on, and then it is in lockstep with no calls made |
| ResponseCodes.CleanIsIdempotent | src/tpm_codec.c:189-199 | cleaning twice is cleaning once, for all 32-bit codes |
| ResponseCodes.CleanInNumbers | src/tpm_codec.c:189-199 | what is left of every 32-bit code, digit by digit |
| ResponseCodes.CleanKeepsExactly | src/tpm_codec.c:189-199 | the codes left alone are exactly communication errors, bare format-one codes and unlocated format-zero codes |
| ResponseCodes.CleanKeepsTable | inc/azure_utpm_c/TpmTypes.h:44-178 | every response code of the TPM_RC table is left alone |
| ResponseCodes.CleanRemovesLocation | inc/azure_utpm_c/TpmTypes.h:179-197 | any parameter, session or handle number added to a bare format-one code is removed |
| ResponseCodes.CleanHidesFailure | src/tpm_codec.c:197-198 | a nonzero code is cleaned to success exactly if it is no communication error and bits 11, 8 and 7..0 are clear |
| Response.SuccessIsUnderstood | src/tpm_codec.c:1107-1154 | every success response yields its handle, for exactly the eight commands that return one, its parameter size under the sessions tag, and the remaining bytes: RespSize less 10, less 4 for a handle, less 4 for a parameter size |
| Response.OnlySuccessIsUnderstood | src/tpm_codec.c:1107-1154 | a response reported as a success of the TPM is the encoding of exactly what was reported, its length field included |
| Response.FailureIsCleaned | src/tpm_codec.c:1150-1154 | a failure response is reported by its cleaned code, with no handle |
| Response.InterpretInNumbers | src/tpm_codec.c:1107-1154 | for every response and every command: result, raw code, handle, parameter size and remaining bytes, in numbers and offsets, malformed responses included |
| Response.CleanedIsClean | src/tpm_codec.c:189-199 | cleaning a code as a number is cleaning its bits |
| Response.UnmarshalHeader | src/tpm_codec.c:1112-1114 | reads tag, size and code, and refuses other tags |
| Response.ReadResponse | src/tpm_codec.c:1107-1156 | leaves result, raw code, handle, parameter size and cursor as Interpret says |
| Response.ReadResponseBody | src/tpm_codec.c:1123-1148 | the same from the end of the header of a success |
| Response.BuildInto | src/tpm_codec.c:1095-1096 | a refused command leaves the buffer and size 0; otherwise the size is the claimed one, also if it exceeds the buffer, and the buffer holds what fitted |
| Response.BuiltWhole | src/tpm_codec.c:1095-1096 | a command that fits is the start of the buffer, of just the recorded size |
| Response.SendCommand | src/tpm_codec.c:1161-1194 | does exactly what Submit says |
| Response.DispatchCmd | src/tpm_codec.c:1067-1159 | builds, submits and interprets: a failed submission is TPM_RC_COMMAND_CODE with the last raw code kept, a reply is reported as Interpret says |
| ReadPublic.ReplyRoundTrip | src/tpm_codec.c:1060-1062 | public area and names read back from their encodings |
| ReadPublic.RequestInNumbers | src/tpm_codec.c:1056-1059 | the request is these ten bytes and the handle |
| ReadPublic.AnswerIsUnderstood | src/tpm_codec.c:1040-1064 | an answer that encodes a well-formed public area and two names yields exactly these |
| ReadPublic.ReadPublicExactly | src/tpm_codec.c:1040-1064 | for every answer: success exactly if it carries, where the body starts, the encoding of a well-formed reply, which is then returned; otherwise the cleaned code, the refusal of the header, or TPM_RC_INSUFFICIENT |
| ReadPublic.PathIsFaithful | src/tpm_codec.c:1040-1064 | the whole path, for any fragmentation and whatever follows: with a framed answer pending, the call succeeds exactly if the request is accepted and the answer arrives in time; then the wire has received exactly the framed command, which parses as the request, the caller gets the public area and names the peer encoded, and what follows stays pending |
| ReadPublic.UnmarshalReply | src/tpm_codec.c:1060-1062 | reads the three values in order |
| ReadPublic.ReadPublic | src/tpm_codec.c:1040-1064 | returns for every fate of its submission and every answer exactly what ReadPublicExactly says, by the bytes of the answer |
| Signing.ChunksCover | src/tpm_codec.c:334-353 | the pieces concatenate to exactly the token, all but the last have exactly the input buffer's size, and the last is not empty |
| Signing.ChunksCount | src/tpm_codec.c:334-349 | there are just as many pieces as the token needs |
| Signing.SignatureCost | src/tpm_codec.c:316-369 | a signature takes one command, or as many as the token has pieces and one more |
| Signing.TraceAt | src/tpm_codec.c:334-353 | command j carries bytes j*max to (j+1)*max, and the last what remains |
| Signing.PropertyIsAnswered | src/tpm_codec.c:668-699 | a value is returned exactly for a successful answer that holds this one property with this value and nothing else |
| Signing.GetTpmProperty | src/tpm_codec.c:668-699 | any value but the bad-property marker is returned exactly if the command succeeds and the answer is this one property with that value; one command is sent |
| Signing.TssSequenceUpdate | src/tpm_codec.c:574-591 | too much data is refused before anything is sent; otherwise one command is sent, an open sequence is fed exactly the data on success, and nothing changes on failure or for an unknown handle |
| Signing.TssSequenceComplete | src/tpm_codec.c:553-571 | the same; on success the sequence is closed and the digest is that of everything fed |
| Signing.TssHmac | src/tpm_codec.c:420-448 | the same for one command |
| Signing.FeedSequence | src/tpm_codec.c:334-349 | the loop ends; it feeds exactly the full pieces, or stops at the first refusal with the sequence holding just the pieces before it, also for pieces of no size if one is refused |
| Signing.SignInSequence | src/tpm_codec.c:320-374 | commands, result and digest by the outcome of each command; after a failure the sequence is open exactly if it was started and then holds what the successful updates fed it, a prefix of the token; after a success it is closed |
| Signing.SignData | src/tpm_codec.c:302-389 | signs exactly if no single command carries too much and every command succeeds; the signature is then the HMAC of the whole token whichever path ran; nothing is written otherwise; the commands issued are the leading ones of the expected trace; a sequence stays open exactly if the token needs one, it was started, and the call failed |
| Signing.ShortInNumbers | src/tpm_codec.c:375-386 | a token that fits one command is signed exactly if it has at most 1024 bytes and the command succeeds; a longer one is not sent |
| Signing.LongInNumbers | src/tpm_codec.c:316-374 | any other is signed exactly if the input buffer has at most 1024 bytes and the start, every update and the completion succeed; each command issued is given by its bytes, and none follows the first that fails |
| PersistentKey.SuccessIsPersistent | src/tpm_codec.c:201-244 | a nonzero result is the requested handle, its public area was returned, the loaded objects are those from before, and it is persistent exactly if it is in the persistent range |
| PersistentKey.KeyExactly | src/tpm_codec.c:201-244 | exactly what each call returns and leaves in both tables, by the answers and the tables |
| PersistentKey.KeyIsReturnedIff | src/tpm_codec.c:201-244 | the key is returned exactly if the read finds it, or is answered TPM_RC_HANDLE and the other three commands succeed; otherwise 0 |
| PersistentKey.NothingIsLost | src/tpm_codec.c:201-244 | in every outcome no object is replaced or lost, and at most one of each kind is added |
| PersistentKey.FailureLeavesBehind | src/tpm_codec.c:217-242 | exactly which objects each kind of failure leaves |
| PersistentKey.RetryFindsKey | src/tpm_codec.c:207-211 | after a call that failed because of the flush, the key is persistent and loaded, and a second call finds it and succeeds with the loaded copy left |
| PersistentKey.TransientIsReturned | src/tpm_codec.c:207-211 | the handle of a loaded object is returned as if persistent, and nothing is made persistent |
| PersistentKey.RunsKeepObjects | src/tpm_codec.c:201-244 | over any run of calls, with any answers of the TPM, every earlier object is kept unchanged, and at most one transient object is left for each call that failed |
| PersistentKey.KeysLast | src/tpm_codec.c:201-244 | a key returned once is returned, with the same public area, by any later call that can read it, which changes nothing |
| PersistentKey.TssCreatePersistentKey | src/tpm_codec.c:201-244 | result, object table and public area are those of the transaction function, for all answers of the TPM; the key is returned exactly if found, or missing and created, stored and flushed; and the number of commands issued |

## Left out

- OS sockets, `src/tpm_comm_win32.c`, `src/gbfiledescript.c`, the device branches of
  `src/tpm_comm_linux.c` and `src/TpmDevice.c`: system calls, or repetitions of the emulator's framing.
- Structures outside the slice (attestation, sensitive areas, signatures, NV, contexts, tickets): more
  members of the same kind. `TPM2B_SENSITIVE` and `_PRIVATE` at length 0 are among them.
- Allocation failure: every allocation succeeds, also in the buffer operations that do not check.
- Null pointers for cursors, budgets of unmarshallers, contexts and devices: these references are not
  null. Null arguments that the code checks in `TSS_BuildCommand`, the socket, the emulator and
  `MemoryCopy2B` are modelled.
- Wrap-around of the INT32 budget after more than 2^31 bytes of charges: the budget is an unbounded
  integer.
- Values written into targets before a failure: an unmarshaller returns its target, so what a failed
  call leaves in the caller's structure is not stated. `TSS_UNMARSHAL_OPT` moves the cursor alike for a
  null and a given output because the output is no part of the cursor's contract.
- BuildCommand: requires the memory of the stray write to exist, a claimed size below 2^32, and sessions
  within their C arrays.
- DispatchCmd: requires the command to fit its buffer, since the transport would otherwise be given a
  length beyond the buffer's end and read there; BuildInto, before it, does not.
- MemoryConcat2B: requires the memory it writes to exist.
- MemoryPad2B: requires the memory it writes to exist, with a size_t of 64 bits.
- SignData: with a reported input buffer of no size and a nonempty token it requires that some later
  command fails, since the loop ends only at a refused update. Sessions, authorization and the handles'
  types are not modelled.
- MarshalPublic2B: requires the union members that the selectors name, since the other members of a C
  union have no value in the model; and two bytes of memory before the body, which the source skips
  without a check.
- TssCreatePersistentKey: leaves out the encoding of its four commands; TPM2_ReadPublic is the one
  modelled down to the bytes.
- C union aliasing, padding and bit-field layout: attributes are raw words.
- Cryptography and randomness, logging, names of status codes, tests and samples.
