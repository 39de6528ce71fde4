# TeleGofer in Dafny

A model of the logic of TeleGofer, a Go client for MTProto 2.0, and proofs about it. `dafny verify
dfyconfig.toml` checks everything.

| files | what they model |
|---|---|
| `Bytes`, `Wire` | bytes, 32/64-bit words, flag bits; the TL encoder and decoder |
| `Factor` | Pollard's rho with Floyd's cycle finding and restarts |
| `Ige`, `Envelope`, `Transport` | AES-IGE over separate and shared buffers, the message envelope, the four transports |
| `Ids` | message identifiers and sequence numbers |
| `Schema`, `Lexer`, `Parser`, `Printer`, `SchemaText` | TL schemas: text, tokens, syntax tree, a canonical text, texts with comments and generic groups, and what is refused |
| `Generator`, `Codec`, `RoundTrip`, `Serialization`, `Generated` | the code generator as a compiler to put/get instructions, their meaning, the TL serialization by type names, two generated structs |
| `Rpc`, `Dispatch`, `DispatchBytes`, `Acks` | the RPC engine: calls, message trees, messages as servers write them, the acknowledgement queue |
| `Connection` | the close/wait protocol of the two background loops and any number of `Close` calls |
| `Chunker`, `Upload`, `UploadProgress`, `UploadLoss`, `Download`, `DownloadOutcomes` | the transfer engine |

Code that runs step by step is a method or a class proved against a function, and the laws are
proved about that function. Goroutines are step systems: a state, the steps enabled in it, and
theorems over every sequence of steps; a lock region is one step. Where the code does less than its
comments say, the model follows the code, a lemma gives an input or a run that shows it, and another
says exactly when the promised law holds:

- **In-place IGE.** The comments allow `dst` and `src` to be the same slice. The carried block is a
  view into `src`, so the result is the IGE one if and only if every block but the last is a fixed
  point (`Ige.InPlaceEncryptLaw`, `Envelope.InPlaceSealLaw`, and what the peer then does in
  `Envelope.PeerReads`); `Ige.InPlaceEncryptIsNotIge` and
  `InPlaceDecryptIsNotIge` are inputs that are not. `PackEncrypted` makes that call.
- **Upload.** A nil error can hide a part that was not sent: in a given run exactly when a worker took
  the `ctx.Done` branch (`UploadLoss.CompleteIffNoneStopped`), and in some run if and only if there is
  content and the reader ends without an error (`UploadLoss.LossIff`, with the run for every such content
  in `CancelledUploadLosesAPart`). `break` leaves only the `select`, so once all workers
  have failed the reader can block for ever (`UploadProgress.StuckIff`); that can happen if and only if
  the content is longer than 2 * workers + 1 chunks (`UploadProgress.DeadlockIff`).
- **Download.** The fallback after a CDN redirect re-encodes a struct whose flag bits are only ever
  ORed, so it repeats the request. A server that answers by the request alone redirects again and
  `Download` returns nil with a cut file (`Download.CutAtFirstRedirect`, `WholeIffNoRedirect`), or with
  nothing at all (`RedirectsLoseTheFile`).
- **Calls.** Registering an id whose call is still pending loses that call for good; no call is lost if
  and only if no `Register` finds its id in the open engine's map (`Rpc.AllLookedAfterIff`).
- **Close.** `readLoop` calling `Close` on a receive error waits for itself: the count never reaches 0
  and no `Close` returns (`Connection.ReceiveErrorHangs`); they do in exactly the other runs
  (`Connection.CloseReturnsIff`).
- **Orders.** Nothing ties `msg_id` and `seq_no`: the orders of two sends conflict if and only if their
  two pairs of calls are in opposite orders and a content-related number is taken from the first to the
  second of their numbers (`Ids.OrdersConflictIff`, `OrdersCanDisagree`).
- **Generated code.** A value comes back if and only if no flag bit is stale
  (`RoundTrip.GeneratedRoundTrip`); `Generated.StaleBitComesBack` is one that does not.
- **Vectors of double, int128 and int256.** The emitted loops are empty: only the header is written
  (`Serialization.EmptyLoops`).
- **FactorPQ.** It returns on a 64-bit pq if and only if pq is even, or neither 1 nor a prime
  (`Factor.ReturnsIff`). Its comment says `p < q`; for a semiprime that holds if and only if the primes
  differ (`Factor.SemiprimeResult`), and 9 is an input on which it does not (`NineIsASquare`).

Assumptions: `int` has 64 bits; hashes, key derivation, the block cipher, CRC32, gzip and the Unicode
classes are functions passed in, with only the properties named in each statement.

## Model

| member | source | states |
|---|---|---|
| `Bytes.FromLEOfLE` | tl/encoder/primitives.go:16-32 | little-endian writing undone by reading, for every width |
| `Bytes.LEOfFromLE` | tl/decoder/primitives.go:8-34 | and the other way round |
| `Bytes.LEByte` | tl/encoder/primitives.go:16-32 | byte i of a word is its i-th digit to base 256, the lowest first |
| `Bytes.SignedRoundTrip` | tl/decoder/primitives.go:17-25 | signed words survive the unsigned detour exactly in their ranges |
| `Bytes.SetBitBits` | tl/generator/generator.go:146-151 | ORing in a bit sets that bit and leaves every other one |
| `Bytes.SetBitSame` | tl/generator/generator.go:146-151 | and changes the word exactly if the bit was clear |
| `Factor.GcdBezout` | mtproto/crypto/factor.go:31-34 | the gcd divides both arguments and is an integer combination of them |
| `Factor.EuclidsLemma` | mtproto/crypto/factor.go:7-9 | a prime dividing a product divides a factor |
| `Factor.Pigeonhole` | mtproto/crypto/factor.go:36-56 | more values than residues repeat |
| `Factor.WalkersMeet` | mtproto/crypto/factor.go:36-47 | for every map of the residues, x = f^k(2) and y = f^2k(2) meet for some k in 1..n |
| `Factor.PassStops` | mtproto/crypto/factor.go:36-56 | hence every pass on odd pq ends with d != 1 (or pq = 1) within pq iterations |
| `Factor.FirstStop` | mtproto/crypto/factor.go:36-49 | the iteration at which the pass ends is the first that stops it |
| `Factor.SearchMonotone` | mtproto/crypto/factor.go:49-55 | once a restart returns, allowing more restarts changes nothing |
| `Factor.SearchResult` | mtproto/crypto/factor.go:58-65 | a result on odd pq: p*q = pq and 1 < p <= q < pq |
| `Factor.PrimeNeverReturns` | mtproto/crypto/factor.go:36-56 | on an odd prime, or 1, every pass restarts, whatever c |
| `Factor.CompositeReturns` | mtproto/crypto/factor.go:36-65 | on an odd composite n = p*m below 2^64, p <= m, 2p - 2 passes always return |
| `Factor.ReturnsIff` | mtproto/crypto/factor.go:9-66 | FactorPQ returns on a 64-bit pq iff pq is even, or neither 1 nor a prime; pq passes then suffice |
| `Factor.SemiprimeResult` | mtproto/crypto/factor.go:7-65 | on an odd semiprime a*b, a <= b, it returns, within 2a - 2 passes, and returns (a, b); so p < q iff a != b |
| `Factor.NineIsASquare` | mtproto/crypto/factor.go:7-8 | on 9 it returns (3, 3), so p < q fails |
| `Factor.EvenResult` | mtproto/crypto/factor.go:10-12 | on even pq the product holds, and p <= q if and only if pq >= 4 |
| `Factor.Walk` | mtproto/crypto/factor.go:37-47 | one iteration keeps x = f^k(2), y = f^2k(2) and computes that gcd |
| `Factor.Rho` | mtproto/crypto/factor.go:36-65 | the loop with its restarts computes the search specified pass by pass |
| `Factor.FactorPQ` | mtproto/crypto/factor.go:9-66 | the whole function, even case included; with pq passes the answer None means exactly that the original never returns |
| `Ige.DecryptEncrypt` | mtproto/crypto/aes.go:41-125 | decrypting undoes encrypting for every IV, permutation and number of blocks |
| `Ige.EncryptDecrypt` | mtproto/crypto/aes.go:41-125 | encrypting undoes decrypting |
| `Ige.EncryptRecurrence` | mtproto/crypto/aes.go:44-46 | block by block C_i = E(M_i ^ C_{i-1}) ^ M_{i-1} from the IV's halves on; in place the last term is C_{i-1} |
| `Ige.DecryptRecurrence` | mtproto/crypto/aes.go:87-89 | block by block M_i = D(C_i ^ M_{i-1}) ^ C_{i-1}; in place the last term is M_{i-1} |
| `Ige.XorBit` | mtproto/crypto/aes.go:64-75 | the exclusive or, bit by bit |
| `Ige.InPlaceEncryptLaw` | mtproto/crypto/aes.go:56-79 | same-buffer encryption agrees with IGE on k blocks iff the first k-1 plaintext blocks equal their ciphertext |
| `Ige.InPlaceDecryptLaw` | mtproto/crypto/aes.go:99-122 | the matching law for same-buffer decryption |
| `Ige.InPlaceEncryptIsNotIge` | mtproto/crypto/aes.go:42-46 | an input on which same-buffer encryption is not IGE |
| `Ige.InPlaceDecryptIsNotIge` | mtproto/crypto/aes.go:85-89 | an input on which same-buffer decryption is not IGE |
| `Ige.Encrypt` | mtproto/crypto/aes.go:47-82 | the block loop over real arrays refines the recurrence, separate or shared; error cases; dst beyond n unchanged |
| `Ige.Decrypt` | mtproto/crypto/aes.go:90-125 | likewise for decryption |
| `Envelope.PadLen` | mtproto/protocol/message.go:58-67 | 12..27 pad bytes, inner data a multiple of 16 |
| `Envelope.UnpackPackedUnencrypted` | mtproto/protocol/message.go:27-55 | a plain message followed by anything is recovered iff its payload is shorter than 2^32 |
| `Envelope.PlainIff` | mtproto/protocol/message.go:37-55 | a packet is read as (id, payload) iff it begins with their packed form, and refused as not plain iff its key id is that nonzero number |
| `Envelope.PlainLayout` | mtproto/protocol/message.go:22-33 | where a plain packet has its fields |
| `Envelope.FieldsOfHeader` | mtproto/protocol/message.go:70-75 | where the inner data have their fields |
| `Envelope.SealedParts` | mtproto/protocol/message.go:97-101 | where a sealed packet has key id, message key and body |
| `Envelope.PackUnencrypted` | mtproto/protocol/message.go:27-34 | the buffer filled by offset is the plain packet |
| `Envelope.OpenSealedInner` | mtproto/protocol/message.go:138-161 | the checks after decryption accept an honest inner block and return its fields |
| `Envelope.UnpackSealed` | mtproto/protocol/message.go:107-162 | unpacking under the same role recovers salt, id, sequence number and payload for all fields and pads |
| `Envelope.UnpackIff` | mtproto/protocol/message.go:107-162 | a packet opens to these fields iff it is their sealed form for the expected session with some pad; no minimum pad is checked |
| `Envelope.RefusedSealed` | mtproto/protocol/message.go:145-156 | a packet for another session, and one that announces more than it holds, get their errors |
| `Envelope.RefusedFirst` | mtproto/protocol/message.go:108-123 | so do a short packet, another key's, and one not in whole blocks |
| `Envelope.InPlaceSealLaw` | mtproto/protocol/message.go:88-95 | the packet built in place is the IGE packet, and decrypts to its inner data, iff all blocks but the last are fixed |
| `Envelope.PeerReads` | mtproto/protocol/message.go:138-142 | so, unless the hash collides on that pair, the peer reads the packet exactly then, and otherwise rejects its message key |
| `Envelope.PaddedSealedRejected` | mtproto/protocol/message.go:120-123 | trailing pad bytes make the length check fail, and only they do |
| `Envelope.PackEncrypted` | mtproto/protocol/message.go:57-104 | the method builds the packet of the in-place encryption |
| `Envelope.UnpackEncrypted` | mtproto/protocol/message.go:107-162 | the method with all its error cases |
| `Ids.ClockIdIsTime` | mtproto/protocol/message_id.go:37-42 | until 2038 the identifier's high word is the whole seconds and its low word the largest multiple of 4 not above the nanoseconds |
| `Ids.ClockIdMonotone` | mtproto/protocol/message_id.go:37-42 | later readings have no smaller identifiers, and larger ones if 4 ns apart or in another second |
| `Ids.ForwardIds` | mtproto/protocol/message_id.go:33-51 | without backward jumps the k-th identifier is never behind its clock reading and at most 4k ahead |
| `Ids.SpacedIds` | mtproto/protocol/message_id.go:33-51 | with readings at least 4 ns apart it is exactly the reading's |
| `Ids.IdClosedForm` | mtproto/protocol/message_id.go:33-51 | id_k is the largest of 4k and t_j + 4(k-j), for every sequence of readings |
| `Ids.IdsIncrease` | mtproto/protocol/message_id.go:44-50 | identifiers strictly increase and stay 0 mod 4 |
| `Ids.StepIncreases` | mtproto/protocol/message_id.go:45-49 | one step increases the identifier exactly if it does not overflow |
| `Ids.MessageIDGenerator.Next` | mtproto/protocol/message_id.go:33-51 | the stateful generator computes the next identifier of the run |
| `Ids.CounterIsCount` | mtproto/protocol/sequence.go:25-36 | the counter is the number of earlier content messages, in 32 bits |
| `Ids.SeqNoLaw` | mtproto/protocol/sequence.go:25-36 | seq_no is twice that count, plus 1 exactly for content messages |
| `Ids.SequenceGenerator.Next` | mtproto/protocol/sequence.go:25-36 | the stateful generator, with wrap-around |
| `Ids.SeqOrder` | mtproto/protocol/sequence.go:25-36 | over any interleaving numbers follow the order of their calls, strictly if either send is content-related |
| `Ids.SentSeqExact` | mtproto/protocol/sequence.go:29-35 | the 32-bit number sent is the exact one iff that is below 2^31 |
| `Ids.NumbersDifferIff` | mtproto/protocol/sequence.go:25-36 | the numbers of two sends differ iff one of them, or one between them, is content-related |
| `Ids.OrdersConflictIff` | mtproto/connection/connection.go:88-89 | for any two sends, acks and pings included: id and number orders conflict iff the two pairs of calls are in opposite orders and a content-related number is taken from one of their numbers to the other |
| `Ids.AdjacentCallsAgree` | mtproto/connection/connection.go:175-176 | they never conflict when each send's two calls are adjacent |
| `Ids.OrdersCanDisagree` | mtproto/connection/connection.go:88-89 | a run in which they conflict |
| `Wire.ByteStringRoundTrip` | tl/encoder/primitives.go:61-83 | a byte string followed by anything is read back iff it is shorter than 2^24 |
| `Wire.CanonicalByteString` | tl/decoder/primitives.go:131-172 | an accepted byte string re-encodes to itself iff its first byte is at most 253, or 0xfe with length at least 254 |
| `Wire.VectorHeaderRoundTrip` | tl/decoder/primitives.go:174-194 | a vector header is read back iff 4 bytes per element follow |
| `Wire.VectorHeaderIff` | tl/decoder/primitives.go:174-194 | a header is read iff it is the vector constructor and a count that fits what follows |
| `Wire.VectorHeaderErrors` | tl/decoder/primitives.go:179-192 | which error each other header gets |
| `Wire.ByteStringErrors` | tl/decoder/primitives.go:131-172 | nonzero padding and a string that breaks off get their errors |
| `Wire.BoolIff` | tl/decoder/primitives.go:45-58 | a boolean is read iff it is one of the two constructors |
| `Wire.RawIff` | tl/decoder/primitives.go:82-93 | raw bytes are read iff there are as many |
| `Wire.UintRoundTrip` | tl/encoder/primitives.go:16-20 | 32-bit words |
| `Wire.IntRoundTrip` | tl/encoder/primitives.go:11-13 | signed 32-bit words |
| `Wire.LongRoundTrip` | tl/encoder/primitives.go:23-25 | signed 64-bit words |
| `Wire.BoolRoundTrip` | tl/encoder/primitives.go:40-46 | booleans |
| `Wire.Encoder.PutBytes` | tl/encoder/primitives.go:61-83 | appends length, data and padding, in both forms |
| `Wire.Encoder.PutVectorHeader` | tl/encoder/primitives.go:112-115 | appends the vector header |
| `Wire.Decoder.Bytes` | tl/decoder/primitives.go:107-172 | reads a byte string or fails with the cursor in place; the padding loop |
| `Wire.Decoder.VectorHeader` | tl/decoder/primitives.go:174-194 | reads a vector header, with its four failures and where each leaves the cursor |
| `Wire.Decoder.Bool` | tl/decoder/primitives.go:45-58 | reads a boolean or says why not |
| `Wire.Decoder.Skip` | tl/decoder/decoder.go:52-59 | moves the cursor by n or not at all |
| `Transport.FrameRoundTrip` | mtproto/transport/full.go:30-92 | for every codec, reading a frame returns its payload (Padded: with the pad) and exactly the rest |
| `Transport.OnlyInBounds` | mtproto/transport/abridged.go:23-86 | and it does so iff the payload is within the codec's bounds |
| `Transport.FrameLayout` | mtproto/transport/full.go:36-44 | where the frames of the four codecs have length, number, payload, pad and checksum |
| `Transport.WrongChecksum` | mtproto/transport/full.go:72-77 | a full frame with a wrong checksum is refused as such, and only it is used up |
| `Transport.WrongLength` | mtproto/transport/intermediate.go:36-59 | impossible lengths and frames that break off get their errors, and what they leave |
| `Transport.StreamRoundTrip` | mtproto/transport/intermediate.go:25-59 | a list of frames is read back in order, leaving exactly the rest of the stream |
| `Transport.PaddedPlaintext` | mtproto/transport/padded.go:28-85 | plain messages survive the padding |
| `Transport.PaddedEncrypted` | mtproto/transport/padded.go:28-85 | encrypted ones are rejected by the length check iff there is padding |
| `Transport.WriteAbridged` | mtproto/transport/abridged.go:23-49 | writes that frame, or nothing for a length not divisible by 4 |
| `Transport.ReadPacketAbridged` | mtproto/transport/abridged.go:52-86 | reads it, with its failures and what each leaves of the stream |
| `Transport.WriteIntermediate` | mtproto/transport/intermediate.go:25-33 | writes length and payload |
| `Transport.ReadPacketLength` | mtproto/transport/intermediate.go:36-59 | reads them, or fails leaving a stated rest; Padded reads the same way |
| `Transport.WritePadded` | mtproto/transport/padded.go:28-59 | writes payload and pad under one length |
| `Transport.FullCodec.WritePacket` | mtproto/transport/full.go:30-48 | writes length, sequence number, payload and checksum; advances the counter |
| `Transport.FullCodec.ReadPacket` | mtproto/transport/full.go:51-92 | reads and checks them, or fails leaving a stated rest; counts received packets without comparing numbers |
| `Generator.GenerateStruct` | tl/generator/generator.go:102-209 | the four passes emit the code specified per parameter |
| `Codec.SwitchesAgree` | tl/generator/generator.go:211-302 | the decode switch picks the operation that the encode switch picked |
| `Codec.DecodeObj` | tl/generator/generator.go:181-206 | decoding an object uses up at least 4 bytes, so nested decoding ends |
| `Codec.ObjRoundTrip` | tl/generator/generator.go:136-206 | Decode on Encode(v) followed by anything gives the normal form of v and leaves exactly the rest |
| `Codec.FieldsRoundTrip` | tl/generator/generator.go:158-204 | the same for the rest of a struct's fields under its flags word |
| `Codec.ItemsRoundTrip` | tl/generator/generator.go:230-292 | the same for vectors of objects, whose header always passes the sanity check |
| `Codec.RefRoundTrip` | tl/generator/generator.go:294-299 | the same for a field of interface or struct type |
| `RoundTrip.EncodesIff` | tl/generator/generator.go:211-243 | Encode succeeds iff it meets no nil interface value |
| `RoundTrip.NormalIsCompleted` | tl/generator/generator.go:140-204 | the normal form is the value with completed flags words iff no bit is stale |
| `RoundTrip.GeneratedRoundTrip` | tl/generator/generator.go:102-302 | for every well-formed schema and value: Encode succeeds iff no nil is met, and then Decode returns the value with completed flags and exactly the rest iff no bit is stale |
| `Serialization.EncodeIsTl` | tl/generator/generator.go:136-243 | for every well-formed schema and value typed by type names, the generated Encode writes the TL serialization: words, strings, Bool constructors, raw 128 and 256 bits, vectors, boxed values, flags |
| `Serialization.WordBits` | tl/generator/generator.go:140-156 | a bit of the written flags word is the bit it had or some present field's |
| `Serialization.TypedIff` | tl/generator/generator.go:317-351 | values typed by names are exactly those the generated code takes |
| `Serialization.TlRoundTrip` | tl/generator/generator.go:102-302 | Decode on the TL serialization gives the value back iff no bit is stale |
| `Serialization.EmptyLoops` | tl/generator/generator.go:245-256 | of a vector of double, int128 or int256 only the header is written |
| `Serialization.WrongIds` | tl/generator/generator.go:182-184 | Decode refuses another constructor id, and an interface an id none of its constructors has |
| `Generated.PackedAckIsGenerated` | mtproto/rpc/engine.go:265-275 | PackMsgsAck's bytes are the generated encoding of msgs_ack |
| `Generated.AckRoundTrip` | tl/generated/core.go:810-838 | which decodes back to the ids, whatever follows |
| `Generated.PackMsgsAck` | mtproto/rpc/engine.go:265-275 | the buffer filled in a loop is those bytes |
| `Generated.RequestIsGenerated` | tl/generated/core.go:1937-1952 | the generated Encode of upload.getFile writes the request bytes and completes the flags |
| `Generated.UploadGetFile.Encode` | tl/generated/core.go:1937-1952 | Encode ORs into the struct's own flags and appends the request; a failing location leaves id, flags and what it wrote itself |
| `Generated.FlagBitsAccumulate` | tl/generated/core.go:1939-1945 | over any sequence of Encodes a sent bit is the OR of the initial bit and all values held so far |
| `Generated.ReencodeSameIff` | tl/generated/core.go:1939-1945 | a further Encode changes the flags word iff it holds a value whose bit was never set |
| `Generated.FallbackRequestUnchanged` | transfer/downloader.go:86-87 | so after any Encodes the last of which held CdnSupported, clearing the field leaves the request the same byte for byte |
| `Generated.StaleBitComesBack` | tl/generator/generator.go:145-146 | a value with a stale bit that encodes and does not decode to itself |
| `Lexer.LexOne` | tl/parser/lexer.go:52-156 | every token but EOF uses up text; EOF comes only at the end |
| `Lexer.Tokens` | tl/parser/lexer.go:52-156 | every text has finitely many tokens, EOF last and only there |
| `Lexer.Scanner.NextToken` | tl/parser/lexer.go:52-132 | total on every text: the position stays within length + 1, advances on every token but EOF, and the token is the specified one |
| `Lexer.Scanner.MarkerToken` | tl/parser/lexer.go:62-77 | section markers, and an unknown one falling through to one more increment |
| `Lexer.Scanner.PlainToken` | tl/parser/lexer.go:79-132 | symbols, ids and identifiers |
| `Lexer.Scanner.SkipSpace` | tl/parser/lexer.go:134-156 | white space, lines and comments |
| `SchemaText.CommentLine` | tl/parser/lexer.go:146-152 | a comment line counts as a line and gives no token |
| `SchemaText.LastComment` | tl/parser/lexer.go:146-152 | nor does one at the end of the text |
| `SchemaText.UnknownMarker` | tl/parser/lexer.go:62-77 | an unknown marker is an identifier "-" and swallows the next character |
| `SchemaText.StrayCharacter` | tl/parser/lexer.go:130-131 | any other character is an identifier by itself |
| `Parser.TLParser.NextToken` | tl/parser/parser.go:54-56 | one token forward; EOF repeats |
| `Parser.TLParser.SkipBraces` | tl/parser/parser.go:60-67 | generic parameters in braces |
| `Parser.TLParser.ParseParamType` | tl/parser/parser.go:159-223 | a parameter's type, condition and signature part |
| `Parser.TLParser.ParseParams` | tl/parser/parser.go:94-127 | the parameter loop |
| `Parser.TLParser.ParseDefinition` | tl/parser/parser.go:58-92 | name and id of a definition, with every error |
| `Parser.TLParser.ParseBody` | tl/parser/parser.go:94-157 | parameters, result, and the checksum id when none is given |
| `Parser.Parse` | tl/parser/parser.go:18-52 | total on every text, and equal to the parser as a function of the tokens |
| `Printer.LexDef` | tl/parser/lexer.go:52-132 | the printed definition has exactly its tokens |
| `Printer.DefRoundTrip` | tl/parser/parser.go:58-157 | parsing those tokens gives the definition and leaves the rest |
| `Printer.ParsePrint` | tl/parser/parser.go:18-244 | parsing the canonical text of any well-formed schema gives it back; a definition printed without id gets the checksum of its declaration |
| `Printer.ParsePrintExplicit` | tl/parser/parser.go:18-244 | with explicit ids, exactly the schema |
| `SchemaText.CommentsAndGroups` | tl/parser/parser.go:18-157 | comment lines, a generic group before a name and groups among the parameters leave the parsed schema unchanged |
| `SchemaText.BracesSkipped` | tl/parser/parser.go:60-67 | a group in braces is stepped over whatever is in it |
| `SchemaText.MissingEquals` | tl/parser/parser.go:128-130 | a definition without its equals sign gets that error |
| `SchemaText.IdTooLarge` | tl/parser/parser.go:79-84 | so does an id of more than 32 bits |
| `SchemaText.NoName` | tl/parser/parser.go:69-71 | so does a definition without a name |
| `SchemaText.NoResult` | tl/parser/parser.go:225-228 | so does one without a result |
| `SchemaText.OddConditions` | tl/parser/parser.go:184-193 | conditions without field name or number stand for bit 0 |
| `SchemaText.StrayTokens` | tl/parser/parser.go:107-117 | other tokens among the parameters are passed over |
| `SchemaText.OpenVector` | tl/parser/parser.go:205-212 | a vector's closing angle may be missing |
| `SchemaText.UnclosedGroup` | tl/parser/parser.go:60-67 | a group that is never closed takes all that is left |
| `SchemaText.OptionalSemicolon` | tl/parser/parser.go:139-142 | the semicolon after a definition may be missing |
| `SchemaText.StraySemicolon` | tl/parser/parser.go:34-35 | and one more between definitions does not matter |
| `Printer.HexIff` | tl/parser/parser.go:79-85 | an id is read iff it has at most 32 bits |
| `Rpc.StepInv` | mtproto/rpc/engine.go:56-75 | every step, on any id, keeps the invariant of calls and channels |
| `Rpc.EveryCallInOnePlace` | mtproto/rpc/engine.go:146-202 | over every interleaving each call is pending, claimed, delivered once, cancelled or lost to a second Register of its id, exactly one; no send on a channel can block |
| `Rpc.AllLookedAfterIff` | mtproto/rpc/engine.go:56-68 | over every run each call is pending, claimed, answered or cancelled iff no Register found its id in the open engine's map |
| `Rpc.RegisterSafeIff` | mtproto/rpc/engine.go:56-68 | one Register keeps all calls looked after iff the engine is closed or the id is not pending |
| `Rpc.LostForever` | mtproto/rpc/engine.go:56-68 | a lost call's channel never receives anything |
| `Rpc.ReusedIdLosesACall` | mtproto/rpc/engine.go:56-68 | for every id, registering it twice in a row loses the first call |
| `Rpc.ClosedForever` | mtproto/rpc/engine.go:253-262 | after Close the pending map is empty for ever |
| `Rpc.CloseTellsAll` | mtproto/rpc/engine.go:253-262 | Close tells every pending call and no other; a call registered later is told at once |
| `Rpc.DeliveredIsClaimed` | mtproto/rpc/engine.go:158-200 | a claimed result is what its channel then holds |
| `Dispatch.AcksOfEffect` | mtproto/rpc/engine.go:79-109 | on success exactly the preorder ids are queued, once more per gzip layer; on failure a prefix |
| `Dispatch.AcksOfItems` | mtproto/rpc/engine.go:111-144 | the same for the items of a container |
| `Dispatch.EarlierItemsStay` | mtproto/rpc/engine.go:111-144 | the effects of the items before a failing one stay |
| `Dispatch.TreeStable` | mtproto/rpc/engine.go:94-99 | a bound on gzip layers that suffices does not matter |
| `DispatchBytes.PlainAnswer` | mtproto/rpc/engine.go:199-200 | a written rpc_result of any other constructor comes out whole, constructor id included |
| `DispatchBytes.ErrorAnswer` | mtproto/rpc/engine.go:170-186 | a written rpc_error comes out with its code and text |
| `DispatchBytes.PackedAnswer` | mtproto/rpc/engine.go:188-197 | a packed answer comes out unpacked, or as a decoding error that fails the message |
| `DispatchBytes.BrokenError` | mtproto/rpc/engine.go:173-182 | an rpc_error that breaks off is a decoding error |
| `DispatchBytes.PackedMessage` | mtproto/rpc/engine.go:94-99 | a packed message is the message inside it |
| `DispatchBytes.OtherMessage` | mtproto/rpc/engine.go:87-108 | every other constructor is left alone |
| `DispatchBytes.HeadIff` | mtproto/rpc/engine.go:118-137 | the next item is exactly an entry as it is written |
| `DispatchBytes.ContainerIs` | mtproto/rpc/engine.go:111-144 | a written container parses to its entries in order; one that announces more keeps those it holds |
| `DispatchBytes.ContainerEffect` | mtproto/rpc/engine.go:138-142 | its effect is its items' in order until one fails, and one that is not whole fails |
| `DispatchBytes.AnswerReachesCaller` | mtproto/rpc/engine.go:146-202 | dispatching the answer to a pending request puts exactly it into the caller's channel and changes nothing else but the map and the ack queue |
| `DispatchBytes.AnswerToNobody` | mtproto/rpc/engine.go:165-168 | an answer nobody waits for is only acknowledged |
| `DispatchBytes.BadAnswerFails` | mtproto/rpc/engine.go:188-194 | one that cannot be unpacked fails the call and the message |
| `Dispatch.Engine.Register` | mtproto/rpc/engine.go:56-68 | a new call, failed at once on a closed engine |
| `Dispatch.Engine.CancelCall` | mtproto/rpc/engine.go:71-75 | removes one entry and nothing else |
| `Dispatch.Engine.Dispatch` | mtproto/rpc/engine.go:79-109 | the method refines the message tree's effect |
| `Dispatch.Engine.HandleContainer` | mtproto/rpc/engine.go:111-144 | count and items of a container, or a failure that changes nothing |
| `Dispatch.Engine.DispatchItems` | mtproto/rpc/engine.go:118-142 | the loop refines the effect of the items, ending on payload length |
| `Dispatch.Engine.HandleRPCResult` | mtproto/rpc/engine.go:146-202 | takes the call from the map, then sends its result |
| `Dispatch.Engine.ReadResult` | mtproto/rpc/engine.go:170-200 | the result is an error, unpacked data or all that is left, or a decoding error |
| `Dispatch.Engine.PopAcks` | mtproto/rpc/engine.go:221-233 | returns the queue and empties it |
| `Dispatch.Engine.CloseEngine` | mtproto/rpc/engine.go:253-262 | fails every pending call, in any order |
| `Acks.AcksConserved` | mtproto/rpc/engine.go:221-233 | all PopAcks results followed by the queue are every id ever queued, in order |
| `Acks.LastPopDrains` | mtproto/connection/connection.go:171-174 | after a last PopAcks every id of the dispatched trees has been handed out |
| `Connection.StepInv` | mtproto/connection/connection.go:112-165 | every step keeps the agreement of wait count, once and places in Close |
| `Connection.ReaderInCloseForever` | mtproto/connection/connection.go:124-132 | once readLoop is in Close, in every continuation the count stays at least 1 and no Close has returned or returns |
| `Connection.ReceiveErrorHangs` | mtproto/connection/connection.go:124-132 | a receive error before any close leads there |
| `Connection.BoundedAfterClose` | mtproto/connection/connection.go:112-165 | otherwise, after the close, a run's steps are bounded but for ticks and new calls |
| `Connection.RestsOnlyWhenDone` | mtproto/connection/connection.go:205-214 | and it rests iff both loops are gone, the count is 0 and every Close has returned |
| `Connection.CloseReturnsIff` | mtproto/connection/connection.go:205-214 | a run that has closed can still end with both loops gone, count 0 and every Close returned iff readLoop is not inside Close |
| `Chunker.ChunkSize` | transfer/chunker.go:15-19 | a multiple of 1 KiB that divides 512 KiB |
| `Chunker.CountIff` | transfer/chunker.go:15-27 | for every 64-bit size the count is the smallest that holds it iff size plus chunk size does not overflow; otherwise it is negative |
| `Chunker.PartsUnique` | transfer/chunker.go:25-26 | those bounds fix the number |
| `Upload.RunInv` | transfer/uploader.go:54-148 | the invariant of reader, queue, workers and error channel over every run |
| `Upload.NilErrorMeans` | transfer/uploader.go:137-148 | nil error: the queued parts are the content, none failed, and each is sent, dropped or left |
| `Upload.UncancelledUploadComplete` | transfer/uploader.go:54-148 | with no worker stopped by the context, nil error means complete: all parts sent, in order the whole content, uploadedBytes its length |
| `Upload.EachPartOnce` | transfer/uploader.go:108-127 | in a complete upload every index was sent exactly once |
| `Upload.PartsAsCalculated` | transfer/uploader.go:48-148 | the number of parts is the calculated one iff that calculation does not overflow |
| `UploadLoss.CompleteIffNoneStopped` | transfer/uploader.go:64-69 | a run that returned nil sent everything iff no worker took the ctx.Done branch |
| `UploadLoss.LossIff` | transfer/uploader.go:64-148 | some run returns nil with a part missing iff there is content and the reader ends without an error |
| `UploadLoss.CancelledUploadLosesAPart` | transfer/uploader.go:64-69 | the run, for every content, chunk size and number of workers |
| `UploadProgress.StuckIff` | transfer/uploader.go:108-135 | a reachable state is stuck iff every worker has failed, the queue is full, the reader is offering a chunk, the error channel is drained and nothing is cancelled |
| `UploadProgress.FewFailuresNeverStuck` | transfer/uploader.go:89-135 | with fewer failed calls than workers no reachable state is stuck |
| `UploadProgress.DeadlockReachable` | transfer/uploader.go:89-135 | for every number of workers and content longer than 2 * workers + 1 chunks the stuck state is reachable |
| `UploadProgress.DeadlockIff` | transfer/uploader.go:108-135 | and only then: an upload can get stuck iff its content is longer than 2 * workers + 1 chunks |
| `Download.DownloadSound` | transfer/downloader.go:33-116 | against a server answering with the file: the written bytes are a prefix, nil without a double redirect means the whole file, and the loop ends |
| `Download.RequestsInWindows` | transfer/downloader.go:36-52 | every request is one chunk inside one 512 KiB window |
| `Download.ProgressLaw` | transfer/downloader.go:73-80 | the n-th progress report is n whole chunks, or the file's length |
| `Download.SameRequest` | transfer/downloader.go:86-87 | the fallback call sends the first request again |
| `Download.CutAtFirstRedirect` | transfer/downloader.go:86-99 | a server answering by the request alone: Download ends with nil and the file cut at the first redirected chunk |
| `Download.WholeIffNoRedirect` | transfer/downloader.go:86-99 | it writes the whole file iff no chunk offset below its length is redirected |
| `Download.RedirectsLoseTheFile` | transfer/downloader.go:85-98 | a server that redirects everything: nil and not one byte, whatever the file |
| `DownloadOutcomes.DownloadComplete` | transfer/downloader.go:33-116 | if every offset is answered with the file, directly or after one redirect, Download returns nil with the whole file and one progress report per chunk with bytes |
| `DownloadOutcomes.ObligingRound` | transfer/downloader.go:63-110 | one such round, through the fallback or not |
| `DownloadOutcomes.CancelledThere` | transfer/downloader.go:39-43 | cancelled after r chunks: those chunks, r reports and the context's error |
| `DownloadOutcomes.WriteFailsThere` | transfer/downloader.go:69-71 | a write failing after r chunks: those, what it got down, and its error |
| `DownloadOutcomes.CallFailsThere` | transfer/downloader.go:53-61 | a call or answer failing after r chunks: those and the error of that call, first or fallback |
| `DownloadOutcomes.RequestBytes` | transfer/downloader.go:45-53 | the bytes of both requests |
| `Download.DoRound` | transfer/downloader.go:38-115 | one round on one request struct, all outcomes |
| `Download.Download` | transfer/downloader.go:33-116 | the loop computes the specified outcome, bytes, requests and progress |

## Left out

- Factor.FactorPQ: takes a number of passes and returns None when they are used up, because the original may never return; every statement is for all numbers of passes, and `ReturnsIff` says when finitely many suffice.
- Dispatch.Engine.Dispatch: takes a bound on the nesting of gzip layers, which nothing in the original bounds; past it the result is TooDeep.
- Download.Download: takes a number of rounds, because against an arbitrary server the original need not end; `DownloadSound` says how many suffice.
- Ige.Encrypt: dst and src are one array or two; slices that overlap only in part are not modelled, and the block cipher is a parameter.
- Ige.Decrypt: likewise.
- Ids.IdClosedForm: for identifiers that stay within 63 bits; `StepIncreases` says what happens at the edge.
- Printer.ParsePrint: for Unicode classes that treat the ASCII characters of the grammar as Unicode does.
- Connection: a receive on a closed transport fails and a send ends; `Invoke` and `flushAcksAndPing` appear through the generators, the engine and the ack queue, not as one composed system.
- Parser: the wording of error messages; a sign in a flag's bit number, which no identifier token contains.
- Generator: Go text, gofmt and identifier spelling; schemas whose output would not compile, several flags words in one struct, conditional struct-typed fields that are not interfaces.
- Generated.UploadGetFile.Encode: the location is given by the bytes its Encode writes and whether it succeeds.
- Generated: structs other than msgs_ack and upload.getFile, which are instances of the general theorem.
- Wire: doubles are 64-bit words; buffer capacity, borrowed views, growth and Reset are not modelled.
- Transport: reuse of the caller's buffer in ReadPacket, the handshake bytes, failing writes.
- Upload: the MD5 sum, the file id and the choice between the two part calls.
- SHA-1, SHA-256, AES, RSA, key exchange (mtproto/auth), sessions, client configuration, dialing, deadlines and timers.
- mtproto/rpc/errors.go and client/errors.go: the classification of server errors is not modelled; a server error is its code and text.
