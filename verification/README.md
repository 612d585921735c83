# PixelScrape: a Dafny model and its proofs

PixelScrape is a BitTorrent client. This project models what stands between its sockets and its disk, and
proves what the client promises about it, for all inputs and for all runs:

* the bencode codec and everything that rests on it: torrent metadata and the info hash, the KRPC messages of the
  DHT (BEP 5), the extension and metadata messages (BEP 9, BEP 10);
* the JSON codec, with the escapes, surrogate pairs and UTF-8 of RFC 8259;
* piece storage, from the layout of the files to the disk thread, under every interleaving of peers, verifier and disk;
* the Kademlia side of the DHT: XOR distances, buckets, persistence, closest nodes, the iterative lookup and the
  rate limiter;
* SHA-1, RC4, Base64, metadata assembly and the bounded log queue.

Specifications are written apart from the code they judge: a grammar for bencode words, the definition of SHA-1 in
FIPS 180-4, the flat byte sequence of a torrent, 160-bit numbers for distances, section 4 of RFC 4648 for Base64.
Classes follow the objects of the program: their methods update fields and arrays in place and are proved against
functions of the old state, and the main lemmas are about these functions and about runs, that is, about every
sequence of events. Bytes are integers below 256; `size_t` and `int64_t` wrap and are bounded where the program
can notice it.

| file | part of the program |
|---|---|
| `Bytes`, `Sequences`, `Bits`, `Endian`, `Decimal`, `Conversions` | bytes, sequences, bitwise operators, byte order, numerals and `std::stoll`/`std::stoul` |
| `Bencode`, `BencodeParser`, `BencodeRun`, `BencodeReader`, `BencodeWraps`, `BencodeIntegers` | the grammar, the canonical encoding, the encoder, the straight parse, the run of the parser where positions wrap, the parser object |
| `Sha1`, `Sha1Bits`, `Rc4`, `Rc4Backwards`, `Base64` | the streaming primitives |
| `Metadata`, `TorrentFields`, `TorrentPaths`, `InfoHash`, `FileMap`, `Disk`, `PieceManager`, `PieceDelivery`, `BlockLifecycle`, `DiskQueue`, `PieceSelection`, `FileRange` | a torrent, its layout and its pieces |
| `NodeId`, `RoutingTable`, `RoutingEviction`, `Persistence` | distances, buckets, the stored table |
| `Fields`, `Krpc`, `KrpcCodec`, `KrpcDispatch` | KRPC messages, and what becomes of a datagram |
| `Lookup`, `LookupLearns`, `LookupAsks`, `LookupStall`, `DhtClient`, `RateLimiter` | the client of the DHT |
| `ExtensionProtocol`, `ExtensionText`, `MetadataExchange`, `MetadataRequests`, `MetadataRepair` | metadata from peers |
| `LogQueue`, `LogFlush`, `LogDrain` | the asynchronous log sink |
| `Utf8`, `Utf8Text`, `Json`, `JsonLayout`, `JsonParser`, `JsonErrors`, `JsonRoundTrip`, `JsonStrings`, `JsonGrammar`, `JsonAccepts`, `JsonStrict` | the JSON codec |

## Where the program falls short of what it promises

* `flush` of the log sink waits for an empty queue, while a message that the worker holds is not yet written. At most one
  message is missing then (`LogQueue.FlushLeavesAtMostOne`, `LogQueue.FlushCanBeEarly`). A caller can be sure that none is
  if and only if `shutdown` has returned or every message was dropped (`LogFlush.FlushIsSureIff`).
* A message that is written to the log sink after its shutdown is accepted and not counted as dropped, and never comes out
  (`LogDrain.LateMessageIsAccepted`, `LogDrain.EndedBringsNothing`).
* The bencode parser reads more than the grammar: a numeral is re-encoded to itself if and only if it is minimal
  (`BencodeIntegers.IntegerFixedIffMinimal`; a plus sign shows the difference), and a text is its own re-encoding if and only
  if the grammar derives it (`Bencode.GrammarIsEncode`). So what is hashed for the info hash is the stretch of the torrent
  text that holds the info dictionary if and only if that stretch is strict (`InfoHash.InfoHashOfOriginalBytes`), and
  `InfoHash.UnsortedTorrentIsAccepted` is a torrent for which it is not.
* A string length is added to the position in 64 bits. A string takes at least two bytes if and only if its end does not wrap to
  a place before its third byte (`BencodeRun.StringProgress`). Without a wrap the parse ends
  (`BencodeReader.EndsWithoutWrap`); with one it may not: on the ten bytes `d1:ai1e-6:` the loop over the entries comes back to the
  same position forever (`BencodeWraps.NeverEnds`). Whether a parse ends is decided within a bound on its nested calls and
  loop turns (`BencodeReader.EndsIffWithinBound`). A wrap can also make the encoding of what was read longer than the text
  (`BencodeWraps.RereadGrows`).
* The strings of accepted JSON texts need not be UTF-8. One is if and only if the bytes between its quotes are and no escape in
  it is a low surrogate on its own (`JsonStrings.StringIsUtf8Iff`; `JsonStrings.RawByteIsAccepted` and
  `JsonRoundTrip.LoneSurrogateIsAccepted` show both ways to fail).
* The accepted JSON texts are not those of RFC 8259. An accepted text is one of the RFC if and only if it has no vertical tabs
  and form feeds, which count as white space here, and is UTF-8 (`JsonStrict.AcceptedIsRfcTextIff`; the bytes 11, "1", 12 and the
  bytes 22 FF 22, in hexadecimal, show both ways to fail). A text of the RFC is accepted if and only if no escape of a high
  surrogate in it stands without one of a low surrogate behind it (`JsonStrict.RfcTextIsAcceptedIff`).
* A stored piece of metadata is never replaced, although a comment in the code says that the state is kept to allow a retry.
  An exchange can still complete if and only if the pieces that are missing can be filled in to metadata of the announced size
  with the right hash (`MetadataRepair.RepairableIff`); one first piece that is too long is enough to prevent it
  (`MetadataRepair.WrongPieceIsFinal`).
* A datagram is tried as a query first, and the entry that tells its kind is not looked at. So every dictionary is taken for a
  query unless it has a query name that is none of the four; then it is taken for a response, and nothing is ever taken for an
  error (`KrpcDispatch.HandledIff`). Every response and every error that the program itself sends is taken for a query without
  a kind (`KrpcDispatch.ResponseIsTakenForQuery`, `KrpcDispatch.ErrorIsTakenForQuery`).
* The ports of compact nodes are converted to network order and then written with the higher byte first, which undoes the
  conversion on little-endian hosts. The records are those of BEP 5, and those of BEP 5 are read right, if and only if the host
  is big-endian or the two bytes of the port are equal (`KrpcDispatch.RecordIsStandardIff`, `KrpcDispatch.StandardIsReadIff`).
* A node of the routing table is GOOD without ever having answered: whoever names it in a message makes it so, and replaces what
  was known of it (`KrpcDispatch.HearsayIsGood`).
* A lookup that starts when no node is known ends in its first step, and only then (`Lookup.EndsAtOnceIff`); the branch that
  ends it locks a mutex that `start_lookup` holds. One query that fails or expires keeps its lookup from ever ending, since the
  number in flight is lowered by answers only (`LookupStall.ForgottenQueryStrands`), and so do more than eight endpoints asked,
  since a lookup ends only when all of them are among the eight closest (`LookupStall.ManyAskedNeverEnds`).

## Model

| member | source | states |
|---|---|---|
| Decimal.PrintIntIsMinimal | src/bencode/parser.cpp:127-164 | A printed integer is a numeral without superfluous zeros and without a negative zero, and it denotes the number. |
| Decimal.MinimalIntIsPrinted | src/bencode/parser.cpp:44-67 | Every minimal numeral is the printed form of what it denotes, so each integer has exactly one. |
| Decimal.StollReadsPrinted | src/bencode/parser.cpp:66 | `std::stoll` reads back every printed 64-bit integer. |
| Decimal.StoulReadsPrinted | src/bencode/parser.cpp:69-86 | `std::stoul` reads back every printed length below 2^64. |
| Decimal.StollShortest | src/bencode/parser.cpp:44-67 | Whatever text is accepted as an integer, printing the integer is no longer than that text. |
| Decimal.StoulShortest | src/bencode/parser.cpp:69-86 | The same for lengths below 2^63. |
| Conversions.ConversionsOf | src/bencode/parser.cpp:44-86 | Of white space, a sign, all the digits there are and any rest, both conversions give the number, modulo 2^64 for lengths, or find it out of range. |
| Conversions.NoNumeralIsRefused | src/bencode/parser.cpp:44-86 | Every text without such parts is refused. |
| Bencode.EncodedIsDerived | src/bencode/parser.cpp:127-164 | The grammar of BEP 3, with strictly increasing keys, derives the encoding of every value. |
| Bencode.DerivedIsEncoded | src/bencode/parser.cpp:127-164 | Every word the grammar derives for a value is its encoding. |
| Bencode.GrammarIsEncode | src/bencode/parser.cpp:127-164 | Both together: a word is derived for a value if and only if it is the encoding, so the grammar is unambiguous. |
| BencodeReader.Parser.ReadValue | src/bencode/parser.cpp:23-42 | For every text on which the parse ends: moving `pos_` over a value gives the result, the new position or the error of the run of the parser from there, wrapped positions included; the lemmas on runs are about that. |
| BencodeReader.Parser.ReadInteger | src/bencode/parser.cpp:44-67 | The same for an integer: leading zeros, a negative zero, an unterminated or bad numeral are errors. |
| BencodeReader.Parser.ReadString | src/bencode/parser.cpp:69-86 | The same for a string of any bytes; the sum of position and length is a 64-bit one, and where it wraps the rest of the text is read and the position moves back. |
| BencodeReader.Parser.ReadList | src/bencode/parser.cpp:88-105 | The same for a list, whose items are appended one by one. |
| BencodeReader.Parser.ReadDict | src/bencode/parser.cpp:107-125 | The same for a dictionary, where a later entry replaces an earlier one of the same key. |
| BencodeReader.ParsePrefix | src/bencode/parser.cpp:16-21 | Returns the value together with the number of bytes consumed, or the error, of the run on the whole text. |
| BencodeParser.SortKeys | src/bencode/parser.cpp:146-152 | Sorting the keys copied out of a hash map gives the one strictly increasing list of them. |
| BencodeParser.WriteValue | src/bencode/parser.cpp:127-164 | The recursive encoder appends exactly the canonical word of the value. |
| BencodeParser.WriteList | src/bencode/parser.cpp:137-143 | The items are written in order between the marks. |
| BencodeParser.WriteDict | src/bencode/parser.cpp:144-160 | Each key is written once, in increasing order, with its own value. |
| BencodeParser.ReadsTree | src/bencode/parser.cpp:23-125 | The parser reads back the text of every tree, entries in any order and keys repeated, whatever stands behind it. |
| BencodeParser.RoundTrip | src/bencode/parser.cpp:16-164 | Parsing the encoding of any value, followed by any bytes, gives the value back and consumes exactly the encoding. |
| BencodeParser.UniqueDecoding | src/bencode/parser.cpp:127-164 | Encodings are injective and none is a proper prefix of another. |
| BencodeReader.StrictWordsAreFixed | src/bencode/parser.cpp:44-164 | On every word of the strict grammar the parse ends with its value, and encoding that gives the word back. |
| BencodeReader.ReencodingIsCanonical | src/bencode/parser.cpp:16-164 | On every accepted input, with wraps or without, the encoding of the value is in the strict grammar and, below 2^63 bytes, parses to the same value; it is no longer than the bytes consumed if no string wraps the position. |
| BencodeParser.StraightReencoding | src/bencode/parser.cpp:16-164 | As long as no string wraps, the encoding of what was parsed is never longer than the bytes consumed. |
| BencodeRun.StringProgress | src/bencode/parser.cpp:69-86 | A string takes at least two bytes if and only if its end does not wrap to a place before its third byte; where the sum wraps, the size check lets it through, the rest of the text is the string and the position moves back to the colon or before it. |
| BencodeRun.ValueRunsStraight | src/bencode/parser.cpp:23-125 | Where no string on the path wraps, the parse ends, within two nested calls or loop turns for each byte left and one more, and gives the straight parse. |
| BencodeRun.EndsWithinBound | src/bencode/parser.cpp:23-125 | A parse that ends at all does so within 3(n + 1) nested calls and loop turns for n bytes, since a longer one has come back to a place. |
| BencodeReader.EndsIffWithinBound | src/bencode/parser.cpp:16-21 | So whether the parse of a text ends is decided within that bound, for every text. |
| BencodeReader.EndsWithoutWrap | src/bencode/parser.cpp:16-21 | It ends, and as the straight parse does, on every text on whose path no string wraps. |
| BencodeReader.RunRoundTrip | src/bencode/parser.cpp:16-164 | The run on the encoding of any value, followed by any bytes, ends with the value and the length of the encoding. |
| BencodeWraps.NegativeKey | src/bencode/parser.cpp:69-86 | A key "-d" is accepted as a length: it is the rest of the text, and the position moves to d bytes before that. |
| BencodeWraps.ComesBack | src/bencode/parser.cpp:107-125 | On the ten bytes `d1:ai1e-6:`, one turn of the loop over the entries comes back to position 7. |
| BencodeWraps.NeverEnds | src/bencode/parser.cpp:107-125 | So the parse of these bytes never ends, with any number of nested calls and loop turns. |
| BencodeWraps.RereadGrows | src/bencode/parser.cpp:78-83 | On the seven bytes `d-2:abe` the parse ends and consumes them, and the encoding of what it read has eleven. |
| BencodeIntegers.IntegerFixedIffMinimal | src/bencode/parser.cpp:44-67 | An accepted integer is re-encoded to itself if and only if its numeral is minimal. |
| BencodeIntegers.IntegerResult | src/bencode/parser.cpp:44-67 | A zero in front of other bytes and a zero behind a minus are refused as such; of the rest exactly what `std::stoll` reads is accepted. |
| BencodeIntegers.PlusSignIsAccepted | src/bencode/parser.cpp:66 | A concrete accepted integer outside the grammar. |
| Sha1.PaddingIsStandard | src/crypto/sha1.cpp:45-78 | The padding is that of section 5.1.1 of FIPS 180-4: a one bit, the fewest zero bits, then the 64-bit length. |
| Sha1.FewestZeroBits | src/crypto/sha1.cpp:46-57 | No smaller number of zero bits fills the block. |
| Sha1.LengthField | src/crypto/sha1.cpp:59-63 | A length kept modulo 2^64 and multiplied by eight modulo 2^64 gives the length field of the standard. |
| Sha1.Extends | src/crypto/sha1.cpp:20-35 | Adding up to one block changes the registers only when it completes a block, by one compression. |
| Sha1.ChForm | src/crypto/sha1.cpp:100-102 | The OR form of Ch in the code equals the XOR form of section 4.1.1. |
| Sha1.MajForm | src/crypto/sha1.cpp:106-108 | The OR form of Maj equals the XOR form. |
| Sha1.Context.constructor | src/crypto/sha1.cpp:6-8 | A new context has absorbed the empty message. |
| Sha1.Context.Reset | src/crypto/sha1.cpp:10-18 | So has a context after a reset. |
| Sha1.Context.ProcessBlock | src/crypto/sha1.cpp:80-127 | The 80 rounds over mutable words compute the compression function of section 6.1.2. |
| Sha1.Context.ExpandBlock | src/crypto/sha1.cpp:81-93 | The array of words is the message schedule of the buffered block. |
| Sha1.Context.ChooseRound | src/crypto/sha1.cpp:97-112 | Each branch selects the function and the constant of its round. |
| Sha1.Context.Update | src/crypto/sha1.cpp:20-35 | The object represents the message so far; an update extends it by exactly the data, in pieces that fit the buffer. |
| Sha1.Context.PadToLengthField | src/crypto/sha1.cpp:45-57 | Whichever padding branch was taken, one compression with any length field finishes the padded message. |
| Sha1.Context.Finalize | src/crypto/sha1.cpp:45-78 | The digest is the hash of the whole message, and the context is as new. |
| Sha1.PadOneBlock | src/crypto/sha1.cpp:46-57 | The branch where the length field fits behind the last bytes. |
| Sha1.PadTwoBlocks | src/crypto/sha1.cpp:49-57 | The branch where it needs a block of its own. |
| Sha1.HashParts | src/crypto/sha1.cpp:129-145 | However a message is split into updates, the digest is the hash of the whole. |
| Sha1Bits.RotationsMoveBits | src/crypto/sha1.cpp:89-119 | The rotations by 1, 5 and 30 move bit i of every word to bit i + k modulo 32. |
| Sha1Bits.MixBits | src/crypto/sha1.cpp:100-112 | Bit by bit, the function of each round is the choice, the parity of three, their majority, and the parity again. |
| Sha1Bits.ConstantsAreRoots | src/crypto/sha1.cpp:100-112 | The constants of the rounds are the integer parts of 2^30 times the square roots of 2, 3, 5 and 10. |
| Sha1Bits.InitialValuesCount | src/crypto/sha1.cpp:10-18 | The initial values count the hexadecimal digits up and down, as section 5.3.1 of FIPS 180-4 has them. |
| Sha1Bits.ScheduleIsStandard | src/crypto/sha1.cpp:81-93 | The eighty words are those of the block and then follow the recurrence of section 6.1.2. |
| Sha1Bits.RoundIsUndone | src/crypto/sha1.cpp:114-119 | From the registers after a round and its word, those before it can be computed; nothing is lost. |
| Sha1Bits.CompressionIsUndone | src/crypto/sha1.cpp:80-127 | What a block adds to the registers are these, taken through eighty such rounds. |
| Sha1Bits.DigestIsRegisters | src/crypto/sha1.cpp:67-78 | The digest is the five registers in order, as big-endian numbers. |
| FileMap.CalculateFileMappings | src/storage/piece_manager.cpp:480-507 | The mappings of piece p, taken together, list the positions from pL to min((p+1)L, total) of the joined files, in order and once each. |
| FileMap.SizeOfPiece | src/storage/piece_manager.cpp:166-173 | The size computed for a piece, the last one included, is the total length of its mappings, and positive. |
| FileMap.CoveredOnce | src/storage/piece_manager.cpp:480-507 | Every byte of the torrent is mapped by one piece, the quotient of its position, and by no other. |
| FileMap.Between | src/storage/piece_manager.cpp:480-507 | A position lies below a piece boundary exactly if its quotient is a smaller piece. |
| Disk.FlatWrite | src/storage/piece_manager.cpp:346-384 | Writing one mapping to its file replaces exactly the bytes at its place in the joined files. |
| Disk.FlatRead | src/storage/piece_manager.cpp:294-344 | Reading one mapping gives the bytes at its place in the joined files. |
| Disk.MappingStart | src/storage/piece_manager.cpp:480-507 | Each mapping of a piece starts where the earlier ones end. |
| Metadata.ParseFiles | src/torrent/metadata.cpp:121-162 | Each entry becomes a file with its joined path that starts where the earlier ones end, modulo 2^64; a failure is that of the first bad entry. |
| Metadata.GetFileAtOffset | src/torrent/metadata.cpp:181-188 | The first file whose range holds the offset, or none if no file does. |
| Metadata.HoldsIsContains | src/torrent/metadata.cpp:181-188 | Below 2^64 bytes in all, the file that holds an offset is the one that contains this position of the joined files. |
| Metadata.ParseFromBencode | src/torrent/metadata.cpp:37-119 | Succeeds if and only if all required fields are there and well-formed, and otherwise names the first check that fails; the result carries the fields, the files with consecutive offsets, their total, the hashes that join to "pieces", and the SHA-1 of the re-encoded info dictionary. |
| Metadata.ReadFiles | src/torrent/metadata.cpp:96-117 | One file or the listed files, with consecutive offsets and their total modulo 2^64; fails exactly if neither can be read. |
| Metadata.ParsePieces | src/torrent/metadata.cpp:164-179 | Succeeds exactly on multiples of 20 bytes; the hashes joined are the input. |
| InfoHash.InfoHashOfOriginalBytes | src/torrent/metadata.cpp:73-75 | For every accepted torrent text: the re-encoded info dictionary is the stretch of the text from which it was read if and only if that stretch is strict, and then the info hash is its hash; without a wrap the stretch is a proper one. |
| InfoHash.LastSpanIsRead | src/bencode/parser.cpp:107-125 | The value of a key was read from the stretch behind its last occurrence. |
| InfoHash.UnsortedTorrentIsAccepted | src/torrent/metadata.cpp:37-119 | A torrent with unsorted info keys is accepted, and the word that is hashed is not the one in its text. |
| Metadata.AnnounceList | src/torrent/metadata.cpp:44-63 | The trackers are that of "announce", first, and all strings of the tiers, none twice. |
| Metadata.ReadAnnounceList | src/torrent/metadata.cpp:44-63 | The loops over tiers build exactly that list. |
| Metadata.PathBeginsWithName | src/torrent/metadata.cpp:147-154 | There is a path if and only if all components are strings; without an absolute component it begins with the name of the torrent. |
| Metadata.JoinPath | src/torrent/metadata.cpp:147-154 | The loop over the components joins them as file-system paths, an absolute one replacing what was before. |
| TorrentPaths.PathHasItsComponents | src/torrent/metadata.cpp:147-154 | The path of plain components has the name of the torrent and these components between its slashes, in order. |
| TorrentPaths.OtherPaths | src/torrent/metadata.cpp:147-154 | An absolute component starts over; behind a slash at the end no second one is put. |
| TorrentFields.IsTorrentIff | src/torrent/metadata.cpp:37-119 | The dictionaries that are accepted are exactly those with the entries of BEP 3, of the right types. |
| TorrentFields.EntryIff | src/torrent/metadata.cpp:121-162 | An entry of the list of files is read exactly if it has a length and a path of strings; the length is cut to 64 bits. |
| TorrentFields.OneReason | src/torrent/metadata.cpp:37-162 | A dictionary is refused if and only if there is a reason, and there is never more than one. |
| PieceManager.Manager.constructor | src/storage/piece_manager.cpp:18-77 | A new manager has no pieces, nothing requested, files of the right lengths and the mappings of the torrent. |
| PieceManager.Manager.RequestBlock | src/storage/piece_manager.cpp:159-189 | Starts the piece if needed and marks the block, or refuses it; `NoBlockIsHandedOutTwice` says what this means over a run. |
| PieceManager.Manager.ReceiveBlock | src/storage/piece_manager.cpp:191-214 | Stores the data of a block that has not arrived yet, at its place, and refuses any other. |
| PieceManager.Manager.VerifyPiece | src/storage/piece_manager.cpp:250-292 | Of a complete piece, takes the joined blocks if their hash is the expected one and queues them, else starts over. |
| PieceManager.Manager.TakeRequest | src/storage/piece_manager.cpp:441-478 | The disk thread takes the oldest request, whatever the length of its data, and nothing else changes. |
| PieceManager.Manager.WriteMapping | src/storage/piece_manager.cpp:346-384 | One mapping of the running request reaches its file. |
| PieceManager.Manager.WritePiece | src/storage/piece_manager.cpp:346-384 | In the joined files, the bytes of the piece are replaced by the data and all others stay. |
| PieceManager.Manager.ReadPiece | src/storage/piece_manager.cpp:294-344 | The bytes of the piece in the joined files, or nothing for a piece that is not had. |
| PieceManager.SpliceReadsBack | src/storage/piece_manager.cpp:294-384 | What was written to a piece is read from it, and every other piece reads as before. |
| PieceManager.ApplyKeeps | src/storage/piece_manager.cpp:159-478 | Every event keeps what holds of every run: queued writes carry verified data of had pieces, and what a running write has written is on disk. An event that takes no data of a wrong length keeps, too, that a had piece is on disk with its hash or on its way there. |
| PieceManager.RunKeeps | src/storage/piece_manager.cpp:159-478 | So does every run in which the data taken has the length of its piece. |
| PieceManager.HadPiecesReadBack | src/storage/piece_manager.cpp:159-478 | In every run in which the data taken has the length of its piece, a had piece without a pending write reads back with the expected hash. |
| PieceManager.WritesCarryVerifiedData | src/storage/piece_manager.cpp:250-292 | In every run each queued write carries data with the hash of its piece, and with right lengths so does a running one. |
| PieceManager.WrittenIsShown | src/storage/piece_manager.cpp:346-384 | Verified data of another length: when its write is done, the piece holds its first bytes if there are too many, and its bytes with what stands behind them in memory if there are too few. |
| PieceManager.HaveChanges | src/storage/piece_manager.cpp:250-292 | Only the verification of a complete piece with the right hash sets a have-bit, and nothing clears one. |
| PieceManager.HaveStays | src/storage/piece_manager.cpp:250-292 | A piece had at some point of a run is had at its end. |
| PieceManager.HadIffVerified | src/storage/piece_manager.cpp:250-292 | A piece is had at the end of a run if and only if some verification in it found blocks with the expected hash. |
| FileRange.GetFileRange | src/storage/piece_manager.cpp:509-529 | The first file whose stored range holds the 64-bit position of the byte, and the offset of the byte in it, or none. |
| FileRange.OnePlace | src/storage/piece_manager.cpp:480-529 | A position is in one file only. |
| FileRange.SearchesAgreeWithMapping | src/storage/piece_manager.cpp:480-529 | For consecutive files of less than 2^64 bytes, the byte of a piece that a mapping covers is held by the file of the mapping and by no other, at the offset the mapping gives; so both searches find what the mapping says. |
| BlockLifecycle.BlockStays | src/storage/piece_manager.cpp:159-292 | Only a failed verification of its piece takes a request or the data of a block back. |
| BlockLifecycle.BlocksStay | src/storage/piece_manager.cpp:159-292 | The same over any stretch of a run. |
| BlockLifecycle.NoBlockIsHandedOutTwice | src/storage/piece_manager.cpp:159-189 | If a block is handed out to two peers in a run, a verification of its piece failed in between. |
| BlockLifecycle.BlocksWereSent | src/storage/piece_manager.cpp:191-214 | Every block held is data that some peer sent for a place within its 16 KiB. |
| PieceDelivery.RequestStarts | src/storage/piece_manager.cpp:159-189 | The first request lays out as many blocks of 16 KiB as the piece has, the last one perhaps shorter, and says yes exactly for these. |
| PieceDelivery.ReceiveStores | src/storage/piece_manager.cpp:191-214 | A block sent at 16384 k is stored as block k if it is not there yet, and no other changes. |
| PieceDelivery.ReceiveTellsIff | src/storage/piece_manager.cpp:191-214 | A block is accepted if and only if its piece is started and has such a block, and it did not arrive yet; otherwise nothing changes. |
| PieceDelivery.VerifyTellsIff | src/storage/piece_manager.cpp:250-292 | A verification says yes exactly for complete pieces with the expected hash; a complete one without it starts over, and an incomplete one stays. |
| PieceDelivery.HonestBlocksComplete | src/storage/piece_manager.cpp:159-292 | In every run: when every block of a piece was sent after the first request, in any order and with repetitions and whatever else happens, the piece is complete, its blocks are the data, and a verification has it and queues the data for the disk. |
| DiskQueue.FirstInFirstOut | src/storage/piece_manager.cpp:250-478 | In every run, the pieces verified are those whose writes were begun and then those queued, in order: one write for each verification, and no other. |
| DiskQueue.DiskDrains | src/storage/piece_manager.cpp:346-478 | From any state of a run, the disk thread alone writes everything that is queued and is then idle, a turn for each mapping and one more for each request. |
| PieceSelection.CountAvailability | src/storage/piece_manager.cpp:87-157 | For each piece, how many peers have it. |
| PieceSelection.AvailabilityIsHolders | src/storage/piece_manager.cpp:95-104 | That number is the size of the set of peers whose bitfield has the right length and the piece. |
| PieceSelection.PriorityIsGreatest | src/storage/piece_manager.cpp:106-113 | The priority is the greatest among the files of the piece, and 0 without files. |
| PieceSelection.EligibleIff | src/storage/piece_manager.cpp:120-141 | What may be chosen: pieces not had, that a peer has, that the mask allows, and not all of whose blocks are requested. |
| PieceSelection.FullyRequestedIff | src/storage/piece_manager.cpp:130-141 | A piece is fully requested if and only if `request_block` would hand out no block of it. |
| PieceSelection.PreferredIsRarest | src/storage/piece_manager.cpp:143-155 | What is preferred has the fewest peers, among those the highest priority, and among those the lowest index. |
| PieceSelection.PiecePriority | src/storage/piece_manager.cpp:87-157 | The highest priority among the files of a piece. |
| PieceSelection.SelectRarestPiece | src/storage/piece_manager.cpp:87-157 | The chosen piece may be chosen and comes before every other such piece in rarity, priority and index; none is chosen only if there is none. |
| NodeId.DistanceLaws | src/dht/node.cpp:42-48 | The XOR distance is symmetric and zero only between equal identifiers. |
| NodeId.DistanceInjective | src/dht/node.cpp:42-48 | Different identifiers have different distances to any target. |
| NodeId.OrderIsNumeric | src/dht/node.cpp:50-56 | The byte-wise order of identifiers is the order of 160-bit numbers. |
| NodeId.LeadingZeros | src/dht/node.cpp:58-75 | The scan of the bits of a byte finds its highest one. |
| NodeId.BucketIndex | src/dht/node.cpp:58-75 | The index is the binary logarithm of the 160-bit number, 0 for the number zero. |
| NodeId.BucketBounds | src/dht/node.cpp:58-75 | A nonzero distance in bucket b is at least 2^b and below 2^(b+1), and b is below 160. |
| RoutingTable.Routing.constructor | src/dht/node.cpp:205 | A new table is empty and satisfies the invariant. |
| RoutingTable.Routing.BucketIndexFor | src/dht/node.cpp:396-399 | Every identifier has a bucket of the table. |
| RoutingTable.Routing.Add | src/dht/node.cpp:207-216 | Replaces, appends, evicts or refuses as `NewIsStoredIff` and `AddEvictsOnlyExpendable` say; other buckets stay. |
| RoutingTable.Routing.Remove | src/dht/node.cpp:218-223 | Takes the identifier out of its bucket; see `RemoveTakesOne`. |
| RoutingTable.Routing.Mark | src/dht/node.cpp:269-288 | Marks a node as seen, queried or failed in its bucket; see `MarkChangesOne`. |
| RoutingTable.AddStoresIff | src/dht/node.cpp:108-129 | A node is stored if and only if it is not the own one and its bucket knows its identifier, has room or holds a BAD node. |
| RoutingTable.AddEvictsOnlyBad | src/dht/node.cpp:189-201 | Adding displaces only the node of the same identifier, or one BAD node of a full bucket, and only for the new node. |
| RoutingTable.RemoveTakesOne | src/dht/node.cpp:131-136 | Removing takes away the node with the identifier and no other, in any bucket. |
| RoutingTable.MarkChangesOne | src/dht/node.cpp:161-187 | A mark changes the node with the identifier and no other, in any bucket. |
| RoutingTable.ReportsDecide | src/dht/node.cpp:88-187 | In any table, three failures reported in a row make the node BAD at any time; one answer then makes it GOOD for 15 minutes, not longer. |
| RoutingEviction.QualityByFields | src/dht/node.cpp:88-104 | BAD means three failures or an hour without being seen, GOOD fewer failures and seen within 15 minutes. |
| RoutingEviction.AddEvictsOnlyExpendable | src/dht/node.cpp:108-129 | A node makes way for another identifier only in a full bucket, with three failures or after an hour. |
| RoutingEviction.NewIsStoredIff | src/dht/node.cpp:108-129 | A new identifier is stored if and only if it is not the own one and its bucket has fewer than 8 nodes or such a one. |
| RoutingEviction.MarksDo | src/dht/node.cpp:161-187 | Which fields each of the three marks sets, and that all others stay. |
| RoutingEviction.SeenIsSafeForAnHour | src/dht/node.cpp:88-202 | In every run, a node that was seen is not displaced by another identifier for an hour, as long as fewer than three failures of it are reported. |
| RoutingTable.ApplyOk | src/dht/node.cpp:207-288 | Every operation keeps the table invariant and the own identifier. |
| RoutingTable.EveryRunIsOk | src/dht/node.cpp:205-288 | After every run from an empty table: nodes in the buckets of their distances, at most 8 in each, no identifier twice in the table, never the own one. |
| RoutingTable.NodesAreInTheirBuckets | src/dht/node.cpp:58-75 | A node in bucket b is at a distance from 2^b to below 2^(b+1). |
| RoutingTable.IdsAreUnique | src/dht/node.cpp:108-129 | Two places of the table never hold the same identifier, in different buckets either. |
| RoutingTable.GoodNodesUnique | src/dht/node.cpp:225-236 | The nodes collected for a search are exactly the GOOD nodes of the table, each once. |
| RoutingTable.SortByDistance | src/dht/node.cpp:238-242 | Sorting gives a permutation in which no node stands before a closer one. |
| RoutingTable.SortedIsStrict | src/dht/node.cpp:238-242 | With unique identifiers, the distances in it strictly increase. |
| RoutingTable.RestIsFarther | src/dht/node.cpp:244-247 | Whatever the cut removes is farther than all that stays. |
| RoutingTable.Routing.FindClosestNodes | src/dht/node.cpp:225-248 | Returns min(count, number of GOOD nodes) GOOD nodes in strictly increasing distance; every GOOD node left out is farther than every one returned. |
| Persistence.Serialize | src/dht/node.cpp:312-344 | The bytes are the own identifier, the count, and a 26-byte record for each GOOD node. |
| Persistence.StoredLayout | src/dht/node.cpp:313-343 | Where identifier, number of nodes, and the identifier, address and port of each node stand in these bytes, numbers with the highest byte first. |
| Persistence.Deserialize | src/dht/node.cpp:346-394 | Reads as many whole records as there are, or refuses data without a header and then leaves the table alone. |
| Persistence.RestoresGoodNodes | src/dht/node.cpp:312-394 | Reading a stored table into an empty one restores the own identifier and exactly its GOOD nodes, each in its bucket and in the old order, none refused. |
| Krpc.QueryRoundTrip | src/dht/protocol.cpp:30-195 | Every query, encoded with unsorted keys by hand and decoded through the generic parser, comes back, up to a false implied_port. |
| Krpc.ResponseRoundTrip | src/dht/protocol.cpp:199-327 | The same for responses: empty lists become absent, times start afresh, peers have no identifiers. |
| Krpc.ErrorRoundTrip | src/dht/protocol.cpp:331-387 | The same for errors with a 32-bit code. |
| Krpc.NodesRoundTrip | src/dht/protocol.cpp:469-509 | Compact nodes decode to what was encoded, on hosts of either byte order. |
| Krpc.EncodeNodes | src/dht/protocol.cpp:469-483 | The loop pushes the 26 bytes of every node in turn. |
| Krpc.DecodeNodes | src/dht/protocol.cpp:485-509 | The loop reads every whole record and ignores a remainder. |
| KrpcCodec.EncodeQuery | src/dht/protocol.cpp:30-94 | What the literals and fields of the stream add up to is the text of the query as a bencode tree, for which `QueryRoundTrip` holds. |
| KrpcCodec.DecodeQuery | src/dht/protocol.cpp:97-195 | Fields are taken if present and of the right type and size; no message exactly if the data is not a dictionary or its query name is none of the four. |
| KrpcCodec.EncodeResponse | src/dht/protocol.cpp:199-244 | The stream is the text of the response as a bencode tree. |
| KrpcCodec.DecodeResponse | src/dht/protocol.cpp:247-327 | The fields of a response, peers of six bytes only. |
| KrpcCodec.EncodeError | src/dht/protocol.cpp:331-350 | The stream is the text of the error as a bencode tree. |
| KrpcCodec.DecodeError | src/dht/protocol.cpp:353-387 | Code and message of a list of at least two items, the code cut to 32 bits. |
| KrpcDispatch.Dispatch | src/dht/client.cpp:154-205 | A datagram is handled as the first kind of message whose decoder reads it. |
| KrpcDispatch.HandledIff | src/dht/client.cpp:177-196 | A dictionary is taken for a query unless it has an unknown query name, and then for a response; nothing is taken for an error. |
| KrpcDispatch.ResponseIsTakenForQuery | src/dht/client.cpp:177-196 | Every response that is sent would be taken for a query without a kind. |
| KrpcDispatch.ErrorIsTakenForQuery | src/dht/client.cpp:177-196 | So would every error. |
| KrpcDispatch.QueryIsTakenForQuery | src/dht/client.cpp:177-182 | Queries are taken for what they are. |
| KrpcDispatch.QueryIsRead | src/dht/protocol.cpp:97-195 | From any dictionary with arguments, whoever wrote it, each argument is read by its name in BEP 5; `implied_port` is true exactly for nonzero integers. |
| KrpcDispatch.ResponseIsRead | src/dht/protocol.cpp:247-327 | The same for the values of a response. |
| KrpcDispatch.ErrorIsRead | src/dht/protocol.cpp:353-387 | The same for the code and the text of an error. |
| KrpcDispatch.PeerIsStandard | src/dht/protocol.cpp:219-229 | Peers are sent as address and port in network byte order. |
| KrpcDispatch.RecordIsStandardIff | src/dht/protocol.cpp:469-483 | A compact node is that of BEP 5 if and only if the host is big-endian or both bytes of the port are equal. |
| KrpcDispatch.StandardIsReadIff | src/dht/protocol.cpp:485-509 | A compact node of BEP 5 is read right under the same condition. |
| KrpcDispatch.HearsayIsGood | src/dht/client.cpp:358-363 | A node named in any message is GOOD once it is in the table, and replaces the one known there. |
| Lookup.KeyIsTheEndpoint | src/dht/client.cpp:18-33 | Two nodes have the same key if and only if they have the same address and port. |
| Lookup.TidValue | src/dht/protocol.cpp:452-463 | The first 2^32 transaction identifiers are different: each gives its number back. |
| Lookup.UniquedIsStrict | src/dht/client.cpp:590-602 | A sorted list without neighbours of the same identifier is strictly sorted and holds the same set of identifiers. |
| Lookup.ChooseAdds | src/dht/client.cpp:620-631 | The loop marks as queried exactly the endpoints it chooses, each new and different, raises the counter by their number and never above 3. |
| Lookup.ChooseStops | src/dht/client.cpp:620-631 | It stops at a place before which all are queried and behind which none is chosen, and at the end unless 3 are in flight. |
| Lookup.AdvanceOk | src/dht/client.cpp:588-660 | One `continue_lookup` keeps the accounting of a lookup and leaves its list strictly sorted, without duplicates and at most 32 long. |
| Lookup.SendAllOk | src/dht/client.cpp:633-639 | Sending the chosen queries keeps pending and sent queries in step with the queried endpoints. |
| Lookup.AnswerIsEnteredFirst | src/dht/client.cpp:332-396 | Removing the answered query last, as the code does, has the same effect as removing it first. |
| Lookup.ApplyKeeps | src/dht/client.cpp:332-862 | Every step of the client, from starts and answers to errors and expiry, keeps every lookup in order. |
| Lookup.RunKeeps | src/dht/client.cpp:332-862 | So does every run with at most 2^32 transaction identifiers. |
| Lookup.LiveAtMostInFlight | src/dht/client.cpp:821-862 | The pending queries of a lookup are at most those it counts as in flight. |
| Lookup.LookupAccounting | src/dht/client.cpp:588-705 | In every run: queried = in flight + responding, at most 3 in flight, responding within queried, tokens within responding, live pending queries at most in flight. |
| Lookup.NoEndpointIsAskedTwice | src/dht/client.cpp:620-639 | In every run, no endpoint is sent two queries by the same lookup. |
| Lookup.ShortlistsAreSorted | src/dht/client.cpp:588-607 | In every run, each shortlist strictly increases in XOR distance, repeats no identifier and is at most 32 long. |
| Lookup.OverWhenAllAnswered | src/dht/client.cpp:641-649 | A step that ends a lookup leaves no asked endpoint without an answer and no endpoint of the list unasked. |
| Lookup.EndsAtOnceIff | src/dht/client.cpp:582-649 | A lookup ends in its very first step if and only if no node was known; its start then locks the same mutex twice. |
| LookupStall.LostForEver | src/dht/client.cpp:398-414 | In every run, the queries that a lookup counts as in flight but that are no longer pending never become fewer, and as long as there are some it does not end. |
| LookupStall.ForgottenQueryStrands | src/dht/client.cpp:842-863 | So after one failed or expired query its lookup never ends, whatever follows. |
| LookupStall.ManyAskedNeverEnds | src/dht/client.cpp:605-649 | In every run, the endpoints asked never become fewer, and a lookup that has asked more than eight never ends. |
| LookupLearns.AnswerIsEntered | src/dht/client.cpp:688-701 | Entering the nodes of an answer keeps the list and appends nodes of the answer at new and pairwise different endpoints; then the list has every endpoint of the answer. |
| LookupLearns.DiscoveredAppends | src/dht/client.cpp:688-701 | What is appended is the first node of the answer for each endpoint not seen before, and nothing else. |
| LookupLearns.AdvancedLists | src/dht/client.cpp:588-607 | After the sort and the cut, the identifier of every node of the list is still there, unless 32 closer ones are. |
| LookupLearns.AnswerIsLearned | src/dht/client.cpp:663-705 | After an answer, each of its endpoints has a node that the lookup lists, unless 32 are closer. |
| LookupLearns.NothingHeardIsForgotten | src/dht/client.cpp:588-705 | In every run, a lookup lists every node it was ever told of, unless 32 closer identifiers are in its list. |
| LookupAsks.ChosenAreAsked | src/dht/client.cpp:633-639 | Every chosen node gets one query, in order. |
| LookupAsks.ChosenWait | src/dht/client.cpp:749-826 | Each of these queries waits under a transaction identifier of its own. |
| LookupAsks.LookupsAreBusy | src/dht/client.cpp:588-705 | In every run, a lookup sent queries to exactly the endpoints it counts as asked, and it has three in flight or has asked every endpoint of its list. |
| LookupAsks.IdentifiersAreCounted | src/dht/client.cpp:554-639 | In every run, as many transaction identifiers were taken as queries were sent and lookups started. |
| LookupAsks.TokensAreKept | src/dht/client.cpp:677-681 | In every run, a token that came with an answer stays with its endpoint. |
| LookupAsks.ForgottenAfterElevenSeconds | src/dht/client.cpp:842-863 | A cleanup forgets exactly the queries sent eleven seconds ago or earlier, since whole seconds must exceed ten. |
| LookupAsks.EndsIff | src/dht/client.cpp:605-649 | A step ends a lookup if and only if no query is in flight and the eight closest places of its list hold as many asked endpoints as were asked in all. |
| Lookup.ClosestAreAskedFirst | src/dht/client.cpp:620-631 | The nodes asked next are closer to the target than every node of the list that stays unasked. |
| DhtClient.Unique | src/dht/client.cpp:598-602 | `std::unique` keeps the first of neighbours with the same identifier. |
| DhtClient.CountActive | src/dht/client.cpp:608-614 | The number of queried nodes among the 8 closest. |
| DhtClient.ChooseNext | src/dht/client.cpp:620-631 | The loop makes the choice that `ChooseAdds` and `ChooseStops` describe. |
| DhtClient.AddDiscovered | src/dht/client.cpp:688-701 | The loop appends what `AnswerIsEntered` and `DiscoveredAppends` describe. |
| DhtClient.DhtClient.Generate | src/dht/protocol.cpp:452-463 | The identifier is the four bytes of a 32-bit counter that wraps. |
| DhtClient.TidBytes | src/dht/protocol.cpp:452-463 | The shifts and masks give the counter with its highest byte first. |
| DhtClient.DhtClient.SendQuery | src/dht/client.cpp:749-826 | A new identifier, a pending query and a sent message, and nothing else. |
| DhtClient.DhtClient.SendQueries | src/dht/client.cpp:633-639 | One query for each chosen node, in order, for lookups that send at all. |
| DhtClient.DhtClient.ContinueLookup | src/dht/client.cpp:588-660 | For some order that `std::sort` may choose, the state changes by the step about which the lemmas of `Lookup` speak. |
| DhtClient.DhtClient.StartLookup | src/dht/client.cpp:554-586 | A new lookup over the closest known nodes, continued at once. |
| DhtClient.DhtClient.HandleLookupResponse | src/dht/client.cpp:663-705 | The answer is entered, its nodes are added and the lookup goes on. |
| DhtClient.DhtClient.HandleResponse | src/dht/client.cpp:332-396 | An unknown identifier changes nothing; a known one advances its lookup, if any, and is then forgotten. |
| DhtClient.DhtClient.HandleError | src/dht/client.cpp:398-414 | The query is forgotten; its lookup is not told. |
| DhtClient.DhtClient.CleanupExpiredQueries | src/dht/client.cpp:842-863 | Exactly the queries older than the timeout are forgotten. |
| RateLimiter.RateLimiter.CheckRateLimit | src/dht/client.cpp:900-928 | The map of windows changes, and a datagram is accepted, as in the step of the runs below. |
| RateLimiter.RateIsBounded | src/dht/client.cpp:900-928 | For a monotone clock and any arrivals, at most 100 * (ceiling of T + 1) datagrams of one address are accepted in any T seconds. |
| RateLimiter.SpentSoFar | src/dht/client.cpp:900-928 | The count behind it: full windows a second apart, and what the open window has spent. |
| RateLimiter.WindowsAreASecondApart | src/dht/client.cpp:900-928 | Two windows of one address start at least a second apart. |
| RateLimiter.RefusedOnlyWhenFull | src/dht/client.cpp:900-928 | A datagram is refused only if 100 of its address were accepted within the last second. |
| RateLimiter.AddressesAreIndependent | src/dht/client.cpp:900-928 | What is accepted of one address does not depend on the others. |
| ExtensionProtocol.BuildMetadataData | src/peer/extension_protocol.cpp:130-146 | The identifier, the canonical dictionary and the data, for which `DataRoundTrip` holds. |
| ExtensionProtocol.BuildMetadataMessage | src/peer/extension_protocol.cpp:116-160 | Requests and rejections alike, for which `MessageRoundTrip` holds. |
| ExtensionProtocol.ParseMetadataMessage | src/peer/extension_protocol.cpp:192-240 | The fields of the dictionary with their casts, and the bytes behind it as data. |
| ExtensionProtocol.DataRoundTrip | src/peer/extension_protocol.cpp:130-240 | Parsing what follows the identifier of a data message gives piece, total size and all the data. |
| ExtensionProtocol.MessageRoundTrip | src/peer/extension_protocol.cpp:116-240 | Parsing what follows the identifier of a request or a rejection gives kind and piece. |
| ExtensionProtocol.ParseExtendedHandshake | src/peer/extension_protocol.cpp:55-102 | The extensions, client, port, metadata size and upload flag of a handshake, or none for a text that is not a dictionary. |
| ExtensionProtocol.BuildExtendedHandshake | src/peer/extension_protocol.cpp:18-53 | The canonical dictionary of the local extensions, client, port and, if there is one, the metadata size. |
| ExtensionProtocol.HandshakeRoundTrip | src/peer/extension_protocol.cpp:18-102 | Parsing a handshake that was built gives the extensions with their identifiers, client, port and metadata size. |
| ExtensionProtocol.HandshakeIsRead | src/peer/extension_protocol.cpp:55-102 | What any handshake tells, by the names of BEP 10; what is not sent is empty, zero or false. |
| ExtensionText.MessageText | src/peer/extension_protocol.cpp:116-160 | The dictionary of a request or rejection, byte by byte. |
| ExtensionText.DataText | src/peer/extension_protocol.cpp:130-146 | The dictionary of a data message, byte by byte. |
| MetadataExchange.MetadataExchange.constructor | src/peer/metadata_exchange.cpp:10-11 | A new exchange knows only the info hash. |
| MetadataExchange.MetadataExchange.HandleExtensionHandshake | src/peer/metadata_exchange.cpp:19-51 | The identifier follows the peer; only the first announced size is taken, and the pieces are laid out for it. |
| MetadataExchange.MetadataExchange.HandleMetadataMessage | src/peer/metadata_exchange.cpp:53-101 | A missing piece is stored and assembly is tried; a request is answered by a rejection. |
| MetadataExchange.MetadataExchange.RequestMetadata | src/peer/metadata_exchange.cpp:103-120 | One request for each missing piece, in order (`MissingIsNotIn`), and none without a peer or a size or when complete. |
| MetadataExchange.MetadataExchange.AssembleMetadata | src/peer/metadata_exchange.cpp:122-157 | Joins the pieces if all are in and the size is right, completes if they verify, and calls back. |
| MetadataExchange.MetadataExchange.VerifyMetadata | src/peer/metadata_exchange.cpp:159-168 | True exactly for nonempty metadata with the right hash. |
| MetadataExchange.CompleteIsVerified | src/peer/metadata_exchange.cpp:122-157 | In every run, completion means the announced size and the right hash; the callback gets these bytes, and at most once. |
| MetadataExchange.NothingWithoutCause | src/peer/metadata_exchange.cpp:19-157 | In every run, a size of zero is never taken, there is a callback exactly after it was set, and no call without one. |
| MetadataExchange.CallbackIsCalled | src/peer/metadata_exchange.cpp:141-156 | A callback that was set before completion is called once, with the metadata. |
| MetadataExchange.JoinedIsKept | src/peer/metadata_exchange.cpp:122-157 | In every run, pieces that are all in and join to the announced size are the metadata, even with a wrong hash. |
| MetadataRequests.MissingIsNotIn | src/peer/metadata_exchange.cpp:103-120 | The pieces asked for are exactly those not in, in increasing order. |
| MetadataRequests.RequestsComplete | src/peer/metadata_exchange.cpp:53-157 | From any state that has only heard the truth: the requests for what is missing, answered by an honest peer, complete the exchange with the metadata. |
| MetadataExchange.SizeNeverChanges | src/peer/metadata_exchange.cpp:19-51 | The size stays once set, and what is complete stays complete and the same. |
| MetadataExchange.WrongPiecesStay | src/peer/metadata_exchange.cpp:76-94 | When every piece is in and the result is wrong, no later message changes that. |
| MetadataRepair.RepairableIff | src/peer/metadata_exchange.cpp:19-157 | In every run: some further messages complete the exchange if and only if it is complete, or a piece is missing and the missing pieces can be filled in to metadata of the announced size with the right hash, or no size is known yet and some metadata has the hash. |
| MetadataRepair.FillingCompletes | src/peer/metadata_exchange.cpp:76-157 | The messages that complete it are those of the pieces, in order, as peers build them. |
| MetadataRepair.TooLongPieceIsFinal | src/peer/metadata_exchange.cpp:82-93 | A stored piece that is longer than the announced size is never replaced, so the exchange never completes, whatever else is missing. |
| MetadataRepair.WrongPieceIsFinal | src/peer/metadata_exchange.cpp:19-157 | For any metadata: after a handshake with its size completion is possible, and after one first piece that is too long it is not. |
| MetadataExchange.SlicesInAnyOrder | src/peer/metadata_exchange.cpp:53-157 | Delivering the true 16 KiB slices in any order and with repetitions reassembles the metadata. |
| MetadataExchange.BuiltSliceIsHonest | src/peer/extension_protocol.cpp:130-146 | The data messages that a peer builds are such deliveries. |
| LogQueue.AsyncLogSink.constructor | include/logging.hpp:464-468 | A new sink is empty and running. |
| LogQueue.AsyncLogSink.Write | include/logging.hpp:483-520 | Each policy decides on a full queue; a writer waits exactly under BLOCK with a full queue. |
| LogQueue.AsyncLogSink.AfterWait | include/logging.hpp:483-520 | After its wait, a writer puts its message in if there is room, else it is counted as dropped. |
| LogQueue.AsyncLogSink.TakeOrEnd | include/logging.hpp:431-461 | The worker takes the oldest message, or ends if there is none after shutdown. |
| LogQueue.AsyncLogSink.WriteInner | include/logging.hpp:431-461 | The message in flight reaches the inner sink. |
| LogQueue.AsyncLogSink.Shutdown | include/logging.hpp:543-549 | Before the join, the sink stops running, and the queue stays for the worker. |
| LogQueue.AsyncLogSink.ShutdownAndJoin | include/logging.hpp:543-549 | With the join, when only the worker is left: all that was accepted is out, in order, when it returns. |
| LogQueue.AsyncLogSink.WorkerLoop | include/logging.hpp:431-461 | After shutdown the worker alone hands off everything that was left, in order, and ends. |
| LogQueue.QueueIsSafe | include/logging.hpp:431-520 | In every run of every policy: what was handed off, is in flight or is queued is an in-order subsequence of what was written; all written messages are accounted for; the queue never exceeds its capacity. |
| LogQueue.WorkerEndsDrained | include/logging.hpp:431-461 | The worker ends only after shutdown and with nothing queued or in flight. |
| LogQueue.FlushLeavesAtMostOne | include/logging.hpp:536-540 | When `flush` sees an empty queue, at most one accepted message has still to reach the inner sink. |
| LogFlush.FlushIsSureIff | include/logging.hpp:483-549 | Then a caller can be sure that everything accepted is out if and only if `shutdown` has returned or every message was dropped: only in these cases do all runs that look the same to the caller agree on it. |
| LogFlush.LastMessageHeldBack | include/logging.hpp:431-461 | For every run with an idle worker there is one that looks the same and in which the last message is still in flight. |
| LogFlush.ShutdownLeavesNothing | include/logging.hpp:543-549 | Once the worker has ended and the queue is empty, all that was accepted and not dropped is out, in order. |
| LogQueue.FlushCanBeEarly | include/logging.hpp:536-540 | A run in which `flush` returns with a message not yet out. |
| LogQueue.AcceptedStays | include/logging.hpp:483-520 | Except under DROP_OLDEST, no accepted message is lost or overtaken. |
| LogQueue.NewestAreQueued | include/logging.hpp:483-520 | Under DROP_OLDEST, in every run, what is queued is always the newest of what was written. |
| LogDrain.EveryCallIsAccounted | include/logging.hpp:483-520 | In every run, each call of `write` has completed or waits for space, once; only under BLOCK does any wait, and otherwise calls complete in order. |
| LogDrain.ShutdownDrains | include/logging.hpp:431-549 | From any state of a run in which the worker has not ended: a shutdown, and then the worker alone for a turn per queued message and one more, bring out all that was accepted, in order. |
| LogDrain.EndedBringsNothing | include/logging.hpp:431-520 | After the end of the worker nothing is brought out any more. |
| LogDrain.LateMessageIsAccepted | include/logging.hpp:483-520 | A message that is written then is accepted all the same, and not counted as dropped. |
| Rc4.RC4.constructor | src/crypto/mse_crypto.cpp:263-267 | A new generator holds the identity. |
| Rc4.RC4.Init | src/crypto/mse_crypto.cpp:269-283 | The key schedule, in place, of any nonempty key. |
| Rc4.RC4.Process | src/crypto/mse_crypto.cpp:285-294 | The data is replaced in place by its XOR with the key stream, and the state moves on by its length. |
| Rc4.EachByteOnce | src/crypto/mse_crypto.cpp:263-283 | In a permutation of 0..255 every byte stands at exactly one place. |
| Rc4.AlwaysAPermutation | src/crypto/mse_crypto.cpp:269-294 | The state is such a permutation after the key schedule and after any number of bytes. |
| Rc4.ProcessedInParts | src/crypto/mse_crypto.cpp:285-294 | Processing two parts in turn is processing them joined. |
| Rc4.AnyChunks | src/crypto/mse_crypto.cpp:285-294 | So is processing data in any chunks. |
| Rc4.TwiceIsIdentity | src/crypto/mse_crypto.cpp:263-294 | Processing twice from the same key gives the data back. |
| Rc4Backwards.KeyedIsUndone | src/crypto/mse_crypto.cpp:269-283 | From the permutation of any key, 256 turns back lead to the identity. |
| Rc4Backwards.AdvanceIsUndone | src/crypto/mse_crypto.cpp:285-294 | From the state after any number of bytes, the state before them can be computed. |
| Rc4Backwards.FirstBytes | src/crypto/mse_crypto.cpp:285-294 | The key stream from the identity begins with 2, 5 and 7. |
| Base64.AlphabetIsTheTable | src/storage/state_manager.cpp:14-16 | The string of letters is the table of section 4 of RFC 4648. |
| Base64.EncodedIsStandard | src/storage/state_manager.cpp:18-61 | The text is the one that section 4 defines by 24-bit groups cut into six-bit digits. |
| Base64.EncodedLength | src/storage/state_manager.cpp:18-61 | Its length is four for every three bytes begun. |
| Base64.EncodedShape | src/storage/state_manager.cpp:18-61 | It is letters of the alphabet and then the padding for the length, nothing else. |
| Base64.Encode | src/storage/state_manager.cpp:18-61 | The loop over groups of three and the padded rest produces that text. |
| Base64.BuildTable | src/storage/state_manager.cpp:64-66 | The table holds the digit of each letter and -1 elsewhere. |
| Base64.Decode | src/storage/state_manager.cpp:63-81 | With an accumulator that wraps at 32 bits, the output is that of an unbounded one. |
| Base64.LostBitsAreNotMissed | src/storage/state_manager.cpp:70-79 | Bits that fell out of the accumulator are never part of a byte put out later. |
| Base64.RoundTrip | src/storage/state_manager.cpp:18-81 | Decoding the encoding of any bytes gives them back. |
| Utf8.AppendCodepoint | include/json.hpp:403-432 | Appends one to four bytes for every codepoint up to 10FFFF and refuses all others. |
| Utf8.EmittedIsUtf8 | include/json.hpp:403-432 | The bytes decode to the codepoint, and are a UTF-8 character if and only if it is no surrogate. |
| Utf8.CharactersDecodeUniquely | include/json.hpp:403-432 | Every UTF-8 character is what is emitted for its codepoint. |
| Json.EscapeString | include/json.hpp:731-779 | Every byte is escaped or copied as `ReadsString` needs to read it back. |
| JsonStrings.NothingElseIsEscaped | include/json.hpp:731-779 | Without the option for solidi, strings without quotes, backslashes and control characters are written as they are. |
| JsonStrings.ShortEscapes | include/json.hpp:731-779 | The bytes with a short escape of their own, and these escapes. |
| JsonStrings.SolidiAreEscaped | include/json.hpp:761 | The option costs one byte for each solidus, and nothing else. |
| Json.StringifyImpl | include/json.hpp:781-871 | The recursive appending writes exactly the text of the node behind what was there. |
| Json.WriteItems | include/json.hpp:799-831 | Elements in order with commas between them, each on its own line if pretty. |
| Json.WriteMembers | include/json.hpp:832-869 | Members in order, with their keys, as they stand. |
| Json.WidthIsProduct | include/json.hpp:781-871 | The indentation at a depth is the depth times the indent. |
| Json.Stringify | include/json.hpp:873-878 | The text of the whole tree, about which `RoundTrip` speaks. |
| JsonLayout.SampleText | include/json.hpp:781-871 | The exact text of an object with an array: nothing between the tokens in compact form, a line for each element in pretty form. |
| JsonParser.Parser.ReadValue | include/json.hpp:347-379 | Moving `pos` over a value gives the result, the position or the error of the parse of the text from there. |
| JsonParser.Parser.ReadLiteral | include/json.hpp:381-390 | The same for true, false and null. |
| JsonParser.Parser.ReadCodeUnit | include/json.hpp:434-484 | Four hexadecimal digits of either case, or the error at the first other byte. |
| JsonParser.Parser.ReadUnicodeEscape | include/json.hpp:434-484 | Appends the bytes of the codepoint, of a surrogate pair as one. |
| JsonParser.Parser.ReadString | include/json.hpp:486-554 | The same for a string with its escapes; control characters are errors. |
| JsonParser.Parser.ReadNumber | include/json.hpp:556-613 | The same for a number, kept as its text. |
| JsonParser.Parser.ReadArray | include/json.hpp:615-650 | The same for an array. |
| JsonParser.Parser.ReadMember | include/json.hpp:652-698 | The same for a key, a colon and a value. |
| JsonParser.Parser.ReadObject | include/json.hpp:652-698 | The same for an object, whose members keep their order and repetitions. |
| JsonParser.Parser.ReadText | include/json.hpp:297-310 | One value with white space around it and nothing behind. |
| JsonParser.ParseText | include/json.hpp:701-710 | The value, or the error with its position. |
| JsonErrors.SimpleErrors | include/json.hpp:486-554 | After any plain bytes of a string, the end, a control character, a backslash at the end and a wrong letter behind one are reported right behind the byte that is wrong. |
| JsonErrors.DigitErrors | include/json.hpp:434-484 | Missing or wrong digits of an escape are reported where they begin. |
| JsonErrors.PairErrors | include/json.hpp:434-484 | A high surrogate without an escape behind it, or with one of no low surrogate, is reported behind what was read of the pair. |
| JsonRoundTrip.ReadsNumber | include/json.hpp:556-613 | Every number of section 6 of RFC 8259 is read as its whole text. |
| JsonRoundTrip.ReadsString | include/json.hpp:486-554 | Every escaped string is read back byte by byte, whatever bytes it holds and whether or not solidi are escaped. |
| JsonRoundTrip.ReadsText | include/json.hpp:347-698 | The text of every tree at any depth of any document is read back as that tree. |
| JsonRoundTrip.RoundTrip | include/json.hpp:292-878 | Parsing what was stringified gives the tree back, order, repeated keys and all bytes included, pretty or compact, at any indent. |
| JsonRoundTrip.NumberIsStrict | include/json.hpp:556-613 | No number is accepted that section 6 of RFC 8259 does not allow. |
| JsonAccepts.AcceptedIffDerived | include/json.hpp:292-699 | A text is accepted with a tree if and only if the grammar of the program derives the text for this tree: that of RFC 8259, with vertical tabs and form feeds as white space too, any byte from 80 on in strings, and high surrogates only in pairs. |
| JsonAccepts.OneTree | include/json.hpp:292-699 | This grammar, and that of the RFC with high surrogates only in pairs, derive each text for one tree only. |
| JsonStrict.PairedIff | include/json.hpp:292-699 | The grammar of RFC 8259 with UTF-8 characters, and with high surrogates only in pairs, derives a text for a tree if and only if the text is accepted with this tree, has no bytes 11 and 12, and is UTF-8. |
| JsonStrict.AcceptedIsRfcTextIff | include/json.hpp:339-345 | An accepted text is one of RFC 8259 to the letter, with any digits in escapes, if and only if it has no bytes 11 and 12 and is UTF-8. |
| JsonStrict.RfcTextIsAcceptedIff | include/json.hpp:434-484 | A text of RFC 8259 to the letter is accepted if and only if a scan of its bytes finds no high surrogate escape without a low one behind it. |
| JsonStrict.FormFeedIsAccepted | include/json.hpp:339-345 | The bytes 11, "1", 12 are accepted, and are no text of the RFC. |
| JsonStrict.RawByteIsNoRfcText | include/json.hpp:486-554 | The bytes 22 FF 22 are accepted, and are no text of the RFC. |
| JsonStrict.LoneHighIsRefused | include/json.hpp:434-484 | The escape D800 alone in a string is a text of the RFC, and is refused. |
| JsonRoundTrip.ReprintedIsSame | include/json.hpp:292-878 | Whatever text was accepted, its tree stays the same when written in any form and read again. |
| JsonRoundTrip.EscapesEmitUtf8 | include/json.hpp:434-484 | An accepted escape stands for its code unit or the character of its surrogate pair; what it adds is a UTF-8 character if and only if it is no low surrogate on its own. |
| JsonStrings.StringIsUtf8Iff | include/json.hpp:486-554 | An accepted string is UTF-8 if and only if the bytes between its quotes are UTF-8 and no escape in it is a low surrogate on its own. |
| JsonStrings.RawByteIsAccepted | include/json.hpp:486-554 | The three bytes 22 FF 22 are accepted, and their string is not UTF-8. |
| Utf8Text.ScanIsExact | include/json.hpp:403-432 | A byte-by-byte scan accepts exactly the sequences of UTF-8 characters of RFC 3629. |
| JsonRoundTrip.LoneSurrogateIsAccepted | include/json.hpp:434-484 | A concrete text whose string is not UTF-8. |

## Left out

- BencodeReader.ParsePrefix: as a method it says nothing about texts on which the parse does not end; the same holds of all methods that parse a text first.
- BencodeParser.RoundTrip: encodings of 2^63 bytes and more are left out, since no string of the program has that size.
- BencodeReader.ReencodingIsCanonical: the same for the second parse, and texts of that size.
- PieceManager.WrittenIsShown: reading behind the end of data that is too short is undefined in C++; here it gives some bytes.
- PieceManager.HadPiecesReadBack: that a matching hash implies the right length is a hypothesis on the run.
- PieceManager.Manager.WriteMapping: writes always succeed, so the error paths of the disk thread are not modelled.
- PieceManager.Manager.WritePiece: the return value after a failed open, seek or write is not modelled.
- PieceManager.Manager.ReadPiece: failures of open, seek and read, which give nothing, are not modelled.
- Lookup.LookupAccounting: runs with more than 2^32 transaction identifiers, in which a wrapped counter can meet a live query, are not covered.
- Lookup.OverWhenAllAnswered: that a lookup without a lost query and with few nodes does end is not claimed; which steps end one says `LookupAsks.EndsIff`, and what keeps it from ending `LookupStall`.
- DhtClient.DhtClient.SendQuery: that the node is marked as queried in the routing table is not part of this model.
- DhtClient.DhtClient.ContinueLookup: the completion callbacks and the mutex are left out.
- DhtClient.DhtClient.StartLookup: the mutex that an immediate end locks twice is left out; `Lookup.EndsAtOnceIff` says when that is.
- DhtClient.DhtClient.HandleResponse: updates of the routing table and the callbacks of a response are not part of this model, only its queries and lookups.
- Krpc.QueryRoundTrip: queries with a type; a decoded message without a type, a field that the program leaves uninitialised, has none here. Without its list, an error has code 0 here, which the program leaves uninitialised, too.
- KrpcDispatch.Dispatch: what the program does with a query without a kind, a field that it leaves uninitialised, is not part of this model; nor is the rate limit before the decoders.
- Persistence.RestoresGoodNodes: reading into a table that is not empty changes the own identifier without moving nodes, so nothing is claimed there.
- Rc4.RC4.Init: an empty key, for which the program divides by zero, is excluded.
- Metadata.JoinPath: paths are those of POSIX.
- Json.WidthIsProduct: the product of depth and indent is unbounded here and an `int` in the program; indents are not negative.
- MetadataExchange.MetadataExchange.HandleExtensionHandshake: allocation does not fail for large announced sizes.
- Buckets and lookups are values inside their objects, so aliases of one lookup through `shared_ptr` are not captured.
- Every method under a mutex is one step; data races are not modelled.
- FileMap.CalculateFileMappings: sums of file lengths are unbounded here.
- Read requests of the disk queue, its shutdown, and the restart from a saved state.
- Downloaded bytes and completion percentages, which count verified pieces twice.
- PEX messages.
- JSON numbers as floating point; a number is its text. The depth of nested texts is not limited by a stack.
- Tokens of the DHT and their secrets, random identifiers, the message dispatch and stored peers.
- Sockets, HTTP, WebSocket, trackers, OpenSSL, the file system and the web interface.
