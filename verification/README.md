# The BitTorrent client, verified

This project models the three parts of the client that hold its logic and proves what they are for.

**Storage.** A torrent is one flat space of bytes, cut into files, pieces and 16 KiB blocks. `FileLayout`
and `Pieces` are the cuts, `FlatFiles` shows that a write scattered over the files is one write into the flat
space, and `DownloadModel`, `DownloadLaws`, `AnnouncementLaws` and `DownloadRuns` are the block, verify,
complete, announce machine and its runs, and `DownloadFinishes` shows that the right data downloads the torrent.
`DownloadClass.Download` is the object that does it in place, on arrays of bytes.

**Bencoding and the info dictionary.** `Bencode` has the encoder, the tree decoder and the skipper as
functions on the bytes left, `StructReader` the streaming struct reader, `MetaInfo` the info dictionary in all
three directions. The laws are in `Decimal`, `BencodeLaws`, `StructReader`, `MetaInfoLaws` and `InfoHashLaws`.
`StreamAndTree` says on which accepted bytes the two readers agree, and `HashedBytes` which bytes `info_hash` hashes.
`Grammar`, `SkipGrammar`, `GrammarErrors`, `InfoText` and `Utf8Laws` are written in literal bytes, apart from the
codecs: exactly which texts the decoder and the skipper take and for what, what they say of others, what the encoder
writes, what an info dictionary looks like, and what counts as UTF-8.
`DecoderClass.Decoder` is the cursor that every read moves, `EncoderClass.Encoder` the growing buffer, and each
of their methods is proved to do exactly what the function of the same name says, on errors too.

**Peers.** `Wire` is the message format and the read loop, `WireFormat` the format in literal bytes. `PeerModel` is
one connection as a state machine over its events, `PeerRequestLaws`, `PeerSentLaws`, `PeerUploadLaws` and
`BitfieldLaws` its invariants, `PeerWorkLaws` and `PeerServiceLaws` what each event gets done, `PeerRuns` its
runs and its interleavings with the loop that writes to the socket, and `PeerHistory` its state told from the events
alone; `PeerConnectionClass` has the objects. `ManagerModel` and `ManagerClass` are the manager's book of
connections, and `ManagerRuns` the book told from the events alone. `Swarm` puts the download loop, the
manager and all connections together, `SwarmLaws` proves over all interleavings that no completion is lost
and none invented, and `SwarmRuns` that in each of them the parts make the runs that their own theorems are about.

Where the source updates an object in place the model has a class, and every method's contract gives its whole
new state as a function of the old one; the properties are lemmas about those functions. Integers are unbounded;
the widths of the source are written out where they matter (`U32`, `U64`, the `as` casts, the `i64` range).
`String` is a byte string that is valid UTF-8, with the table of the Unicode standard written out in `Utf8`.
SHA-1 is a parameter: the theorems hold for every hash function, and none speaks of collisions. Each channel is
a sequence, each handled event one step, and what comes from elsewhere (the download loop's answers, the key
that a `HashMap` iteration gives first) is an argument of the step.

## Where the code and its purpose differ

The model keeps the code, and a theorem says exactly when it does what it is meant to do.

- `bt/src/base/download.rs:130` marks a piece complete after any of its blocks. `Config.asWritten` chooses
  between that line and the meant form, in which only a successful check does. `StoreKeepsVerifiedIff` and
  `EveryRunVerifiedIff` give the exact condition under which complete pieces are verified, and `AlwaysDownloadsIff`
  that under which true data always downloads the torrent; what is announced, and that complete pieces never change,
  is proved for both.
- `bt/src/base/download.rs:112-117` never compares the data with its block. `OthersKeptIff` says when that spares
  the other pieces. What is announced is proved for any data; the theorems about hashes and final bytes are about
  data that stays inside its piece.
- `bt/src/base/download.rs:198-214` never compares a request with its piece. `RetrievedIsVerified` says what every
  request inside its piece gets, `RetrievedIsOwnIff` that these are exactly the non-empty ones answered with bytes of
  their own piece alone, and `OverlongReadsOn` what the others get.
- `bt/src/base/download.rs:415` looks at the file after the one found. For a request of no bytes at the very end of the
  torrent, which lies inside its piece, there is none, unless the torrent ends in an empty file that the binary search
  lands on: the download loop panics. `RetrievePanicsIff` has all requests that make it panic, and
  `EmptyRequestAtTheEnd` is that one, of a torrent of one block.
- `bt/src/base/download.rs:532` cuts piece lengths to 32 bits: `CoveredIff`.
- `bt/src/base/download.rs:524` multiplies, and `:507` adds, in 64 bits. The model's `create_pieces` fails its
  assertions where a build with overflow checks panics; `WrappedCountFitsIff` says for which piece lengths and counts a
  build without them makes the same decisions, `OverflowPasses` is a torrent that gets through it, and `OffsetsWrapIff`
  is about the file offsets.
- `bt/src/base/download.rs:161` subtracts one from the end of a file, which underflows for an empty file at the very
  front, if the file is ever visited. Whether it is depends on where the binary search for offset zero lands:
  `NeverUnderflowsIff` gives the exact condition on a layout, and `EmptyFileInFront` a family on each side of it. The
  download theorems are about the layouts that meet it, empty files in front included.
- `bt/src/base/ipc.rs:82` writes id 6 for `Piece`, where the reader and BEP 3 ("peer messages") have 7. The id is
  an argument of `Serialize`, and `StreamRoundTripIff` says exactly which streams survive under which.
- `bt/src/bencode/value.rs:111-117` turns hashes that happen to be UTF-8 into text, which
  `bt/src/bencode/value.rs:141-148` then refuses: `TreeRoundTripIff`.
- `bt/src/bencode/value.rs:217` writes lengths from 2^63 on as negative numbers, which the stream decoder refuses
  and the tree decoder wraps back: `StreamRoundTripIff` of `MetaInfoLaws` and `StreamAgreesWithTree`.
- `bt/src/bencode/decode.rs:165` lets `-0` through when another digit follows: `AcceptedSpelling`,
  `PaddedZeroDisagrees`.
- `bt/src/bencode/decode.rs:265-274` keeps the last of repeated keys, where `read_field` takes the first:
  `RepeatedKeyDisagrees`; and `bt/src/bencode/decode.rs:316-336` gives up at the first key greater than the name,
  though nothing makes keys come in order. `ReadFieldAgreesIff` says for every accepted dictionary when one call of
  `read_field` and the map agree, `CanonicalIff` and `ReadersAgreeIff` on which bytes the two readers of the whole
  dictionary do.
- `bt/src/base/meta_info.rs:65-74` hashes the info dictionary as it writes it, not as it was read. A torrent whose
  info dictionary has any key that `Info` does not keep, such as `private`, gets the hash of other bytes than those it
  came with: `InfoHashIff` says exactly when the hash is of the bytes read, and `PrivateKeyChangesHash` is the input.
- `bt/src/base/meta_info.rs:151` takes any failure to read `files` for a torrent of one file, and goes on from where
  the cursor is: `DictUnderFilesIsRead` is a dictionary that the tree reader refuses and the stream reader takes for the
  one inside it.
- `bt/src/bencode/decode.rs:188` adds a length from the data to the cursor: `SkipWrapsIff`.
- `bt/src/base/manager.rs:72` compares peers together with the order of the handshake. As only line 99 asks for
  connections, always with the handshake sent first, the assertion in `connect` never fails: `EveryRunIsTidy`. The
  other order, which `ManagerEvent::Connection` has room for, would make it fail: `OnConnectionKeepsIff` has the
  step, and `MixedOrdersFail` a run from the start.
- `bt/src/base/manager.rs:225` frees a place without letting in a peer that waits, and line 74 ignores a peer that waits
  when it is asked for again, however many places are free; only a broadcast that finds a connection gone lets one in:
  `WaitingIsPassedOver`, and `PlaceStaysFree` is a run.

## Model

| member | source | states |
|---|---|---|
| ByteStrings.LessIsTransitive | bt/src/bencode/value.rs:18 | Keys are ordered as Rust orders strings, and that order is transitive |
| ByteStrings.LessIsTotal | bt/src/bencode/value.rs:18 | Any two keys are equal or ordered one way |
| ByteStrings.LessIsAsymmetric | bt/src/bencode/value.rs:18 | They are never ordered both ways |
| ByteStrings.LessIff | bt/src/bencode/value.rs:18 | The order is the lexicographic one: the first place where two keys differ decides, or the end of the shorter one |
| Utf8Laws.ValidIff | bt/src/bencode/value.rs:111-117 | What `from_utf8` accepts is exactly what encodes some sequence of Unicode scalar values, six bits in each byte after the first |
| Decimal.FormatParses | bt/src/bencode/decode.rs:162-172 | Every number of its width that is written is read back, and the leading-zero rule does not refuse it |
| Decimal.NegativeIsNotUnsigned | bt/src/bencode/decode.rs:168-171 | A negative number as text is an error where an unsigned one is wanted |
| Decimal.AcceptedSpelling | bt/src/bencode/decode.rs:165-171 | A number that is accepted is in canonical form if and only if it is not a minus sign followed by a zero and more digits |
| Decimal.PaddedNegativeIsRead | bt/src/bencode/decode.rs:165-171 | For one, `-01` is read as -1, which is written otherwise |
| BencodeLaws.ReadEncodedInteger | bt/src/bencode/decode.rs:249-255 | An integer written over the whole `i64` range is read back with what follows left over; as unsigned exactly when it is not negative |
| BencodeLaws.ReadEncodedBytes | bt/src/bencode/decode.rs:230-246 | A byte string written is read back with what follows left over; as a string exactly when it is UTF-8 |
| BencodeLaws.InsertIntoSorted | bt/src/bencode/decode.rs:274 | Inserting keeps the keys strictly increasing and brings in nothing else |
| BencodeLaws.LookupInsert | bt/src/bencode/value.rs:22-31 | After an insertion the key has its new value and every other key the old one, so the last of repeated keys wins |
| BencodeLaws.InsertLast | bt/src/bencode/decode.rs:262-275 | Keys that arrive in increasing order are appended |
| BencodeLaws.LookupIsMembership | bt/src/bencode/value.rs:42-55 | A lookup finds a value if and only if the map has that entry |
| BencodeLaws.NormalIffNoTextInRaw | bt/src/bencode/value.rs:111-117 | A value is its own normal form if and only if none of its `Bytes`, at any depth, is valid UTF-8 |
| BencodeLaws.DecodeEncode | bt/src/bencode/value.rs:105-121 | Decoding an encoding followed by anything gives the normal form of the value and stops right at what follows, over arbitrary nesting |
| BencodeLaws.RoundTripIff | bt/src/bencode/value.rs:105-121 | Decode undoes encode, whatever follows, if and only if no `Bytes` in the value is valid UTF-8 |
| BencodeLaws.EncodingsAreDistinct | bt/src/bencode/encode.rs:94-104 | Two encodings with anything after them are the same bytes only for the same normal form and the same rest: the encoding is prefix-free and injective |
| BencodeLaws.DecodedIsNormal | bt/src/bencode/decode.rs:258-292 | Whatever the decoder accepts, unsorted or repeated keys included, comes out with strictly increasing keys, integers in range and no text in `Bytes` |
| BencodeLaws.ReencodingIsStable | bt/src/bencode/encode.rs:70-104 | Re-encoding what was accepted, in whatever spelling, decodes to the same value again |
| BencodeLaws.SkipFollowsDecode | bt/src/bencode/decode.rs:197-227 | Where decoding succeeds, skipping from the same place succeeds and stops at the same place |
| Grammar.ParsesIff | bt/src/bencode/decode.rs:162-172 | The texts that are numbers, in positional notation to base 10: for `u64` those without a leading zero, for `i64` also those with zeros after a minus sign but `-0`, and all of them only within the range of the type |
| Grammar.EncodingIsStrictIff | bt/src/bencode/encode.rs:45-104 | The encoding of a value is the one text that the grammar of bencoding, written in literal bytes, has for it: `i`, number, `e`; length, colon, bytes; `l`, items, `e`; `d`, pairs in increasing order of keys, `e` |
| Grammar.DecodesIff | bt/src/bencode/decode.rs:162-292 | The tree decoder takes a text as a value and stops right after it, whatever follows, if and only if the grammar reads it so, with keys in any order, the last of repeated ones counting, and a byte string as text exactly when it is UTF-8 |
| SkipGrammar.SkipsIff | bt/src/bencode/decode.rs:186-227 | The skipper moves over a text and stops right after it if and only if it is one of a grammar in literal bytes that asks less: any number bytes in an integer, any item for a key, but whole byte strings and pairs |
| GrammarErrors.FirstByteTells | bt/src/bencode/value.rs:105-121 | At the end of the data both report `Eof`; a byte that begins no value is reported and left |
| GrammarErrors.NumberFails | bt/src/bencode/decode.rs:143-172 | A run of number bytes that the data ends in is `Eof`; before another byte, one that is no number of its type is `InvalidNumber`, and the cursor is behind it |
| GrammarErrors.IntegerFails | bt/src/bencode/decode.rs:249-255 | So for an integer; and one that is not closed by `e` reports the byte found, behind which the cursor is |
| GrammarErrors.StringFails | bt/src/bencode/decode.rs:230-241 | So for the length of a byte string and its colon; and one that is longer than the data is `Eof`, with the cursor behind the colon |
| GrammarErrors.StringFailsAs | bt/src/bencode/decode.rs:244-246 | A byte string that fails does so as a value and as a key; one that is not UTF-8 fails as a key, behind its bytes |
| GrammarErrors.ListFails | bt/src/bencode/decode.rs:282-292 | A list fails as its first item that fails, with its error and cursor |
| GrammarErrors.DictFails | bt/src/bencode/decode.rs:258-279 | A dictionary fails as its first key or value that fails |
| StructReader.SeekFinds | bt/src/bencode/decode.rs:316-336 | In a sorted dictionary the streaming reader stops at the value of a name that is still ahead, and otherwise restores the cursor and reports the field missing |
| StructReader.LaterNamesStayAhead | bt/src/bencode/decode.rs:294-311 | Asking for a name never passes a greater one |
| StructReader.ReadOne | bt/src/bencode/decode.rs:316-336 | One such call: the value and the cursor after it, or a missing field and the cursor restored |
| StructReader.FieldsInOrder | bt/src/bencode/decode.rs:294-336 | Any sequence of `read_field` calls with increasing names, on a sorted dictionary, gives for each name the value that map lookup gives, or a missing field that leaves the cursor where it was; the cursor ends where the entries after the last name found begin, and every greater name is still ahead |
| StructReader.SeekInText | bt/src/bencode/decode.rs:316-336 | In any accepted text of a dictionary, unsorted or with repeated keys, the reader stops at the first key that is not less than the name: right before its value if it is the name, and otherwise with a missing field and the cursor restored |
| StructReader.TreeHasLast | bt/src/bencode/decode.rs:258-279 | In any accepted text, the map has for each key the value of its last place there |
| StructReader.ReadFieldAgreesIff | bt/src/bencode/decode.rs:316-340 | On any accepted dictionary one call of `read_field` gives what map lookup gives if and only if the name does not occur, or its first place comes before every greater key and has the same value as its last place |
| StructReader.SkipBody | bt/src/bencode/decode.rs:305-311 | What a struct does not ask for is skipped up to its own closing byte |
| Sha1Hash.ReadSha1List | bt/src/bencode/hash.rs:36-52 | The loop cuts the bytes into hashes of 20 bytes and drops a partial last one |
| Sha1Hash.SplitJoin | bt/src/bencode/value.rs:192-202 | Cutting joined hashes gives the hashes back |
| Sha1Hash.JoinSplit | bt/src/bencode/hash.rs:36-52 | Joining what was cut gives the whole hashes; all the bytes if and only if their number is divisible by 20 |
| ValueReader.CollectStrings | bt/src/bencode/value.rs:150-163 | The loop over a list converts each item in order and stops at the first error |
| ValueReader.CollectFiles | bt/src/bencode/value.rs:150-163 | The same for file dictionaries |
| ValueReader.JoinHashes | bt/src/bencode/value.rs:192-202 | The loop joins the hashes in order |
| MetaInfoLaws.FileInfoAt | bt/src/base/meta_info.rs:136-146 | On the encoding of a dictionary that the tree reader takes as a file, other keys included, the stream reader gives the same file if its length is below 2^63, and fails otherwise |
| MetaInfoLaws.FilesAt | bt/src/base/meta_info.rs:151 | The same for the list of files, for any number of them |
| MetaInfoLaws.StreamAgreesWithTree | bt/src/base/meta_info.rs:148-169 | On the encoding of any dictionary that the tree reader takes as an `Info`, the stream reader gives the same `Info` and stops right after it if and only if every length is below 2^63 |
| MetaInfoLaws.FileInfoRoundTrips | bt/src/base/meta_info.rs:190-221 | Every file survives `into_value` and `from_value`, any 64-bit length included |
| MetaInfoLaws.TreeUndoesInto | bt/src/base/meta_info.rs:223-264 | Every `Info` survives `into_value` and `from_value` |
| MetaInfoLaws.InfoIntoIsTyped | bt/src/base/meta_info.rs:243-264 | The value written has strictly increasing keys and integers in range, and no text in `Bytes` if the joined hashes are not UTF-8 |
| MetaInfoLaws.TreeRoundTripIff | bt/src/base/meta_info.rs:223-264 | Encoded and read through the tree, an `Info` comes back if and only if its joined hashes are not valid UTF-8 |
| MetaInfoLaws.AsciiHashIsLost | bt/src/bencode/value.rs:111-117 | For one, an `Info` whose only hash is ASCII text does not come back through the tree |
| MetaInfoLaws.StreamRoundTripIff | bt/src/base/meta_info.rs:148-169 | Encoded and read through the stream, an `Info` comes back if and only if every length is below 2^63 |
| InfoHashLaws.SameLookups | bt/src/bencode/value.rs:18 | Two ordered maps with the same lookups are the same |
| InfoHashLaws.FileInfoBackIff | bt/src/base/meta_info.rs:190-221 | A file dictionary that is read and written back is the same if and only if it has no other key |
| InfoHashLaws.IntoUndoesTreeIff | bt/src/base/meta_info.rs:211-264 | An info dictionary that is read and written back is the same if and only if it and its files have only the modelled keys and its hashes are whole |
| StreamAndTree.CanonicalIff | bt/src/bencode/decode.rs:162-292 | Accepted bytes are the encoding of what they decode to if and only if keys strictly increase in every dictionary and no integer begins with a minus sign and a zero |
| StreamAndTree.ReadersAgreeIff | bt/src/base/meta_info.rs:148-169 | On all such bytes, other keys included, the stream reader gives the same `Info` and cursor as the tree reader if and only if every length is below 2^63 |
| StreamAndTree.RepeatedKeyDisagrees | bt/src/bencode/decode.rs:265-274 | With a second `length` the stream reader takes the first and the tree reader the last, for every single-file `Info` and every first length |
| StreamAndTree.PaddedZeroDisagrees | bt/src/bencode/decode.rs:162-172 | A zero length written `-00` is read by the tree reader and refused by the stream reader |
| StreamAndTree.DictUnderFilesIsRead | bt/src/base/meta_info.rs:148-169 | With any single-file info dictionary as the value of `files`, the stream reader gives that inner one and leaves the outer one open, where the tree reader refuses the whole |
| StreamAndTree.Md5sumMustBeText | bt/src/bencode/decode.rs:407-413 | An md5sum that is not UTF-8 is refused by both readers, though the field is optional |
| StreamAndTree.TreeNamesMissing | bt/src/base/meta_info.rs:223-241 | The tree reader names the first field that is missing: `length`, `name`, `piece length`, `pieces` |
| HashedBytes.DecodeLeavesEnd | bt/src/bencode/decode.rs:258-292 | What the decoder leaves is the end of what it was given |
| HashedBytes.ReadInfoIsGood | bt/src/base/meta_info.rs:223-241 | Every `Info` read from a tree has strings that are UTF-8 and lengths in range, at every depth |
| HashedBytes.InfoHashIff | bt/src/base/meta_info.rs:65-74 | Whatever the hash function, the info hash is that of the dictionary's encoding if and only if it and its files have only the modelled keys and its hashes are whole, and that of the very bytes read if and only if these are in canonical form too |
| HashedBytes.PrivateKeyChangesHash | bt/src/base/meta_info.rs:65-74 | For one, with the key `private` added to the dictionary of any `Info` both readers read the same `Info` (the stream where lengths are below 2^63), and it is hashed as other bytes than those read |
| InfoText.InfoWritten | bt/src/base/meta_info.rs:199-264 | What is written for any `Info`, one file or many, and hashed as its info hash, byte by byte with the names of the fields spelled out |
| DecoderClass.Decoder.constructor | bt/src/bencode/decode.rs:73-77 | The cursor starts at the front of the data |
| DecoderClass.Decoder.PeekByte | bt/src/bencode/decode.rs:125-140 | The next byte without moving, or `Eof` |
| DecoderClass.Decoder.ReadByte | bt/src/bencode/decode.rs:117-121 | The next byte and the cursor one further, or `Eof` and no move |
| DecoderClass.Decoder.Expect | bt/src/bencode/decode.rs:94-104 | Takes the byte, or reports the one found and stays behind it |
| DecoderClass.Decoder.ReadWhileNumber | bt/src/bencode/decode.rs:143-158 | The longest run of number bytes, and `Eof` if the data ends within it |
| DecoderClass.Decoder.ReadNumber | bt/src/bencode/decode.rs:162-172 | The outcome and the cursor are those of the number reader that `FormatParses` and `AcceptedSpelling` are about |
| DecoderClass.Decoder.ReadInteger | bt/src/bencode/decode.rs:249-255 | The outcome and the cursor are those of the integer reader that `ReadEncodedInteger` is about |
| DecoderClass.Decoder.Skip | bt/src/bencode/decode.rs:186-194 | The cursor moves by `n`, or `Eof` and no move, where the sum of cursor and `n` fits 64 bits |
| DecoderClass.SkipWrapsIff | bt/src/bencode/decode.rs:186-194 | With additions that wrap around, `skip` does the same if and only if the sum of cursor and length fits 64 bits; otherwise it succeeds and moves the cursor back |
| DecoderClass.Decoder.SkipItem | bt/src/bencode/decode.rs:197-227 | The loops and the recursion end, with the outcome and cursor of the skipper that `SkipFollowsDecode` is about |
| DecoderClass.Decoder.ReadByteString | bt/src/bencode/decode.rs:230-241 | The outcome and the cursor are those of the reader that `ReadEncodedBytes` is about |
| DecoderClass.Decoder.ReadStr | bt/src/bencode/decode.rs:244-246 | The same, and `InvalidUtf8` for other bytes |
| DecoderClass.Decoder.ReadDict | bt/src/bencode/decode.rs:258-279 | The loop builds the map of the tree decoder, later keys replacing earlier ones, and ends; anything but a `d` in front is the error of `expect` |
| DecoderClass.Decoder.ReadList | bt/src/bencode/decode.rs:282-292 | The loop builds the list of the tree decoder, and ends; anything but an `l` in front is the error of `expect` |
| DecoderClass.Decoder.DecodeValue | bt/src/bencode/value.rs:105-121 | The outcome and the cursor are those of the tree decoder that `DecodeEncode` is about |
| DecoderClass.Decoder.SeekField | bt/src/bencode/decode.rs:316-336 | The loop stops or restores the cursor as the seeker that `SeekFinds` is about |
| DecoderClass.Decoder.ReadFieldU64 | bt/src/bencode/decode.rs:316-336 | `read_field` for an unsigned integer |
| DecoderClass.Decoder.ReadFieldStr | bt/src/bencode/decode.rs:316-336 | `read_field` for a string |
| DecoderClass.Decoder.ReadFieldStrings | bt/src/bencode/decode.rs:316-336 | `read_field` for a list of strings |
| DecoderClass.Decoder.ReadFieldSha1s | bt/src/bencode/decode.rs:440-445 | `read_field` for hashes |
| DecoderClass.Decoder.ReadFieldFiles | bt/src/base/meta_info.rs:151 | `read_field` for a list of files |
| DecoderClass.Decoder.ReadOptionStr | bt/src/bencode/decode.rs:407-413 | A missing field is no error and leaves the cursor where it was |
| DecoderClass.Decoder.SkipOtherFields | bt/src/bencode/decode.rs:305-312 | The loop skips pairs to the closing byte |
| DecoderClass.Decoder.SkipOtherItems | bt/src/bencode/decode.rs:207-213 | The loop skips items to the closing byte |
| DecoderClass.Decoder.ReadFileInfo | bt/src/base/meta_info.rs:136-146 | The outcome and the cursor are those of the file reader that `FileInfoAt` is about |
| DecoderClass.Decoder.ReadInfo | bt/src/base/meta_info.rs:148-169 | The outcome and the cursor are those of the info reader that `StreamRoundTripIff` is about |
| EncoderClass.Encoder.WriteInteger | bt/src/bencode/encode.rs:45-49 | Appends the encoding of the integer to the buffer |
| EncoderClass.Encoder.WriteBytes | bt/src/bencode/encode.rs:58-62 | Appends length, colon and bytes |
| EncoderClass.Encoder.WriteDict | bt/src/bencode/encode.rs:70-81 | Appends the encoding of the map, its entries in the order of keys |
| EncoderClass.Encoder.WriteList | bt/src/bencode/encode.rs:83-91 | Appends the encoding of the list |
| EncoderClass.Encoder.EncodeValue | bt/src/bencode/encode.rs:94-104 | Appends exactly the encoding that the decoder inverts, whatever is in the buffer |
| FileLayout.CreateOffsets | bt/src/base/download.rs:478-509 | The loop gives the running sums of the file lengths, starting at zero |
| FileLayout.OffsetsAreSums | bt/src/base/download.rs:478-509 | One offset per file and the total; each is the one before plus the file's length, so they never decrease |
| FileLayout.OffsetsWrapIff | bt/src/base/download.rs:507 | With additions that wrap around, the offsets are these sums if and only if the total fits 64 bits |
| FileLayout.SearchIndexFinds | bt/src/base/download.rs:382-399 | For every layout, empty files included, the binary search finds a file that the offset lies in or that starts there; below the total it is a file and never the end |
| FileLayout.FindIndex | bt/src/base/download.rs:382-399 | The loop with `left` and `right` computes that search |
| FileLayout.SearchPtrs | bt/src/base/download.rs:401-430 | The loop cuts the range at the file boundaries, starting in the file found; it indexes past the last offset, a panic, if and only if the range ends past the total or the search lands on the end |
| FileLayout.SplitCovers | bt/src/base/download.rs:401-430 | The slices cover the range in order, without gap or overlap |
| FileLayout.SplitLiesIn | bt/src/base/download.rs:401-430 | Slice `k` lies inside file `index + k`, at the place of the flat space that it stands for |
| FileLayout.SplitVisits | bt/src/base/download.rs:401-430 | A non-empty file is visited for a non-empty range if and only if they overlap |
| FileLayout.SplitReach | bt/src/base/download.rs:401-430 | The split ends in the file where the range ends |
| FileLayout.VisitedEndsLater | bt/src/base/download.rs:160-161 | Where the search for offset zero lands on a file with bytes, no file that any range visits ends at zero |
| FileLayout.NeverUnderflowsIff | bt/src/base/download.rs:160-161 | For no range does a visited file end at zero, so that line 161 underflows, if and only if the search for offset zero lands on a file with bytes |
| FileLayout.EmptyFileInFront | bt/src/base/download.rs:382-399 | An empty file in front of one file is passed over by the search, in front of three it is found |
| FlatFiles.FlatSlice | bt/src/base/download.rs:360-380 | A part of a file is the part of the concatenation that starts at the file's offset |
| FlatFiles.FlatUpdate | bt/src/base/download.rs:347-358 | Writing into one file is writing into the concatenation |
| FlatFiles.SpliceSplice | bt/src/base/download.rs:338-343 | Two adjoining writes one after the other are one write |
| FlatFiles.SpliceReads | bt/src/base/download.rs:326-380 | After a write its place holds the data and every range beside it is as before |
| FlatFiles.StoreSlice | bt/src/base/download.rs:347-358 | One part is written into one file in place, as one write into the flat space |
| FlatFiles.StoreBlock | bt/src/base/download.rs:326-345 | For every layout and every range inside the total, writing over the files is one write into the flat space and changes no other byte |
| FlatFiles.ReadPart | bt/src/base/download.rs:370-378 | One part is copied into its place of the buffer |
| FlatFiles.Read | bt/src/base/download.rs:360-380 | For every layout and every range inside the total, the buffer is that slice of the flat space |
| Pieces.NumBlocksIsCeiling | bt/src/base/download.rs:52 | The number of blocks, computed by a floating division, is the exact integer ceiling |
| Pieces.BuildPiece | bt/src/base/download.rs:50-71 | The loop makes the blocks of a piece |
| Pieces.BlocksPartitionPiece | bt/src/base/download.rs:50-71 | Each byte of a piece lies in exactly one block, and each block has 1 to 16384 bytes |
| Pieces.CreatePieces | bt/src/base/download.rs:513-538 | The loop makes the pieces, and its assertions hold if and only if the pieces end with the torrent; an offset that overflows counts as a failure, as in a build with overflow checks |
| Pieces.WrappedCountFitsIff | bt/src/base/download.rs:524-530 | Where the assertions hold no offset overflows; and without overflow checks they hold for the same torrents, whatever their length, if and only if the last offset fits 64 bits or wraps to the last number of 64 bits |
| Pieces.OverflowPasses | bt/src/base/download.rs:524-530 | For one, three pieces of 2^63 bytes pass both assertions for a torrent of ten bytes when the multiplication wraps |
| Pieces.CountFitsIff | bt/src/base/download.rs:528-529 | The assertions hold if and only if there are as many hashes as pieces that the length takes |
| Pieces.PieceHoldsByte | bt/src/base/download.rs:523-531 | A byte lies in piece `i` before the cast if and only if `i` is its offset divided by the piece length |
| Pieces.PiecesPartitionTorrent | bt/src/base/download.rs:513-538 | Where lengths fit 32 bits, every byte of the torrent lies in exactly one block of exactly one piece |
| Pieces.CutPieceLosesByte | bt/src/base/download.rs:532 | A length that does not fit leaves a named byte in no block of any piece |
| Pieces.CoveredIff | bt/src/base/download.rs:532 | The blocks cover the torrent if and only if every piece length fits 32 bits |
| Pieces.FourGibibytePiece | bt/src/base/download.rs:532 | For one, a single piece of 2^32 bytes is cut to no block, and no byte is covered |
| DownloadModel.PieceBounds | bt/src/base/download.rs:523-531 | Each piece is not empty and ends inside the torrent |
| DownloadModel.PiecesDisjoint | bt/src/base/download.rs:523-531 | Two pieces share no byte |
| DownloadModel.BlockSplits | bt/src/base/download.rs:326-336 | What is written for a block never makes `search_ptrs` index past the last offset |
| DownloadLaws.StoreEffects | bt/src/base/download.rs:99-149 | A call writes its block unless it is held, and changes only its own piece: marked, complete, or started over, as the other blocks and the hash decide |
| DownloadLaws.OtherBytesKept | bt/src/base/download.rs:112-117 | A call changes no byte outside the data it was given |
| DownloadLaws.OtherPieceKept | bt/src/base/download.rs:112-117 | It changes no byte of another piece |
| DownloadLaws.OthersKeptIff | bt/src/base/download.rs:112-117 | The length of the data is never checked: whatever `n` bytes are written, all other pieces keep their bytes if and only if the data ends inside its piece |
| DownloadLaws.StoreKeepsVerifiedIff | bt/src/base/download.rs:106-130 | From a state in which every complete piece has all its blocks and the right hash, a call leads to such a state if and only if line 130 is in its meant form, or the block was held, or it was the last of its piece |
| DownloadLaws.HeldChangesNothing | bt/src/base/download.rs:107-110 | A call for a block that is held changes nothing and announces nothing |
| DownloadLaws.CompletedIsFinal | bt/src/base/download.rs:107-110 | A complete piece stays complete and its bytes never change again |
| DownloadLaws.FailedCheckStartsOver | bt/src/base/download.rs:121-128 | A failed check takes back every block of its piece, touches no other piece, renames and announces nothing, and the piece lists all blocks of a new one as missing |
| DownloadLaws.InitLayout | bt/src/base/download.rs:264-275 | The state that the download starts in satisfies the invariants, with no piece complete |
| AnnouncementLaws.FilePiecesOverlap | bt/src/base/download.rs:160-163 | For a non-empty file the pieces `low..=high` are exactly those that share a byte with it |
| AnnouncementLaws.FilePiecesExist | bt/src/base/download.rs:160-163 | For every file that the check after a piece visits, line 161 does not underflow and the range `low..=high` neither leaves the vector of pieces nor is reversed by more than one, so line 163 does not panic |
| AnnouncementLaws.VerifyFileAt | bt/src/base/download.rs:151-196 | A non-empty file is renamed and announced by the check after piece `p` if and only if it overlaps the piece, all its pieces are complete and it still has its temporary name |
| AnnouncementLaws.StoreKeepsAnnounced | bt/src/base/download.rs:99-149 | Every call keeps the story: `PieceCompleted` once for each complete piece, `DownloadCompleted` once when all are and after all of them, each non-empty file finished once exactly when all its pieces are complete |
| AnnouncementLaws.InitIsAnnounced | bt/src/base/download.rs:264-275 | The story holds at the start |
| AnnouncementLaws.StoreTells | bt/src/base/download.rs:132-146 | A call only adds to what was announced, announces only complete pieces, and every piece that it completes |
| AnnouncementLaws.StoreTellsBlock | bt/src/base/download.rs:132-136 | A call announces its block, once, if and only if it stores it and the hash does not fail, and no other block |
| DownloadRuns.EveryRunIsAnnounced | bt/src/base/download.rs:99-149 | The story holds after every sequence of calls with any data that ends inside the torrent, in both readings of line 130 |
| DownloadRuns.EveryRunVerifiedIff | bt/src/base/download.rs:99-149 | After every sequence of calls all complete pieces are verified, if and only if line 130 is in its meant form or no piece has a second block |
| DownloadRuns.CompletedIsFinalInRuns | bt/src/base/download.rs:107-110 | Whatever calls follow, a complete piece keeps its state and its bytes |
| DownloadRuns.AllFilesFinished | bt/src/base/download.rs:151-196 | Once the download is complete every non-empty file has its own name and was announced once, and so was the end |
| DownloadRuns.RetrievePanicsIff | bt/src/base/download.rs:401-430 | A request makes the download loop panic if and only if its piece does not exist, or is complete and the request ends past the torrent or begins where nothing lies, at its end |
| DownloadRuns.RetrievedIsVerified | bt/src/base/download.rs:198-214 | A request inside its piece is refused if and only if the piece is not complete; else it is answered with that slice of a range whose hash is that of the torrent, unless it is empty and at the very end of the torrent, where the source panics |
| DownloadRuns.EmptyRequestAtTheEnd | bt/src/base/download.rs:401-415 | For one, once the torrent of one block is there, an empty request at the end of its piece makes the download loop panic |
| DownloadRuns.OverlongReadsOn | bt/src/base/download.rs:198-214 | A request that goes past its complete piece is answered with the rest of the piece and then the bytes of the next one, complete or not |
| DownloadRuns.RetrievedIsOwnIff | bt/src/base/download.rs:198-214 | The answer to a request for at least one byte depends on no byte but those of its own piece if and only if the request stays inside the piece |
| DownloadRuns.IncompleteIsExactIff | bt/src/base/download.rs:216-228 | The answer lists, in order, exactly the blocks that are missing, if and only if a complete piece has all its blocks |
| DownloadRuns.ListedBlocksFit | bt/src/base/download.rs:216-228 | Every block listed is one of the piece, of its exact length and not there yet; it lies inside the piece, so its offset fits 32 bits |
| DownloadRuns.OneBlockDownloads | bt/src/base/download.rs:99-149 | The smallest case in full: for every hash function, the data of a torrent of one file in one block downloads it in one call, and file, block, piece and end are announced in this order |
| DownloadFinishes.TrueStoreKeeps | bt/src/base/download.rs:99-149 | A call with true data keeps that each marked block holds its bytes and a piece is complete exactly when all its blocks are there; it marks its block and takes no mark back |
| DownloadFinishes.TrueRunDownloads | bt/src/base/download.rs:99-149 | For contents with the hashes of the torrent, any calls with true data that cover all blocks, in any order and with repeats, from files with any bytes, end with every piece complete, the contents on disk, every non-empty file renamed and the end announced once |
| DownloadFinishes.AlwaysDownloadsIff | bt/src/base/download.rs:99-149 | Every such run ends with the contents if and only if line 130 is in its meant form or no piece has a second block |
| DownloadFinishes.UpToAreTrue | bt/src/base/download.rs:216-228 | Asking for the blocks one after the other is a run with true data that covers them |
| DownloadClass.Download.constructor | bt/src/base/download.rs:264-275 | Makes the start state over files of the right sizes, for every layout and any piece length, lengths cut to 32 bits included; it satisfies the invariants if line 161 cannot underflow and no length is cut |
| DownloadClass.Download.Verify | bt/src/base/download.rs:308-324 | Reads the piece back from the files; the flag is whether the hash matches, and nothing else changes |
| DownloadClass.Download.RenameTempFile | bt/src/base/download.rs:177-196 | Strips the temporary name and announces the file, or does nothing |
| DownloadClass.Download.VerifyFile | bt/src/base/download.rs:151-175 | The loop over the files of a piece does what `VerifyFileAt` is about |
| DownloadClass.Download.ResetBlocks | bt/src/base/download.rs:81-85 | The loop takes back the flag of every block and nothing else |
| DownloadClass.Download.Announce | bt/src/base/download.rs:132-146 | File checks, then the block, the piece and the end are announced in this order |
| DownloadClass.Download.CheckPiece | bt/src/base/download.rs:121-130 | Whether there is something to announce, and the piece marked or started over |
| DownloadClass.Download.Store | bt/src/base/download.rs:99-149 | The whole new state, files in place included, is that of the machine that `StoreKeepsVerifiedIff` and `StoreKeepsAnnounced` are about, for every block that exists and any data that ends inside the torrent |
| DownloadClass.Download.RetrieveData | bt/src/base/download.rs:198-214 | For every request, the data read from the files, the refusal, or the panic that `RetrievePanicsIff` is about; nothing changes |
| DownloadClass.Download.IncompleteBlocksForPiece | bt/src/base/download.rs:216-228 | The loop lists what `IncompleteIsExactIff` is about |
| DownloadClass.Download.HavePieces | bt/src/base/download.rs:241-247 | The loop copies the flags of the pieces |
| Wire.SplitU32 | bt/src/base/ipc.rs:115-125 | Taking off the bytes one after the other gives the four digits to base 256 |
| Wire.U32RoundTrips | bt/src/base/ipc.rs:108-125 | Four bytes of a number, whatever follows, are the number again |
| Wire.BytesRoundTrip | bt/src/base/ipc.rs:108-125 | The number of four bytes has those bytes again |
| Wire.SerializeMessage | bt/src/base/ipc.rs:59-100 | Pushes the size and the payload of a message |
| Wire.PayloadParsesIff | bt/src/base/ipc.rs:28-57 | A payload is parsed back if and only if it is not a `Piece` under id 6; that one comes out as a `Request` or not at all |
| Wire.ReadFrame | bt/src/peer/peer_connection.rs:394-405 | A frame is cut at its end, whatever is in it and after it |
| Wire.ReadLoop | bt/src/peer/peer_connection.rs:385-409 | The loop reads the messages that `StreamRoundTripIff` is about |
| Wire.MessageRoundTripIff | bt/src/base/ipc.rs:27-101 | A message with anything after it is read back if and only if it is not a `Piece` under id 6 |
| Wire.StreamRoundTripIff | bt/src/peer/peer_connection.rs:385-409 | Any sequence of messages, serialized and concatenated, is split and parsed back to the same sequence if and only if the id is 7 or none is a `Piece` |
| WireFormat.NumbersAreBigEndian | bt/src/base/ipc.rs:103-125 | Numbers are four bytes on the wire, the first one counting most |
| WireFormat.WrittenIsPayload | bt/src/base/ipc.rs:59-100 | What is written for each message is what the table of the protocol has for it, in literal ids and places, behind its length as four bytes |
| WireFormat.ParsesIff | bt/src/base/ipc.rs:27-57 | A payload is read as a message if and only if its id is that of the message and its fields are at their places; bytes after the fields of a message without data are not looked at, and any other payload is a panic |
| BitfieldLaws.PackedBit | bt/src/peer/peer_connection.rs:234-251 | Bit `k` of the bitfield sent, counted from the highest bit of each byte, is whether we have piece `k`, spare bits are zero, and its length is the exact ceiling |
| BitfieldLaws.TakenBits | bt/src/peer/peer_connection.rs:473-487 | The loop over a bitfield received sets each piece to its bit, counted from the highest bit of each byte |
| BitfieldLaws.BitfieldRoundTrips | bt/src/peer/peer_connection.rs:234-251 | A bitfield packed by one side and taken by the other arrives as the same pieces |
| PeerModel.NumBytesIsCeiling | bt/src/peer/peer_connection.rs:235-236 | The number of bytes, computed by a floating division, is the exact ceiling |
| PeerRequestLaws.AddNeverFails | bt/src/peer/peer_connection.rs:156-169 | A block that is still to be requested is never already requested, so `add` at line 160 does not fail |
| PeerRequestLaws.RequestOneKeeps | bt/src/peer/peer_connection.rs:146-171 | One turn of the loop keeps the request invariant and sends a request at block index times block size |
| PeerRequestLaws.HandleKeepsRequests | bt/src/peer/peer_connection.rs:345-375 | Every event keeps it: at most ten requests, no two for one block, none for a block still to be requested, each at its block's offset and, like all ever sent, for a whole block of a piece that the peer has announced; pending work implies that we are interested |
| PeerSentLaws.HandleKeepsBooks | bt/src/peer/peer_connection.rs:345-375 | Requests sent are those outstanding plus those that a `Piece` took off plus `Cancel`s sent; `Interested` and `NotInterested` strictly alternate, the last one telling the flag |
| PeerSentLaws.RequestsWhileAllowed | bt/src/peer/peer_connection.rs:134-172 | A request is sent only while unchoked and interested |
| PeerUploadLaws.HandleKeepsUploads | bt/src/peer/peer_connection.rs:174-196 | Every event keeps the order of uploads: they are accepted requests in the order of acceptance, none twice, those still queued after them |
| PeerUploadLaws.HandleHas | bt/src/peer/peer_connection.rs:359-366 | Only the completion of a piece changes what we have, and only it is advertised by `Have`; no event sends a bitfield; every `Piece` sent carries the download loop's answer to a request for that place |
| PeerWorkLaws.QueueBlocksQueues | bt/src/peer/peer_connection.rs:198-216 | Every block listed as missing is queued unless it is outstanding, what was queued stays, and nothing else comes |
| PeerWorkLaws.HandlePends | bt/src/peer/peer_connection.rs:345-375 | The blocks pending after an event, queued or requested, are those pending before and those that it announces and we miss, but for the one that it brings or cancels |
| PeerWorkLaws.HandleAsked | bt/src/peer/peer_connection.rs:134-172 | A block is outstanding after an event if and only if it was and has not come, or a `Request` for it, at its place, has been sent in the event |
| PeerWorkLaws.HandleFills | bt/src/peer/peer_connection.rs:134-172 | After an unchoke, an announcement or a block received, ten requests are out or none is left to make, unless we are choked |
| PeerWorkLaws.HandleInterest | bt/src/peer/peer_connection.rs:218-232 | After an announcement, a block or a piece, we are interested if and only if a block is pending; other events leave that alone |
| PeerServiceLaws.HandleServes | bt/src/peer/peer_connection.rs:174-196 | An event uploads if and only if it is a request, the end of an upload or the first interest, nothing else is being uploaded, the peer is unchoked and interested, and a request waits: then exactly one `Piece`, for the first request that waits, with the download loop's data, or the end of the connection if it has none; requests wait in the order of arrival, one for each block, until served or cancelled |
| PeerServiceLaws.HandleFlags | bt/src/peer/peer_connection.rs:442-524 | Each flag of either side, and what we know the peer to have, is changed by its own messages only; the peer is told `UnChoke` exactly when it is unchoked, and never choked |
| PeerServiceLaws.HandleAdvertises | bt/src/peer/peer_connection.rs:359-366 | The completion of a piece is advertised by exactly one `Have`, and no other event sends one |
| PeerServiceLaws.StartSays | bt/src/peer/peer_connection.rs:289-325 | A connection starts with both sides choked and not interested, nothing known of the peer, nothing asked for, and one message sent: the bitfield of what we have |
| PeerRuns.RunKeepsSound | bt/src/peer/peer_connection.rs:327-376 | Every sequence of events keeps all these invariants |
| PeerRuns.EveryRunIsSound | bt/src/peer/peer_connection.rs:327-376 | They hold after every run from the start of a connection |
| PeerRuns.StepKeepsOneUpload | bt/src/peer/peer_connection.rs:411-440 | Every step of the event loop, the read loop, the write loop or the manager keeps the number of `Piece` messages unwritten plus notices unhandled at 1 while an upload is in progress and at 0 otherwise |
| PeerRuns.EveryTraceHasOneUpload | bt/src/peer/peer_connection.rs:411-440 | So it is in every state of every interleaving, together with the invariants of the connection |
| PeerHistory.PendingIff | bt/src/peer/peer_connection.rs:327-376 | In every run a block is pending if and only if the peer has announced its piece while the block was missing, and it has neither come nor been cancelled since: none is forgotten and none made up |
| PeerHistory.LastWordHolds | bt/src/peer/peer_connection.rs:442-465 | In every run we are unchoked, and the peer is interested, exactly while the last word on it says so |
| PeerHistory.UnchokedOnce | bt/src/peer/peer_connection.rs:456-464 | In every run the peer is unchoked from its first interest on, and has been told so exactly then |
| PeerHistory.TheyHaveIff | bt/src/peer/peer_connection.rs:466-488 | In every run we take the peer to have a piece if and only if it has said so, by `Have` or by a bit, and no later bitfield has taken it back |
| PeerConnectionClass.RequestQueue.Position | bt/src/peer/peer_connection.rs:605-609 | The first request for the block |
| PeerConnectionClass.RequestQueue.Has | bt/src/peer/peer_connection.rs:562-564 | Whether there is one |
| PeerConnectionClass.RequestQueue.Add | bt/src/peer/peer_connection.rs:566-585 | Appends unless the block is queued, and says which |
| PeerConnectionClass.RequestQueue.Pop | bt/src/peer/peer_connection.rs:587-593 | Takes the first one off |
| PeerConnectionClass.RequestQueue.Remove | bt/src/peer/peer_connection.rs:595-603 | Takes the first match out and leaves the others in order |
| PeerConnectionClass.PeerConnection.constructor | bt/src/peer/peer_connection.rs:304-325 | Both sides choked and not interested, nothing requested, and our bitfield sent |
| PeerConnectionClass.PeerConnection.SendBitfield | bt/src/peer/peer_connection.rs:234-251 | The loop packs the bits that `PackedBit` is about |
| PeerConnectionClass.PeerConnection.RequestMoreBlocks | bt/src/peer/peer_connection.rs:134-172 | The loop moves blocks from the map to the list and sends their requests, until ten are out or none is left, whichever keys come first |
| PeerConnectionClass.PeerConnection.UploadNextBlock | bt/src/peer/peer_connection.rs:174-196 | Sends the download loop's answer to the first queued request and raises the flag, unless an upload is in progress or the peer is choked, not interested or has asked for nothing |
| PeerConnectionClass.PeerConnection.QueueBlocks | bt/src/peer/peer_connection.rs:198-216 | The loop queues the missing blocks that are not requested yet |
| PeerConnectionClass.PeerConnection.UpdateMyInterestedStatus | bt/src/peer/peer_connection.rs:218-232 | Sets the flag to whether work is pending and tells the peer exactly when it changed |
| PeerConnectionClass.PeerConnection.TakeBitfield | bt/src/peer/peer_connection.rs:473-488 | The loop takes the bits and queues what we miss of each piece set |
| PeerConnectionClass.PeerConnection.ProcessMessage | bt/src/peer/peer_connection.rs:442-524 | The whole new state after each message is that of the machine that `HandleKeepsRequests` is about |
| PeerConnectionClass.PeerConnection.CancelBlock | bt/src/peer/peer_connection.rs:347-358 | A block that came from elsewhere is no longer wanted, and its request is cancelled |
| PeerConnectionClass.PeerConnection.HandleIpc | bt/src/peer/peer_connection.rs:345-375 | The same for every event of the loop |
| ManagerModel.OnConnectionKeepsIff | bt/src/base/manager.rs:70-84 | From a tidy book (at most thirty connected, nobody waiting twice or while connected) a `Connection` event never fails `connect`, and leaves the book tidy if and only if the peer does not wait with the other handshake order |
| ManagerModel.DisconnectKeeps | bt/src/base/manager.rs:221-227 | The end of a connection keeps the book tidy |
| ManagerModel.ReplaceKeeps | bt/src/base/manager.rs:53-63 | One replacement never fails `connect`, keeps the book tidy and keeps everybody else |
| ManagerModel.ReplaceAllKeeps | bt/src/base/manager.rs:50-68 | Nor do all replacements after a broadcast |
| ManagerModel.ReplaceAllFrame | bt/src/base/manager.rs:50-68 | Connections keep their numbers, and a peer is registered with an old one only if it was and did not fail |
| ManagerModel.ProcessKeeps | bt/src/base/manager.rs:36-108 | While all connections are asked for with one handshake order, no event fails `connect`, and each keeps the book tidy |
| ManagerModel.EveryRunIsTidy | bt/src/base/manager.rs:94-102 | From the start, over every sequence of connections asked for with the handshake sent first, ends of connections and broadcasts, the book stays tidy and the assertion in `connect` never fails |
| ManagerModel.MixedOrdersFail | bt/src/base/manager.rs:128 | Latent: a run from the start, thirty connections and one more peer asked for in both orders, that makes the assertion fail; nothing in the program asks for the second order |
| ManagerRuns.DisconnectTakesOut | bt/src/base/manager.rs:221-227 | The end of a connection takes its peer out of the book and changes nothing else |
| ManagerRuns.ReplaceAllIs | bt/src/base/manager.rs:50-68 | After a broadcast those found gone are out, and as many of those who wait are let in, in their order, each with a connection of its own; everybody else is as before |
| ManagerRuns.ProcessMakes | bt/src/base/manager.rs:36-108 | Which connections each event makes and who then waits: a peer asked for that is neither registered nor waiting gets one at once while fewer than thirty are registered, and else waits last |
| ManagerRuns.RegisteredIff | bt/src/base/manager.rs:36-227 | In every run a peer is registered if and only if a connection to it has been made that has neither ended nor been found gone since |
| ManagerRuns.RegisteredWithLatest | bt/src/base/manager.rs:111-141 | In every run a registered peer is so with the latest connection made to it |
| ManagerRuns.FirstComeFirstServed | bt/src/base/manager.rs:50-83 | In every run those let in by broadcasts, followed by those who wait, are those who have had to wait, in the order in which they came |
| ManagerRuns.WaitingIsPassedOver | bt/src/base/manager.rs:70-84 | However many places are free, asking again for a peer that waits changes nothing, and the end of a connection lets nobody in |
| ManagerRuns.PlaceStaysFree | bt/src/base/manager.rs:221-227 | For one, a run after which a peer waits while only twenty-nine are registered |
| ManagerClass.Manager.Connect | bt/src/base/manager.rs:111-141 | Registers the peer with a fresh queue |
| ManagerClass.Manager.ProcessConnection | bt/src/base/manager.rs:70-84 | Ignores, connects or queues the peer, and keeps the book tidy if and only if the peer does not wait with the other handshake order |
| ManagerClass.Manager.ProcessDisconnect | bt/src/base/manager.rs:221-227 | Forgets the peer and nothing else |
| ManagerClass.Manager.SendToAll | bt/src/base/manager.rs:41-49 | In whatever order the map is walked, every registered connection that is there gets the message exactly once, no other queue changes, and exactly the others are listed, once each |
| ManagerClass.Manager.ReplaceEach | bt/src/base/manager.rs:50-68 | The listed peers are replaced one after the other |
| ManagerClass.Manager.ProcessBroadcast | bt/src/base/manager.rs:39-69 | Both loops together: each queue gets the message as it should and the book is that after the replacements |
| SwarmLaws.HandleStaysTrue | bt/src/peer/peer_connection.rs:345-375 | A connection's own step, on answers of the download loop, adds no false word to what it has or has told its peer, and keeps all its invariants |
| SwarmLaws.HandleUploadsTrue | bt/src/peer/peer_connection.rs:174-196 | And it uploads nothing but slices of complete pieces, as they are on disk, where the request lies inside its piece |
| SwarmLaws.ServedIsTrue | bt/src/base/download.rs:198-214 | Whatever the download loop serves is of a complete piece, and is that slice of it where the request lies inside the piece |
| SwarmLaws.AnswersAreGood | bt/src/base/download.rs:216-228 | Whatever it lists as missing, at any time, are blocks of the torrent |
| SwarmLaws.StartIsTrue | bt/src/peer/peer_connection.rs:289-295 | The snapshot of the pieces, and the bitfield made of it, are true |
| SwarmLaws.SnapshotKeeps | bt/src/peer/peer_connection.rs:289-295 | Taking the snapshot at any time keeps the invariant |
| SwarmLaws.StoreKeeps | bt/src/base/download.rs:136-146 | A call of `store` keeps the invariant, for any data that ends inside the torrent: it loses and invents no completion, and keeps uploads true as long as the data stay inside their pieces |
| SwarmLaws.SendToKeeps | bt/src/base/manager.rs:41-49 | So does each send of a broadcast |
| SwarmLaws.ManagerKeeps | bt/src/base/manager.rs:39-84 | So does whatever the manager makes, keeps or forgets between broadcasts |
| SwarmLaws.MainKeeps | bt/src/peer/peer_connection.rs:345-375 | So does each event that a connection handles |
| SwarmLaws.NextKeeps | bt/src/base/manager.rs:36-141 | No step of the system fails the assertion in `connect`, and every one keeps the invariant: each complete piece has reached every registered connection that runs and has its snapshot, or is in its queue or still with the manager; everything on its way, noted or told to a peer is of a complete piece; as long as all data stored stayed inside its piece, every upload inside a piece is of its bytes; the book is tidy and each connection sound |
| SwarmLaws.EveryTraceKeeps | bt/src/base/manager.rs:36-141 | So it is in every state of every interleaving from fresh files on, whatever data is stored that ends inside the torrent, and no move that is possible there fails |
| SwarmLaws.UploadsAreVerified | bt/src/base/download.rs:198-214 | In every such state, what has been uploaded to any peer is of a complete piece; as long as all data stored stayed inside its piece, an upload inside its piece is that slice of the piece as it is on disk, and if line 130 does no harm the piece has the hash of the torrent |
| SwarmLaws.InsideIff | bt/src/base/download.rs:112-117 | The flag that these two speak of tells exactly whether every call of `store` so far had data that lies inside its piece |
| SwarmLaws.RequestsAreReal | bt/src/peer/peer_connection.rs:134-172 | And every request sent to any peer is for a block of the torrent, at its place and of its exact length |
| SwarmLaws.BroadcastsAreWellFormed | bt/src/peer/peer_connection.rs:359-360 | In every such state a broadcast does not make a running connection index out of its pieces |
| SwarmLaws.QuietMeansAgreed | bt/src/peer/peer_connection.rs:289-295 | Once the queues have run dry, every registered connection that runs has exactly the complete pieces |
| SwarmRuns.DownloadIsRun | bt/src/base/download.rs:99-149 | In every interleaving the download is what its calls of `store` so far make of fresh files, so what is proved of all runs of calls holds in the system |
| SwarmRuns.ManagerIsRun | bt/src/base/manager.rs:36-227 | In every interleaving the manager's book is what its events so far make of the empty one, so what is proved of all courses of the book holds in the system |
| SwarmRuns.QueuesKeepOrder | bt/src/base/manager.rs:41-49 | In every interleaving what has been put into a connection's queue is what it has handled followed by what is still there: all of it, in order, once |
| SwarmRuns.ConnIsRun | bt/src/peer/peer_connection.rs:327-376 | In every interleaving each connection is what the events that it has handled make of its start, so what is proved of all courses of a connection holds in the system |
| SwarmRuns.EveryEventIsBroadcast | bt/src/base/download.rs:132-146 | In every interleaving each event of the download but the renaming of a file is broadcast as it is to all peers registered then |
| SwarmRuns.BroadcastsGoRound | bt/src/base/manager.rs:39-69 | In every interleaving a broadcast has still to send to all peers registered when it began but those whose turn has come, and has noted for replacement exactly those whose connection had gone by their turn, in that order |
| SwarmRuns.OpenUntilClosed | bt/src/peer/peer_connection.rs:327-376 | In every interleaving a connection is open from when it is made until it is closed |

## Left out

- Real file input and output: short reads, failed writes, seeks, directories and the renames on disk. A file is an
  array of bytes of its final size, and a rename is the change of its path.
- SHA-1 itself: a parameter of the theorems.
- Sockets, the handshake, timeouts, spawning and the bounds of channels. The theorems are about safety; none
  says that something happens in the end or that nothing blocks.
- Trackers, the terminal, `Display`, hexadecimal output and error texts.
- `read_last_field`, `read_field_combine` and `TorrentMetaInfo::decode`: the two decoders disagree there, as a
  missing `announce-list` is an error for one and `None` for the other.
- Integer types other than `i64`, `u64` and a 64-bit `usize`; the metainfo has no others.
- Panics on malformed peer messages: a body that is too short or an unknown id is `None` in `Wire`; an index or a
  bitfield that does not fit the torrent is excluded by `PeerModel.WellFormed`.
- Forwarding a received `Piece` to the download loop: in `Swarm` the download may be asked to store any block at any
  time, which covers it.
- The end of the whole download loop when a peer asks for a piece that is not complete or does not exist, for a range
  that ends past the torrent, or for no bytes at its very end: in `Swarm` the connection that asked gets a failed answer
  and ends. Any later answer may fail too, so the runs in which the loop has ended are among those of the theorems.
- Hashes, final bytes and uploads once data has been stored that runs past its piece, beyond `OthersKeptIff`; what is
  announced and told to peers is proved for it, and shorter data is in everywhere.
- Layouts on which line 161 underflows, beyond `NeverUnderflowsIff`: the source panics at the first announcement of its
  first piece.
- The exhaustion of the stack by deeply nested input.
- DecoderClass.Decoder.Skip: does not model the overflow of `pos + n` for lengths close to 2^64, where a build with
  overflow checks panics; the model answers `Eof`. `SkipWrapsIff` has the build without them.
- DownloadClass.Download.Store: is stated for blocks that exist and data that ends inside the torrent, as the source
  panics on others.
- SwarmLaws.RequestsAreReal: an event is one step, and the lists of missing blocks that it asks for may be of any time;
  data to upload is of the time of the event, which asks for it last.
- SwarmLaws.EveryTraceKeeps: speaks of connections by the number under which the manager made them; that the
  notice of an ended connection can unregister a newer connection to the same peer is covered, and such a
  connection is then no longer promised anything.
