# A verified model of the core of `bit_torrent`

`bit_torrent` is a small BitTorrent client written in Rust. This project models
its core in Dafny and proves properties of that model. The core is:

- the **bencode codec** (`src/bencode.rs`), and the older string-based codec
  in `src/lib.rs`;
- the **peer wire messages** of BEP 3 (`src/messages.rs`): the handshake, and
  the Choke, UnChoke, Interested, NotInterested, Have and BitField messages;
- the **bitfield** a peer advertises (`src/bitfield.rs`);
- the **peer list of an announce response** (`src/tracker.rs`): the compact
  six-byte form of BEP 23, the list-of-dictionaries form of BEP 3, and the
  dispatch between the two;
- the **download bookkeeping** (`src/torrent.rs`): laying out pieces and
  16 KiB blocks, choosing the next block to request, filling blocks, and
  measuring progress;
- the two **metainfo readers** (`src/meta_info_file.rs` and
  `src/bit_torrent_data.rs`);
- the byte helpers in `src/util.rs`.

Modules, one per file:

| file | module | models |
|---|---|---|
| `rust_types.dfy` | `RustTypes` | the integer widths, `Option`, `Result`, and `Outcome`, the value-or-panic of an expression that may panic |
| `util.dfy` | `Util` | `read_be_u32`, `attach_bytes`, `to_be_bytes` and `from_be_bytes` |
| `decimal.dfy` | `Decimal` | `to_string` and `str::parse` on integers, as used by the codecs |
| `bencode.dfy` | `Bencode` | the value type, the `BTreeMap` of a dictionary as a sorted entry sequence, the encoding, and `bencode` |
| `bencode_decode.dfy` | `BencodeDecode` | the parsers and `bdecode` of `src/bencode.rs` |
| `bencode_properties.dfy` | `BencodeProperties` | round trip, well-formedness and error positions of the codec |
| `lib_bencode.dfy` | `LibBencode` | the string codec of `src/lib.rs`, as written and with its stopping index corrected |
| `lib_bencode_properties.dfy` | `LibBencodeProperties` | what that codec reads back, and where it goes wrong |
| `bitfield.dfy` | `BitFields` | `BitField`, as a class over a byte array |
| `messages.dfy` | `Messages` | message and handshake serialisation and parsing |
| `tracker.dfy` | `Tracker` | the two peer-list forms and the response dispatch |
| `torrent.dfy` | `Torrents` | `Torrent`, as a class whose methods update its pieces |
| `meta_info_file.dfy` | `MetaInfo` | the `MetaInfoFile` reader, with single-file and multi-file torrents |
| `bit_torrent_data.dfy` | `BitTorrentData` | the second, simpler `MetaInfoFile` reader |

Modelling conventions:

- Bytes are integers in `0..255`. A Rust `String` built from bytes is kept as
  those bytes.
- A Rust panic (`unwrap` on `None` or `Err`, a failed index, an out-of-range
  slice, an arithmetic overflow in a debug build) is the `Panic` case of
  `Outcome`.
- Code the client calls but that is not part of this model is a parameter:
  - UTF-8 validation (`utf8`);
  - SHA-1 and its hex encoding (`sha1`, `hexSha1`);
  - IPv4 address parsing (`parseIp`);
  - the clock: `Instant::now()` is a parameter `now`, counted in nanoseconds.

## Model

| member | source | states |
|---|---|---|
| `Util.U32FromBeToBe` | src/util.rs:4-8 | the big-endian bytes of a `u32` decode back to that number |
| `Util.U32ToBeFromBe` | src/util.rs:4-8 | every four bytes are the encoding of the number they decode to |
| `Util.ReadBeU32` | src/util.rs:4-8 | `read_be_u32` returns the number whose big-endian bytes are the first four, and the input advanced by four |
| `Util.ReadBeU32OfEncoding` | src/util.rs:4-8 | reading a `u32` back from its encoding followed by anything gives the number and the rest |
| `Util.AttachBytes` | src/util.rs:10-12 | `attach_bytes` is as long as its parts together |
| `Util.AttachBytesPart` | src/util.rs:10-12 | each part appears in the result at its offset, unchanged and in order |
| `Util.AttachBytesAppend` | src/util.rs:10-12 | attaching distributes over concatenation of the list of parts |
| `Decimal.FormatNat` | src/bencode.rs:66 | `usize::to_string` writes digits only, with no leading zero, whose value is the number |
| `Decimal.FormatInt` | src/bencode.rs:74 | `i32::to_string` writes a minus sign before the magnitude exactly for negative numbers |
| `Decimal.ParseUnsigned` | src/bencode.rs:185-191 | `parse::<usize>` accepts a text exactly when, after at most one leading `+`, it is one or more digits whose value fits the type, and then gives that value |
| `Decimal.ParseUnsignedPadded` | src/bencode.rs:185-191 | an optional `+` and any number of leading zeros before the digits `to_string` writes for `n` parse to `n` when `n` fits the type and fail otherwise |
| `Decimal.ParseUnsignedFormatNat` | src/bencode.rs:185-191 | `parse::<usize>` reads back any length `to_string` wrote that fits the type |
| `Decimal.ParseSigned` | src/bencode.rs:215-217 | `parse::<i32>` accepts a text exactly when, after at most one leading `+` or `-`, it is one or more digits whose value, negated after `-`, lies in the type's range, and then gives that value; the empty text fails |
| `Decimal.ParseSignedPadded` | src/bencode.rs:215-217 | a `-` for a negative `n` (or an optional `+` otherwise) and any number of leading zeros before the digits of `|n|` parse to `n` when `n` is in the type's range and fail otherwise |
| `Decimal.ParseSignedFormatInt` | src/bencode.rs:215-217 | `parse::<i32>` reads back any integer `to_string` wrote that fits the type |
| `Bencode.Lookup` | src/bencode.rs:260 | `BTreeMap::get` finds a value exactly when an entry has that key, and returns that entry's value |
| `Bencode.InsertLookup` | src/bencode.rs:260 | after `insert(k, v)`, `k` maps to `v`; a previous value is replaced |
| `Bencode.InsertOthers` | src/bencode.rs:260 | `insert(k, v)` leaves every other key's value unchanged |
| `Bencode.InsertEntries` | src/bencode.rs:260 | every entry after an insertion is the new one or was there before |
| `Bencode.InsertSorted` | src/bencode.rs:260 | insertion keeps the keys strictly ascending, as a `BTreeMap` iterates them |
| `Bencode.InsertAllSorted` | src/bencode.rs:260 | inserting entries already in ascending key order appends them |
| `Bencode.EncodingFraming` | src/bencode.rs:63-119 | the first byte of an encoding names its kind: a digit, `i`, `l` or `d`; non-strings end with `e` and nothing starts with `e` |
| `Bencode.Bencode` | src/bencode.rs:63-119 | `bencode` never fails, and returns the BEP 3 bencoding of the value |
| `Bencode.BencodeByteString` | src/bencode.rs:65-71 | a byte string is written as its decimal length, `:`, and the bytes |
| `Bencode.BencodeList` | src/bencode.rs:79-94 | a list is written as `l`, each element's encoding in order, and `e` |
| `Bencode.BencodeDictionary` | src/bencode.rs:95-117 | a dictionary is written as `d`, each key and then its value in key order, and `e` |
| `BencodeDecode.ScanToFind` | src/bencode.rs:174-184 | the scan for a delimiter stops at its first occurrence, or at the end of the input |
| `BencodeDecode.ParseByteString` | src/bencode.rs:165-200 | `parse_byte_string` is the byte-string reading of the decoder, with each error at the position the source reports |
| `BencodeDecode.ParseInteger` | src/bencode.rs:202-220 | `parse_integer` reads the text up to the first `e` as an `i32` and stops one past the `e` |
| `BencodeDecode.ParseList` | src/bencode.rs:222-239 | `parse_list` reads values until an `e` stands where the next one would start |
| `BencodeDecode.ParseDictionary` | src/bencode.rs:241-275 | `parse_dictionary` reads key and value pairs into the map, and refuses a key that is not a byte string |
| `BencodeDecode.ParseBencodedValue` | src/bencode.rs:277-300 | `parse_bencoded_value` dispatches on the first byte; any other byte is `ParseInitiate` |
| `BencodeDecode.BDecode` | src/bencode.rs:302-317 | `bdecode` reads one value from index 0 and refuses bytes left after it with `ParseEnd` |
| `BencodeProperties.DecodeEncoding` | src/bencode.rs:302-317 | `bdecode(bencode(v)) == v` for every well-formed value |
| `BencodeProperties.ValueAtEncoding` | src/bencode.rs:277-300 | a value's encoding decodes to that value wherever it sits in the input, and the parser stops at its end |
| `BencodeProperties.DecodeTrailing` | src/bencode.rs:306-311 | bytes after a complete value are refused with `ParseEnd`, at the index where they start |
| `BencodeProperties.DecodeDictionary` | src/bencode.rs:241-275 | entries in any order, repeats included, decode to the map built by inserting them in order |
| `BencodeProperties.DuplicateKeyLastWins` | src/bencode.rs:260 | a key given twice keeps the value given last |
| `BencodeProperties.DecodeWellFormed` | src/bencode.rs:302-317 | everything `bdecode` accepts is a well-formed value, with sorted keys |
| `BencodeProperties.DecodeEncodeDecode` | src/main.rs:46-56 | decoding, encoding and decoding again gives the first decoded value |
| `BencodeProperties.UnterminatedList` | src/bencode.rs:232-234 | a list that runs out before its `e` fails with `ParseList` at the end of the input |
| `BencodeProperties.UnterminatedDictionary` | src/bencode.rs:244-246 | a dictionary that runs out before its `e` fails at the end of the input: with `ParseDictionary` when empty, and with `ParseByteStringLength` otherwise |
| `BencodeProperties.TruncatedByteString` | src/bencode.rs:192-194 | a byte string shorter than its length promises fails with `ParseByteString` at the colon |
| `BencodeProperties.NonByteStringKey` | src/bencode.rs:248-256 | a dictionary key that is not a byte string fails with `ParseDictionary` where the key starts |
| `LibBencode.ItemTexts` | src/lib.rs:20 | mapping `bencode` over a list gives, at each position, the encoding of that element |
| `LibBencode.EntryTexts` | src/lib.rs:25-28 | mapping over a dictionary gives, for each entry, its key's byte-string encoding followed by its value's encoding |
| `LibBencode.Bencode` | src/lib.rs:14-32 | the string bencoder writes exactly the bytes of the byte-based encoding for every value |
| `LibBencode.ByteStringAt` | src/lib.rs:54-70 | a byte string that is read stops after its last character, within the input |
| `LibBencode.ParseByteString` | src/lib.rs:54-70 | `parse_byte_string` follows the specification function: an `unwrap` on a bad length, or a slice past the end, panics |
| `LibBencode.ParseInteger` | src/lib.rs:72-83 | `parse_integer` returns the index of the closing `e` itself |
| `LibBencode.ParseList` | src/lib.rs:85-96 | `parse_list` stops at an `e` where a value would start and returns that `e`'s index |
| `LibBencode.ParseDictionary` | src/lib.rs:98-117 | `parse_dictionary` stops like `parse_list`, and refuses a key that is not a byte string |
| `LibBencode.ParseBencodedValue` | src/lib.rs:119-138 | `parse_bencoded_value` dispatches on the first character |
| `LibBencodeProperties.ByteStringAgrees` | src/lib.rs:54-70 | where the byte decoder reads a byte string, the string decoder reads the same one and stops in the same place |
| `LibBencodeProperties.IntegerAgrees` | src/lib.rs:72-83 | the string decoder reads the same integer and stops on its `e`, or one past it when corrected |
| `LibBencodeProperties.CorrectedValueAt` | src/lib.rs:119-138 | with the index corrected, the string decoder agrees with the byte decoder on everything the latter accepts |
| `LibBencodeProperties.CorrectedRoundTrip` | src/lib.rs:14-138 | with the index corrected, parsing `bencode(v)` from 0 gives `v` and stops at the end |
| `LibBencodeProperties.SafeRoundTrip` | src/lib.rs:14-138 | as written, every value whose containers end in their only non-string element is read back |
| `LibBencodeProperties.IntegerEndsList` | src/lib.rs:82-95 | as written, a list that starts with an integer is read back as a list of that integer alone |
| `LibBencodeProperties.UnterminatedInteger` | src/lib.rs:75-80 | an integer that runs out of input before its `e` is an error |
| `LibBencodeProperties.UnterminatedLength` | src/lib.rs:57-62 | a length that runs out of input before its `:` is an error |
| `LibBencodeProperties.BadLengthPanics` | src/lib.rs:63 | length text that is not a `usize` panics |
| `LibBencodeProperties.ShortByteStringPanics` | src/lib.rs:67 | a byte string shorter than its length promises panics on the slice |
| `LibBencodeProperties.BadIntegerPanics` | src/lib.rs:81 | integer text that is not an `i32` panics |
| `LibBencodeProperties.UnterminatedList` | src/lib.rs:88-93 | a list of byte strings that runs out before its `e` is an error |
| `LibBencodeProperties.NonByteStringKey` | src/lib.rs:103-107 | a dictionary key that is not a byte string is an error |
| `BitFields.Test` | src/bitfield.rs:51-82 | `is_set` fails with `InvalidBit(bit)` exactly when byte `bit / 8` does not exist |
| `BitFields.TestIsBit` | src/bitfield.rs:51-82 | `is_set` answers with bit `bit` of the most-significant-first reading of the bytes |
| `BitFields.Setting` | src/bitfield.rs:24-49 | `_set` keeps the length, and an out-of-range bit leaves the bytes unchanged |
| `BitFields.SettingBits` | src/bitfield.rs:24-49 | `_set(bit)` turns on that bit and changes no other |
| `BitFields.SetThenTest` | src/bitfield.rs:24-82 | after `_set(bit)` succeeds, `is_set(bit)` is `Ok(true)` |
| `BitFields.SetKeepsOthers` | src/bitfield.rs:24-82 | `_set(bit)` leaves every other bit's `is_set` answer unchanged |
| `BitFields.SettingIdempotent` | src/bitfield.rs:24-49 | setting a bit twice is setting it once |
| `BitFields.PaddingBitAccepted` | src/bitfield.rs:13-22 | the range check is against the bytes, so bits past `len` in the last byte are accepted |
| `BitFields.PredefinedBits` | src/bitfield.rs:125-133 | the bitfield `[1, 3, 5, 7]` has bits 7, 14, 15, 21, 23, 29, 30 and 31 set |
| `BitFields.BitField.New` | src/bitfield.rs:13-22 | `_new(size)` has `ceil(size / 8)` zero bytes and `len == size` |
| `BitFields.BitField.FromBytes` | src/bitfield.rs:85-90 | `From<Vec<u8>>` keeps the bytes and sets `len` to their number |
| `BitFields.BitField.IsSet` | src/bitfield.rs:51-82 | `is_set` on the current bytes: `InvalidBit` out of range, the bit otherwise |
| `BitFields.BitField.Set` | src/bitfield.rs:24-49 | `_set` ORs the mask into its byte, reports an out-of-range bit, and afterwards `is_set(bit)` holds |
| `Messages.Serialize` | src/messages.rs:79-104 | `serialize` panics exactly when the bitfield's length, cast to `u32`, is `u32::MAX` (`l as u32` wraps, then `1 + l` overflows); Have and BitField carry their id at byte 4 and BitField its bytes after it |
| `Messages.SerializedHave` | src/messages.rs:85-89 | a Have is length 5, id 4, the index in big-endian |
| `Messages.SerializedBitField` | src/messages.rs:96-100 | a BitField is length `1 + len`, id 5, the bytes |
| `Messages.New` | src/messages.rs:106-138 | `Message::new` panics on fewer than four bytes, reports a missing id, and reads the id at byte 4 and a bitfield from the bytes after it |
| `Messages.HaveRoundTrip` | src/messages.rs:79-138 | a Have is read back from its bytes, whatever follows them |
| `Messages.ReadBitField` | src/messages.rs:124-129 | a bitfield message takes `prefix - 1` bytes after its id, or as many as arrived |
| `Messages.BitFieldRoundTrip` | src/messages.rs:79-138 | a BitField is read back from its bytes, whatever follows them |
| `Messages.ChokeFamilyReadsAsUnChoke` | src/messages.rs:81-84 | Choke, UnChoke, Interested and NotInterested are all read back as UnChoke |
| `Messages.ChokeFamilyPrefixIsNotLength` | src/messages.rs:81-84 | for Choke, Interested and NotInterested the length prefix is the id, not the length |
| `Messages.SerializeBep3` | src/messages.rs:79-104 | the framing of BEP 3 panics in exactly the cases `serialize` does |
| `Messages.Bep3Frame` | src/messages.rs:79-104 | under BEP 3 framing every message is its length, its id and its payload |
| `Messages.Bep3PrefixIsLength` | src/messages.rs:79-104 | under BEP 3 framing the prefix counts exactly the bytes after it |
| `Messages.Bep3RoundTrip` | src/messages.rs:106-138 | `Message::new` reads every BEP 3 framed message back as itself |
| `Messages.UnknownIds` | src/messages.rs:130-136 | ids 6 to 8 are `Unimplemented`, and an id above 8 is `Id(id)` |
| `Messages.ShortHavePanics` | src/messages.rs:118-120 | a Have whose index is cut short panics |
| `Messages.ZeroLengthBitFieldPanics` | src/messages.rs:124-125 | a bitfield message with length 0 underflows and panics |
| `Messages.SerializeHandshake` | src/messages.rs:142-154 | the handshake is pstrlen 19, `BitTorrent protocol`, 8 zero bytes, the info hash and the peer id |
| `Messages.NewHandshake` | src/messages.rs:156-181 | `Handshake::new` succeeds exactly when all 49 + pstrlen bytes are there and the protocol string is UTF-8; both fields are 20 bytes |
| `Messages.HandshakeRoundTrip` | src/messages.rs:142-181 | a handshake with 20-byte fields is 68 bytes and is read back, whatever follows |
| `Messages.TruncatedHandshake` | src/messages.rs:156-181 | a cut handshake fails on its first missing segment, in wire order |
| `Messages.HandshakeIgnoresProtocol` | src/messages.rs:163-170 | any UTF-8 protocol string of length 19 and any reserved bytes are accepted |
| `Tracker.CompactPeers` | src/tracker.rs:62-83 | the compact form fails with `MisalignedPeers` exactly when its length is not a multiple of 6, and gives one peer per 6 bytes |
| `Tracker.DecodeCompactPeers` | src/tracker.rs:62-83 | the `while` loop over the records computes the compact peer list |
| `Tracker.CompactPortIsFirstPort` | src/tracker.rs:70-74 | every compact peer gets the address of its own record and the port of the first record |
| `Tracker.Bep23Peers` | src/tracker.rs:62-83 | the BEP 23 reading fails exactly where the source's does, and gives one peer per record |
| `Tracker.Bep23RoundTrip` | src/tracker.rs:62-83 | the BEP 23 reading gives back the addresses that were written, in order |
| `Tracker.CompactAgreesIffSamePort` | src/tracker.rs:62-83 | the source agrees with BEP 23 exactly when every record carries the first record's port |
| `Tracker.CompactPortCounterexample` | src/tracker.rs:72 | two peers on different ports: the source reports the second on the first one's port |
| `Tracker.CompactExample` | src/tracker.rs:62-83 | two records of 73.140.205.84:8999 decode to that address twice |
| `Tracker.ListPeerReads` | src/tracker.rs:94-135 | one list element: a non-dictionary is `UnexpectedBencodable`; a dictionary is read exactly when its port is an integer, its ip a parsable byte string and its peer id a byte string, and then gives that address, the port's low 16 bits and the id |
| `Tracker.PeerListFrom` | src/tracker.rs:89-141 | the list form appends one peer per element it reads, after those read before |
| `Tracker.DecodePeerList` | src/tracker.rs:89-141 | the `for` loop computes the list-form peers |
| `Tracker.PeerListAllRead` | src/tracker.rs:89-141 | when every element is a usable peer dictionary, the result is their peers in order |
| `Tracker.PeerListStopsAtNonDictionary` | src/tracker.rs:136 | the first element that is not a dictionary ends the list with an error naming it |
| `Tracker.PortIsTruncated` | src/tracker.rs:132 | a port outside the `u16` range keeps its low 16 bits |
| `Tracker.PeersOfResponse` | src/tracker.rs:180-197 | a response that is not a dictionary, or has no `peers`, is refused with the matching error, and only a present `peers` can panic |
| `Tracker.DispatchOnPeers` | src/tracker.rs:188-197 | a byte string goes to the compact decoder, a list to the list decoder, and anything else is `NoPeerByteString` |
| `Torrents.CeilDiv` | src/torrent.rs:80-81 | `ceil(a / b)` is the least multiple count covering `a` |
| `Torrents.CoveringBlocks` | src/torrent.rs:80-81 | the last piece gets the fewest blocks that cover it |
| `Torrents.BlocksPerPiece` | src/torrent.rs:55-56 | the source's block count per piece is never fewer than the blocks that cover a piece, and is exact for a multiple of 16 KiB |
| `Torrents.BlocksPerPieceQuirk` | src/torrent.rs:55-56 | the source's block count per piece covers a piece exactly only when the remainder is 0 or 1 |
| `Torrents.NewBlocks` | src/torrent.rs:60-70 | a new piece's blocks are NotRequested at offsets `16384 * j` |
| `Torrents.NewPieces` | src/torrent.rs:58-100 | `new` lays out `n - 1` full pieces and a last piece of `total % piece_length` bytes with enough blocks to cover it |
| `Torrents.TotalBlocks` | src/torrent.rs:102 | `total_blocks` is at least the blocks needed to cover the full pieces and the last one, and its blocks hold at least that many bytes |
| `Torrents.NewPiecesSize` | src/torrent.rs:102 | the laid-out pieces hold exactly `total_blocks` blocks |
| `Torrents.NewPiecesBlocks` | src/torrent.rs:58-100 | in each full piece, block `j` of piece `i` is NotRequested, with index `j`, piece index `i`, offset `16384 * j` and no data |
| `Torrents.NewPiecesExample` | src/torrent.rs:242-259 | the test torrent has 1304 pieces of 8 blocks, a last piece of 49152 bytes and 3 blocks, and 10427 blocks in all |
| `Torrents.CountsAddUp` | src/torrent.rs:204-219 | the Done, Requested and NotRequested counts add up to the number of blocks |
| `Torrents.FirstBlock` | src/torrent.rs:119-142 | the first block of a piece that qualifies for a request |
| `Torrents.FirstFrom` | src/torrent.rs:116-148 | the first qualifying block of an eligible piece, with none qualifying in the eligible pieces before it |
| `Torrents.ChosenIsNotDone` | src/torrent.rs:121 | a Done block is never chosen |
| `Torrents.Qualifies` | src/torrent.rs:119-139 | a Done block never qualifies, a NotRequested one always does, and a Requested one exactly when its stamp is more than 15 seconds old |
| `Torrents.RequestedQualifiesWhenStale` | src/torrent.rs:126-134 | a Requested block is asked for again only after more than 15 seconds |
| `Torrents.StampedWaits` | src/torrent.rs:130-138 | a block just requested does not qualify again within 15 seconds |
| `Torrents.Filled` | src/torrent.rs:151-169 | `fill_block` keeps the layout, and an index or offset out of range changes nothing |
| `Torrents.FilledCountsDone` | src/torrent.rs:151-169 | filling a block that was not Done adds one to the Done count; filling it again adds nothing |
| `Torrents.FilledIdempotent` | src/torrent.rs:151-169 | filling the same block with the same data twice is filling it once |
| `Torrents.StampValid` | src/torrent.rs:137-138 | marking a block Requested keeps the block count and stamps it with its request time |
| `Torrents.FilledValid` | src/torrent.rs:151-169 | filling keeps the block count and the request stamps |
| `Torrents.AllDoneCount` | src/torrent.rs:190-202 | when every block is Done, the Done count is the number of blocks |
| `Torrents.ProgressAtMostOne` | src/torrent.rs:115-124 | the Done count never exceeds `total_blocks`, so `progress > 95.0` never holds |
| `Torrents.Torrent.New` | src/torrent.rs:50-111 | `Torrent::new` holds the laid-out pieces, `total_blocks` and the block count per piece, and its invariant holds |
| `Torrents.Torrent.GetNextBlock` | src/torrent.rs:114-148 | `get_next_block` returns the first qualifying block of an eligible piece, marks it Requested at `now`, and changes nothing else |
| `Torrents.Torrent.FillBlock` | src/torrent.rs:151-169 | `fill_block` marks the addressed block Done with its data and keeps the invariant |
| `Torrents.Torrent.Progress` | src/torrent.rs:204-219 | `progress` counts blocks per state, and the counts add up to `total_blocks` |
| `Torrents.Torrent.AreWeDoneYet` | src/torrent.rs:190-202 | `are_we_done_yet` holds exactly when every block is Done |
| `MetaInfo.Chunks` | src/meta_info_file.rs:120 | `chunks(20)` gives `ceil(n / 20)` pieces of 20 bytes, the last possibly shorter |
| `MetaInfo.ChunksCover` | src/meta_info_file.rs:120 | the chunks laid end to end are the input |
| `MetaInfo.ChunkAt` | src/meta_info_file.rs:120 | chunk `k` is bytes `20k` to `20k + 20`, or to the end |
| `MetaInfo.PieceHashes` | src/meta_info_file.rs:117-125 | `pieces` is the hex SHA-1 of every chunk, in order |
| `MetaInfo.SplitJoin` | src/meta_info_file.rs:196 | a path joined with `\` splits back into its components when none holds a `\` |
| `MetaInfo.PathComponents` | src/meta_info_file.rs:187-195 | the path succeeds exactly when every component is a UTF-8 byte string, and is their bytes |
| `MetaInfo.FileEntry` | src/meta_info_file.rs:173-207 | a file entry that is not a dictionary, or lacks `length`, panics; a non-integer `length` is the `length` error; otherwise length and joined path |
| `MetaInfo.FilesFrom` | src/meta_info_file.rs:164-210 | `files` succeeds exactly when every entry is read, and is those files in order |
| `MetaInfo.GetInfoFromBtm` | src/meta_info_file.rs:103-218 | a missing `piece length`, `pieces` or `name` panics and one of the wrong type is the matching `GenericError`; a non-UTF-8 name panics; an integer `length` is a single file; otherwise it panics exactly when `files` is not a list or one of its entries cannot be read |
| `MetaInfo.GetInfo` | src/meta_info_file.rs:220-235 | `get_info` panics unless the top level and `info` are dictionaries, and then reads `info` |
| `MetaInfo.FromBencodable` | src/meta_info_file.rs:237-276 | the metainfo is read exactly when `info` is read and `announce` is a UTF-8 byte string; `info_hash` is the SHA-1 of the bencoded `info` |
| `MetaInfo.SingleFileRoundTrip` | src/meta_info_file.rs:45-155 | a single-file info dictionary reads back as that file, with one piece per started 20 bytes and the file's length as total |
| `MetaInfo.FileDictionaryEntry` | src/meta_info_file.rs:173-207 | a file entry built from a length and components reads back as that file with the components joined |
| `MetaInfo.FilesRoundTrip` | src/meta_info_file.rs:164-210 | `files` built from lengths and paths reads back as those files, in order |
| `MetaInfo.MultiFileRoundTrip` | src/meta_info_file.rs:156-217 | a multi-file info dictionary without `length` reads back as its files |
| `MetaInfo.NumberOfPieces` | src/meta_info_file.rs:46-61 | `number_of_pieces` is the number of hashes when that fits a `u32`, and otherwise that number wrapped to 32 bits |
| `MetaInfo.SumLengths` | src/meta_info_file.rs:93 | the sum of the file lengths lies between `n` times the least and `n` times the greatest `i32`, and when no length is negative it is at least each of them |
| `MetaInfo.TotalLength` | src/meta_info_file.rs:80-95 | `total_length` is the single file's `i32` length, or the files' sum within the bounds that many `i32` values allow |
| `MetaInfo.PiecedContentOf` | src/meta_info_file.rs:45-95 | for an accepted info dictionary, the piece count is the number of 20-byte chunks of `pieces` (the last may be shorter), cast to `u32`, the piece length is the `piece length` integer, and the total is the `length` integer or the sum of the `files` lengths |
| `MetaInfo.MultiFileTotals` | src/meta_info_file.rs:45-95 | for a multi-file torrent the piece count is one per started 20 bytes and the total length is the sum of the files' lengths |
| `MetaInfo.FromNeedsDictionaries` | src/meta_info_file.rs:220-235 | a top level or `info` that is not a dictionary panics |
| `BitTorrentData.InfoOf` | src/bit_torrent_data.rs:39-64 | `info` is read exactly when its three fields are well typed and the name is UTF-8; `private` is `None` |
| `BitTorrentData.FromBencodable` | src/bit_torrent_data.rs:33-92 | the metainfo panics unless the dictionaries, `info` and `announce` are well formed, and every optional field is `None` |
| `BitTorrentData.SingleFileRoundTrip` | src/bit_torrent_data.rs:33-92 | the single-file dictionary the other reader accepts reads back with the same piece length and name, the raw `pieces` and no `length` |
| `BitTorrentData.MissingPieceLengthPanics` | src/bit_torrent_data.rs:40-44 | an `info` without `piece length` panics |

## Left out

- Text in `src/lib.rs` is a Rust `&str`, indexed by `chars().nth`. The model reads it as bytes, which is exact only for ASCII input.
- Floating point is not modelled:
  - the `f32` ceilings and floors in `Torrent::new` are written as integer division;
  - `BitFields.BitField.New` computes the byte count with the `f32` `ceil` of `size / 8` in the source, and as `(size + 7) / 8` here; the two can differ once `size` exceeds 2^24, where `size as f32` is rounded;
  - the `f32` progress fraction is replaced by the Done count it is computed from.
- I/O is not modelled: `to_file`, `From<FsFile>`, the HTTP announce request of `Tracker::track`, and every `println!`.
- SHA-1, hex encoding, UTF-8 validation and `Ipv4Addr` parsing are parameters of the functions that use them.
- `Instant::now()` is the parameter `now`. `get_next_block` calls it once for every Requested block it examines (src/torrent.rs:126) and once more when it stamps a block (src/torrent.rs:138); all of those readings are the one `now` of the call here.
- `HttpError` and `BdecodeFailure` come from the HTTP request and are never produced here.
- `Torrents.Torrent.New`: the `u32` products and offsets are unbounded here, so their overflow is not modelled.
- `Torrents.Torrent.New` requires at least one piece and a positive piece length: with zero pieces, `number_of_pieces - 1` underflows and panics, and a zero piece length divides by zero.
- `Torrents.Torrent.GetNextBlock`: the branch taken when `progress > 95.0` is not in the method, because `Torrents.ProgressAtMostOne` shows that branch can never be taken.
- `Torrents.Eligible`: `get_next_block` only checks that `is_set` returns `Ok`, which is a range check, not whether the peer has the piece. The model does the same.
- `MetaInfo.TotalLength`: the sum over multi-file lengths is unbounded here, so its `u32` overflow is not modelled.
- `MetaInfo.File` keeps `length`, and `MetaInfo.Info` keeps `pieceLength`, as the `i32` the bencoded integer holds. The source assigns the `i32` payload straight to its `u32` fields with no cast at all (`piece_length` read at src/meta_info_file.rs:107-108 and stored at 147-148, `File::length` at 152 and 204), which as written does not type-check; the model keeps the `i32`, so a negative value is not reinterpreted as a large `u32` here.
- `MetaInfo.MetaInfoFile` has no `name()`: the `PiecedContent` trait's `name` is not part of this model. Its other three methods are `MetaInfo.NumberOfPieces`, `MetaInfo.PieceLength` and `MetaInfo.TotalLength`.
- `BencodeDecode.ParseByteString` follows a release build when the length is so large that `i + 1 + length` (src/bencode.rs:192 and 197) exceeds `usize::MAX`: the sum wraps below `i + 1`, `get` returns `None`, and the result is the `ParseByteString` error at the colon. A debug build panics on that addition instead; `BencodeDecode.ByteStringAt` does not model that panic, so the 21-byte input `18446744073709551615:` is an error here.
- `BencodeProperties.TruncatedByteString` allows any length up to `usize::MAX`. For a length whose colon position plus one plus the length exceeds `usize::MAX`, the stated `ParseByteString` error is the release-build result; a debug build panics there, as the line above says.
- `Util.ReadBeU32` requires four bytes, because `split_at` panics before the `Result` is built. Callers that may have fewer model that panic themselves.
- `BitFields.Octets` states only the length of the byte vector; each byte is its own value.
- `Debug` implementations, the `original` text field of `BencodeParseError`, and the panic messages are not modelled.
- `random_string` in `src/util.rs` uses a random generator and is not part of this model.

## Findings

| source | as written | input that shows it | evidently intended | confidence | as-written member | corrected member |
|---|---|---|---|---|---|---|
| src/lib.rs:82-95 | `parse_integer`, `parse_list` and `parse_dictionary` return the index of their closing `e`, not one past it | `li1ei2ee` is read as a list holding only `1` | return one past the `e`, as `src/bencode.rs:219` does | not executed | `LibBencodeProperties.IntegerEndsList` | `LibBencodeProperties.CorrectedRoundTrip` |
| src/messages.rs:81-84 | Choke, UnChoke, Interested and NotInterested write their id as the length and the byte 1 as the id | `Choke` serialises to `00 00 00 00 01`, which is read back as UnChoke | length 1 followed by the id (BEP 3) | not executed | `Messages.ChokeFamilyReadsAsUnChoke` | `Messages.Bep3RoundTrip` |
| src/tracker.rs:72 | every compact peer's port is read from bytes 4 and 5 of the whole string | `10.0.0.1:6881, 10.0.0.2:6882` gives the second peer port 6881 | each record's own bytes 4 and 5 (BEP 23) | not executed | `Tracker.CompactPortCounterexample` | `Tracker.Bep23RoundTrip` |
| src/torrent.rs:55-56 | `!!` on a `u32` is the identity, so the remainder itself is added to the block count | a 20000-byte piece gets 3617 blocks instead of 2 | add 1 when the remainder is not zero | not executed | `Torrents.BlocksPerPieceQuirk` | `Torrents.CoveringBlocks` |
