/**
 * Reading a decoded metainfo (`.torrent`) file (`src/meta_info_file.rs`): the
 * "info" dictionary of BEP 3 in its single-file and multi-file forms, and the
 * numbers `Torrent::new` asks for through `PiecedContent`.
 *
 * SHA-1, its hex rendering and UTF-8 validation are foreign code: they are
 * the parameters `sha1`, `hexSha1` and `utf8`. A `String` is kept as its UTF-8
 * bytes. `btm[key]` on a missing key panics; `btm.get(key)` does not.
 */
module MetaInfo {
  import opened RustTypes
  import opened Bencode
  import Util

  const PIECE_LENGTH: Bytes := [112, 105, 101, 99, 101, 32, 108, 101, 110, 103, 116, 104] // "piece length"
  const PIECES: Bytes := [112, 105, 101, 99, 101, 115]                                 // "pieces"
  const NAME: Bytes := [110, 97, 109, 101]                                            // "name"
  const LENGTH: Bytes := [108, 101, 110, 103, 116, 104]                               // "length"
  const FILES: Bytes := [102, 105, 108, 101, 115]                                     // "files"
  const PATH: Bytes := [112, 97, 116, 104]                                            // "path"
  const INFO: Bytes := [105, 110, 102, 111]                                           // "info"
  const ANNOUNCE: Bytes := [97, 110, 110, 111, 117, 110, 99, 101]                     // "announce"

  /** `\`, the separator multi-file path components are joined with. */
  const BACKSLASH: byte := 92

  /** The length of a SHA-1 piece hash. */
  const HASH_LENGTH: nat := 20

  type Digest = b: Bytes | |b| == 20 witness seq(20, _ => 0)

  datatype File = File(length: i32, path: Bytes)

  datatype Info =
    | SingleFile(pieceLength: i32, pieces: seq<string>, name: Bytes, file: File)
    | MultiFile(pieceLength: i32, pieces: seq<string>, directoryName: Bytes, files: seq<File>)

  datatype MetaInfoFile = MetaInfoFile(info: Info, announce: Bytes, infoHash: Digest)

  datatype MetaInfoFileParseError = GenericError(message: string)

  const NO_PIECE_LENGTH: string := "did not find `piece length`"
  const NO_PIECES: string := "did not find `pieces`"
  const NO_NAME: string := "did not find `name`"
  const NO_FILE_LENGTH: string := "did not find `length` for file in multifile torrent"
  const NO_FILE_PATH: string := "did not find `path` for file in multifile torrent"

  // ---------------------------------------------------------------------------
  // Piece hashes
  // ---------------------------------------------------------------------------

  /** `chunks(20)`: consecutive 20-byte pieces, the last one possibly shorter. */
  function Chunks(bs: Bytes): (r: seq<Bytes>)
    ensures |r| == (|bs| + HASH_LENGTH - 1) / HASH_LENGTH
    ensures forall k :: 0 <= k < |r| ==> 0 < |r[k]| <= HASH_LENGTH
    ensures forall k :: 0 <= k < |r| - 1 ==> |r[k]| == HASH_LENGTH
    decreases |bs|
  {
    if bs == [] then []
    else if |bs| <= HASH_LENGTH then [bs]
    else [bs[..HASH_LENGTH]] + Chunks(bs[HASH_LENGTH..])
  }

  /** The chunks laid end to end give the input back, in order. */
  lemma {:induction false} ChunksCover(bs: Bytes)
    ensures Util.AttachBytes(Chunks(bs)) == bs
    decreases |bs|
  {
    if bs == [] {
    } else if |bs| <= HASH_LENGTH {
      assert Util.AttachBytes([bs]) == bs + Util.AttachBytes([]);
    } else {
      var cs := Chunks(bs);
      ChunksCover(bs[HASH_LENGTH..]);
      assert cs[0] == bs[..HASH_LENGTH] && cs[1..] == Chunks(bs[HASH_LENGTH..]);
      assert bs[..HASH_LENGTH] + bs[HASH_LENGTH..] == bs;
    }
  }

  /** Chunk `k` holds bytes `20 * k` up to `20 * k + 20`, or to the end. */
  lemma {:induction false} ChunkAt(bs: Bytes, k: nat)
    requires k < |Chunks(bs)|
    ensures 20 * k < |bs|
    ensures Chunks(bs)[k] == bs[20 * k .. ChunkEnd(|bs|, k)]
    decreases |bs|
  {
    if |bs| > HASH_LENGTH && k > 0 {
      var tail := bs[HASH_LENGTH..];
      ChunkAt(tail, k - 1);
      assert Chunks(bs)[k] == Chunks(tail)[k - 1];
      var lo, hi := 20 * (k - 1), ChunkEnd(|tail|, k - 1);
      assert hi + 20 == ChunkEnd(|bs|, k);
      assert tail[lo..hi] == bs[lo + 20 .. hi + 20];
    }
  }

  /** Where chunk `k` of an `n`-byte input ends. */
  function ChunkEnd(n: nat, k: nat): nat
  {
    if 20 * k + 20 <= n then 20 * k + 20 else n
  }

  /** The `pieces` list: the hex SHA-1 of every chunk, one entry per chunk, in chunk order. */
  function PieceHashes(bs: Bytes, hexSha1: Bytes -> string): (r: seq<string>)
    ensures |r| == |Chunks(bs)|
    ensures forall k :: 0 <= k < |r| ==> r[k] == hexSha1(Chunks(bs)[k])
  {
    var cs := Chunks(bs);
    seq(|cs|, k requires 0 <= k < |cs| => hexSha1(cs[k]))
  }

  // ---------------------------------------------------------------------------
  // Multi-file paths
  // ---------------------------------------------------------------------------

  /** `join("\\")`. */
  function Join(parts: seq<Bytes>): (r: Bytes)
    ensures |parts| == 1 ==> r == parts[0]
  {
    if parts == [] then []
    else if |parts| == 1 then parts[0]
    else parts[0] + [BACKSLASH] + Join(parts[1..])
  }

  function FirstBackslash(s: Bytes): (r: nat)
    requires BACKSLASH in s
    ensures r < |s| && s[r] == BACKSLASH
    ensures forall k :: 0 <= k < r ==> s[k] != BACKSLASH
  {
    if s[0] == BACKSLASH then 0 else FirstBackslash(s[1..]) + 1
  }

  /** Cutting a path at every `\`: the reading a joined path is meant to allow. */
  function Split(s: Bytes): (r: seq<Bytes>)
    ensures |r| >= 1
    decreases |s|
  {
    if BACKSLASH in s then
      var i := FirstBackslash(s);
      [s[..i]] + Split(s[i + 1..])
    else [s]
  }

  /** No component holds a `\`, so the joined path splits back into its components. */
  lemma {:induction false} SplitJoin(parts: seq<Bytes>)
    requires |parts| >= 1
    requires forall k :: 0 <= k < |parts| ==> BACKSLASH !in parts[k]
    ensures Split(Join(parts)) == parts
  {
    if |parts| > 1 {
      assert Join(parts) == parts[0] + [BACKSLASH] + Join(parts[1..]);
      SplitFirst(parts[0], Join(parts[1..]));
      SplitJoin(parts[1..]);
      assert [parts[0]] + parts[1..] == parts;
    }
  }

  /** A component without a `\`, then a `\`: splitting cuts that component off first. */
  lemma SplitFirst(p: Bytes, rest: Bytes)
    requires BACKSLASH !in p
    ensures Split(p + [BACKSLASH] + rest) == [p] + Split(rest)
  {
    var s := p + [BACKSLASH] + rest;
    assert s[|p|] == BACKSLASH;
    assert forall k :: 0 <= k < |p| ==> s[k] == p[k];
    var i := FirstBackslash(s);
    assert i == |p|;
    assert s[..i] == p && s[i + 1..] == rest;
  }

  // ---------------------------------------------------------------------------
  // Reading the info dictionary
  // ---------------------------------------------------------------------------

  /** Path components: every one must be a byte string holding UTF-8 (`as_string().unwrap()`), or the source panics. */
  function PathComponents(items: seq<Bencodable>, utf8: Utf8Check): (r: Outcome<seq<Bytes>>)
    ensures r.Value? <==> forall k :: 0 <= k < |items| ==> items[k].ByteString? && utf8(items[k].bytes)
    ensures r.Value? ==> |r.value| == |items| && forall k :: 0 <= k < |items| ==> r.value[k] == items[k].bytes
  {
    if items == [] then Value([])
    else if items[0].ByteString? && utf8(items[0].bytes) then
      var rest := PathComponents(items[1..], utf8);
      assert forall k :: 1 <= k < |items| ==> items[k] == items[1..][k - 1];
      if rest.Panic? then Panic else Value([items[0].bytes] + rest.value)
    else Panic
  }

  /** One entry of "files": its "length" and its "path" joined with `\`. */
  function FileEntry(b: Bencodable, utf8: Utf8Check): (r: Outcome<Result<File, MetaInfoFileParseError>>)
    ensures !b.Dictionary? ==> r.Panic?
    ensures b.Dictionary? && Lookup(b.entries, LENGTH).None? ==> r.Panic?
    ensures r == Value(Err(GenericError(NO_FILE_LENGTH))) <==>
              b.Dictionary? && Lookup(b.entries, LENGTH).Some? && !Lookup(b.entries, LENGTH).value.Integer?
    ensures r.Value? && r.value.Ok? ==>
              && Lookup(b.entries, LENGTH) == Some(Integer(r.value.value.length))
              && Lookup(b.entries, PATH).Some? && Lookup(b.entries, PATH).value.List?
              && PathComponents(Lookup(b.entries, PATH).value.items, utf8).Value?
              && r.value.value.path == Join(PathComponents(Lookup(b.entries, PATH).value.items, utf8).value)
  {
    if !b.Dictionary? then Panic
    else
      var length := Lookup(b.entries, LENGTH);
      if length.None? then Panic
      else if !length.value.Integer? then Value(Err(GenericError(NO_FILE_LENGTH)))
      else
        var path := Lookup(b.entries, PATH);
        if path.None? then Panic
        else if !path.value.List? then Value(Err(GenericError(NO_FILE_PATH)))
        else
          var parts := PathComponents(path.value.items, utf8);
          if parts.Panic? then Panic
          else Value(Ok(File(length.value.value, Join(parts.value))))
  }

  /** "files", mapped through `FileEntry` and unwrapped: a single bad entry panics. */
  function FilesFrom(items: seq<Bencodable>, utf8: Utf8Check): (r: Outcome<seq<File>>)
    ensures r.Value? <==> forall k :: 0 <= k < |items| ==> FileEntry(items[k], utf8).Value? && FileEntry(items[k], utf8).value.Ok?
    ensures r.Value? ==> |r.value| == |items|
    ensures r.Value? ==> forall k :: 0 <= k < |items| ==> r.value[k] == FileEntry(items[k], utf8).value.value
  {
    if items == [] then Value([])
    else
      var first := FileEntry(items[0], utf8);
      FilesReadTail(items, utf8);
      if first.Panic? || first.value.Err? then Panic
      else
        var rest := FilesFrom(items[1..], utf8);
        if rest.Panic? then Panic
        else
          FilesReadCons(items, utf8, first.value.value, rest.value);
          Value([first.value.value] + rest.value)
  }

  /** Every file entry is read exactly when the first one is and every later one is. */
  lemma FilesReadTail(items: seq<Bencodable>, utf8: Utf8Check)
    requires items != []
    ensures (forall k :: 0 <= k < |items| ==> FileEntry(items[k], utf8).Value? && FileEntry(items[k], utf8).value.Ok?)
        <==> (&& FileEntry(items[0], utf8).Value? && FileEntry(items[0], utf8).value.Ok?
              && forall k :: 0 <= k < |items| - 1 ==> FileEntry(items[1..][k], utf8).Value? && FileEntry(items[1..][k], utf8).value.Ok?)
  {
    var tail := items[1..];
    if forall k :: 0 <= k < |items| ==> FileEntry(items[k], utf8).Value? && FileEntry(items[k], utf8).value.Ok? {
      forall k | 0 <= k < |tail|
        ensures FileEntry(tail[k], utf8).Value? && FileEntry(tail[k], utf8).value.Ok?
      {
        assert tail[k] == items[k + 1];
      }
    }
    if forall k :: 0 <= k < |tail| ==> FileEntry(tail[k], utf8).Value? && FileEntry(tail[k], utf8).value.Ok? {
      forall k | 1 <= k < |items|
        ensures FileEntry(items[k], utf8).Value? && FileEntry(items[k], utf8).value.Ok?
      {
        assert items[k] == tail[k - 1];
      }
    }
  }

  /** The first file, then the files of the later entries, are the files of all entries. */
  lemma FilesReadCons(items: seq<Bencodable>, utf8: Utf8Check, first: File, rest: seq<File>)
    requires items != [] && FileEntry(items[0], utf8) == Value(Ok(first)) && |rest| == |items| - 1
    requires forall k :: 0 <= k < |items| - 1 ==> FileEntry(items[1..][k], utf8).Value? && FileEntry(items[1..][k], utf8).value.Ok?
    requires forall k :: 0 <= k < |items| - 1 ==> rest[k] == FileEntry(items[1..][k], utf8).value.value
    ensures forall k :: 0 <= k < |items| ==> FileEntry(items[k], utf8).Value? && FileEntry(items[k], utf8).value.Ok?
    ensures forall k :: 0 <= k < |items| ==> ([first] + rest)[k] == FileEntry(items[k], utf8).value.value
  {
    var tail := items[1..];
    var files := [first] + rest;
    forall k | 0 <= k < |items|
      ensures FileEntry(items[k], utf8).Value? && FileEntry(items[k], utf8).value.Ok?
      ensures files[k] == FileEntry(items[k], utf8).value.value
    {
      if k > 0 {
        assert items[k] == tail[k - 1];
        assert files[k] == rest[k - 1];
      }
    }
  }

  /** The dictionary maps `k` to an integer. */
  predicate HasInteger(btm: seq<Entry>, k: Bytes)
  {
    Lookup(btm, k).Some? && Lookup(btm, k).value.Integer?
  }

  /** The dictionary maps `k` to a byte string. */
  predicate HasByteString(btm: seq<Entry>, k: Bytes)
  {
    Lookup(btm, k).Some? && Lookup(btm, k).value.ByteString?
  }

  /**
   * `get_info_from_btm`. "piece length", "pieces" and "name" are looked up
   * with `btm[...]`, so a missing one panics and one of the wrong type is a
   * `GenericError`. An Integer "length" makes a single file named after the
   * torrent; otherwise "files" must be a list (or the source panics) and the
   * result is a multi-file layout.
   */
  function GetInfoFromBtm(btm: seq<Entry>, hexSha1: Bytes -> string, utf8: Utf8Check): (r: Outcome<Result<Info, MetaInfoFileParseError>>)
    ensures Lookup(btm, PIECE_LENGTH).None? ==> r.Panic?
    ensures Lookup(btm, PIECE_LENGTH).Some? && !Lookup(btm, PIECE_LENGTH).value.Integer? ==>
              r == Value(Err(GenericError(NO_PIECE_LENGTH)))
    ensures HasInteger(btm, PIECE_LENGTH) && Lookup(btm, PIECES).None? ==> r.Panic?
    ensures HasInteger(btm, PIECE_LENGTH) && Lookup(btm, PIECES).Some? && !Lookup(btm, PIECES).value.ByteString? ==>
              r == Value(Err(GenericError(NO_PIECES)))
    ensures HasInteger(btm, PIECE_LENGTH) && HasByteString(btm, PIECES) && Lookup(btm, NAME).None? ==> r.Panic?
    ensures HasInteger(btm, PIECE_LENGTH) && HasByteString(btm, PIECES) && Lookup(btm, NAME).Some? && !Lookup(btm, NAME).value.ByteString? ==>
              r == Value(Err(GenericError(NO_NAME)))
    ensures HasInteger(btm, PIECE_LENGTH) && HasByteString(btm, PIECES) && HasByteString(btm, NAME) && !utf8(Lookup(btm, NAME).value.bytes) ==>
              r.Panic?
    ensures HasInteger(btm, PIECE_LENGTH) && HasByteString(btm, PIECES) && HasByteString(btm, NAME) && utf8(Lookup(btm, NAME).value.bytes)
              && !HasInteger(btm, LENGTH) ==>
              (r.Panic? <==> !(Lookup(btm, FILES).Some? && Lookup(btm, FILES).value.List?)
                             || FilesFrom(Lookup(btm, FILES).value.items, utf8).Panic?)
    ensures r.Value? && r.value.Err? ==>
              r.value.error.message == NO_PIECE_LENGTH || r.value.error.message == NO_PIECES || r.value.error.message == NO_NAME
    ensures r.Value? && r.value.Ok? ==>
              && Lookup(btm, PIECE_LENGTH) == Some(Integer(r.value.value.pieceLength))
              && Lookup(btm, PIECES).Some? && Lookup(btm, PIECES).value.ByteString?
              && r.value.value.pieces == PieceHashes(Lookup(btm, PIECES).value.bytes, hexSha1)
    ensures r.Value? && r.value.Ok? ==>
              (r.value.value.SingleFile? <==> Lookup(btm, LENGTH).Some? && Lookup(btm, LENGTH).value.Integer?)
    ensures r.Value? && r.value.Ok? && r.value.value.SingleFile? ==>
              && Lookup(btm, NAME) == Some(ByteString(r.value.value.name)) && utf8(r.value.value.name)
              && r.value.value.file == File(Lookup(btm, LENGTH).value.value, r.value.value.name)
    ensures r.Value? && r.value.Ok? && r.value.value.MultiFile? ==>
              && Lookup(btm, NAME) == Some(ByteString(r.value.value.directoryName)) && utf8(r.value.value.directoryName)
              && Lookup(btm, FILES).Some? && Lookup(btm, FILES).value.List?
              && FilesFrom(Lookup(btm, FILES).value.items, utf8) == Value(r.value.value.files)
  {
    var pieceLength := Lookup(btm, PIECE_LENGTH);
    if pieceLength.None? then Panic
    else if !pieceLength.value.Integer? then Value(Err(GenericError(NO_PIECE_LENGTH)))
    else
      var pieces := Lookup(btm, PIECES);
      if pieces.None? then Panic
      else if !pieces.value.ByteString? then Value(Err(GenericError(NO_PIECES)))
      else
        var hashes := PieceHashes(pieces.value.bytes, hexSha1);
        var name := Lookup(btm, NAME);
        if name.None? then Panic
        else if !name.value.ByteString? then Value(Err(GenericError(NO_NAME)))
        else if !utf8(name.value.bytes) then Panic
        else
          var length := Lookup(btm, LENGTH);
          if length.Some? && length.value.Integer? then
            Value(Ok(SingleFile(pieceLength.value.value, hashes, name.value.bytes,
                                File(length.value.value, name.value.bytes))))
          else
            var files := Lookup(btm, FILES);
            if files.None? || !files.value.List? then Panic
            else
              var fs := FilesFrom(files.value.items, utf8);
              if fs.Panic? then Panic
              else Value(Ok(MultiFile(pieceLength.value.value, hashes, name.value.bytes, fs.value)))
  }

  /** `get_info`: the top level must be a dictionary whose "info" is a dictionary, or the source panics. */
  function GetInfo(b: Bencodable, hexSha1: Bytes -> string, utf8: Utf8Check): (r: Outcome<Result<Info, MetaInfoFileParseError>>)
    ensures !b.Dictionary? ==> r.Panic?
    ensures b.Dictionary? && !(Lookup(b.entries, INFO).Some? && Lookup(b.entries, INFO).value.Dictionary?) ==> r.Panic?
    ensures b.Dictionary? && Lookup(b.entries, INFO).Some? && Lookup(b.entries, INFO).value.Dictionary? ==>
              r == GetInfoFromBtm(Lookup(b.entries, INFO).value.entries, hexSha1, utf8)
  {
    if !b.Dictionary? then Panic
    else
      var info := Lookup(b.entries, INFO);
      if info.Some? && info.value.Dictionary? then GetInfoFromBtm(info.value.entries, hexSha1, utf8)
      else Panic
  }

  /**
   * `From<&Bencodable> for MetaInfoFile`: the info (an error panics through
   * `unwrap`), the "announce" byte string (it must hold UTF-8), and the SHA-1
   * of the info dictionary's bencoding. `bencode` never fails (its model
   * `Bencode.Bencode` always returns `Ok(Encoding(b))`), so that `unwrap`
   * cannot panic.
   */
  function FromBencodable(b: Bencodable, hexSha1: Bytes -> string, sha1: Bytes -> Digest, utf8: Utf8Check): (r: Outcome<MetaInfoFile>)
    ensures r.Value? <==>
              && GetInfo(b, hexSha1, utf8).Value? && GetInfo(b, hexSha1, utf8).value.Ok?
              && Lookup(b.entries, ANNOUNCE).Some? && Lookup(b.entries, ANNOUNCE).value.ByteString?
              && utf8(Lookup(b.entries, ANNOUNCE).value.bytes)
    ensures r.Value? ==>
              && b.Dictionary?
              && r.value.info == GetInfo(b, hexSha1, utf8).value.value
              && Lookup(b.entries, ANNOUNCE) == Some(ByteString(r.value.announce))
              && r.value.infoHash == sha1(Encoding(Lookup(b.entries, INFO).value))
  {
    var info := GetInfo(b, hexSha1, utf8);
    if info.Panic? || info.value.Err? then Panic
    else
      var announce := Lookup(b.entries, ANNOUNCE);
      if announce.None? || !announce.value.ByteString? || !utf8(announce.value.bytes) then Panic
      else Value(MetaInfoFile(info.value.value, announce.value.bytes, sha1(Encoding(Lookup(b.entries, INFO).value))))
  }

  // ---------------------------------------------------------------------------
  // PiecedContent
  // ---------------------------------------------------------------------------

  /** `number_of_pieces`: the number of piece hashes, cast to `u32` (so it wraps past `u32::MAX`). */
  function NumberOfPieces(m: MetaInfoFile): (r: u32)
    ensures r <= |m.info.pieces|
    ensures |m.info.pieces| < U32_LIMIT ==> r == |m.info.pieces|
    ensures (|m.info.pieces| - r) % U32_LIMIT == 0
  {
    |m.info.pieces| % U32_LIMIT
  }

  /** `piece_length`. */
  function PieceLength(m: MetaInfoFile): i32
  {
    m.info.pieceLength
  }

  /** The lengths of `files` added up, as the unbounded sum of `i32` values. */
  function SumLengths(files: seq<File>): (r: int)
    ensures |files| * I32_MIN <= r <= |files| * I32_MAX
    ensures (forall k :: 0 <= k < |files| ==> files[k].length >= 0) ==>
              r >= 0 && forall k :: 0 <= k < |files| ==> files[k].length <= r
  {
    if files == [] then 0
    else
      var init := files[..|files| - 1];
      assert |files| * I32_MIN == |init| * I32_MIN + I32_MIN;
      assert |files| * I32_MAX == |init| * I32_MAX + I32_MAX;
      SumLengths(init) + files[|files| - 1].length
  }

  /** `total_length`: the file's length, or the lengths of all files added up. */
  function TotalLength(m: MetaInfoFile): (r: int)
    ensures m.info.SingleFile? ==> I32_MIN <= r <= I32_MAX
    ensures m.info.MultiFile? ==> |m.info.files| * I32_MIN <= r <= |m.info.files| * I32_MAX
    ensures m.info.MultiFile? && (forall k :: 0 <= k < |m.info.files| ==> m.info.files[k].length >= 0) ==>
              forall k :: 0 <= k < |m.info.files| ==> 0 <= m.info.files[k].length <= r
  {
    match m.info
    case SingleFile(_, _, _, file) => file.length
    case MultiFile(_, _, _, files) => SumLengths(files)
  }

  /**
   * What `PiecedContent` reports for a file whose info `get_info_from_btm`
   * accepted: one piece per chunk of "pieces" (so per started 20 bytes, cast to `u32`),
   * the "piece length" integer, and the "length" integer or the sum of the
   * "files" lengths.
   */
  lemma PiecedContentOf(btm: seq<Entry>, hexSha1: Bytes -> string, utf8: Utf8Check, m: MetaInfoFile)
    requires GetInfoFromBtm(btm, hexSha1, utf8) == Value(Ok(m.info))
    ensures NumberOfPieces(m) == |Chunks(Lookup(btm, PIECES).value.bytes)| % U32_LIMIT
    ensures Lookup(btm, PIECE_LENGTH) == Some(Integer(PieceLength(m)))
    ensures HasInteger(btm, LENGTH) ==> Lookup(btm, LENGTH) == Some(Integer(TotalLength(m)))
    ensures !HasInteger(btm, LENGTH) ==>
              FilesFrom(Lookup(btm, FILES).value.items, utf8) == Value(m.info.files) && TotalLength(m) == SumLengths(m.info.files)
  {
    var r := GetInfoFromBtm(btm, hexSha1, utf8);
    assert m.info.pieces == PieceHashes(Lookup(btm, PIECES).value.bytes, hexSha1);
    if HasInteger(btm, LENGTH) {
      assert m.info.SingleFile? && m.info.file.length == Lookup(btm, LENGTH).value.value;
    } else {
      assert m.info.MultiFile?;
    }
  }

  // ---------------------------------------------------------------------------
  // Round trips from a dictionary built from known fields
  // ---------------------------------------------------------------------------

  /** The keys differ from one another. */
  lemma DistinctKeys()
    ensures LENGTH != NAME && LENGTH != PIECE_LENGTH && LENGTH != PIECES && LENGTH != PATH && LENGTH != FILES
    ensures NAME != PIECE_LENGTH && NAME != PIECES && PIECE_LENGTH != PIECES && FILES != NAME
    ensures FILES != PIECE_LENGTH && FILES != PIECES
  {
    assert LENGTH[0] != PIECES[0] && LENGTH[0] != PATH[0] && NAME[0] != PATH[0] && FILES[0] != PIECES[0];
  }

  /** `BTreeMap::get` on two entries: the first entry with the key wins. */
  lemma Lookup2(e0: Entry, e1: Entry, k: Bytes)
    ensures Lookup([e0, e1], k) == if e0.key == k then Some(e0.value) else if e1.key == k then Some(e1.value) else None
  {
    assert [e0, e1][1..] == [e1];
    assert [e1][1..] == [];
  }

  /** `BTreeMap::get` on four entries: the first entry with the key wins. */
  lemma Lookup4(e0: Entry, e1: Entry, e2: Entry, e3: Entry, k: Bytes)
    ensures Lookup([e0, e1, e2, e3], k)
         == if e0.key == k then Some(e0.value) else if e1.key == k then Some(e1.value)
            else if e2.key == k then Some(e2.value) else if e3.key == k then Some(e3.value) else None
  {
    assert [e0, e1, e2, e3][1..] == [e1, e2, e3];
    Lookup2(e2, e3, k);
    assert [e1, e2, e3][1..] == [e2, e3];
  }

  /** The info dictionary of a single-file torrent, keys in ascending order. */
  function SingleFileInfo(length: i32, name: Bytes, pieceLength: i32, pieces: Bytes): Bencodable
  {
    Dictionary([Entry(LENGTH, Integer(length)), Entry(NAME, ByteString(name)),
                Entry(PIECE_LENGTH, Integer(pieceLength)), Entry(PIECES, ByteString(pieces))])
  }

  /** An entry of "files". */
  function FileDictionary(length: i32, parts: seq<Bytes>): Bencodable
  {
    Dictionary([Entry(LENGTH, Integer(length)),
                Entry(PATH, List(seq(|parts|, k requires 0 <= k < |parts| => ByteString(parts[k]))))])
  }

  /** The info dictionary of a multi-file torrent, keys in ascending order. */
  function MultiFileInfo(files: seq<Bencodable>, name: Bytes, pieceLength: i32, pieces: Bytes): Bencodable
  {
    Dictionary([Entry(FILES, List(files)), Entry(NAME, ByteString(name)),
                Entry(PIECE_LENGTH, Integer(pieceLength)), Entry(PIECES, ByteString(pieces))])
  }

  /** The four lookups `get_info_from_btm` makes on a single-file info dictionary. */
  lemma SingleFileLookups(length: i32, name: Bytes, pieceLength: i32, pieces: Bytes)
    ensures var es := SingleFileInfo(length, name, pieceLength, pieces).entries;
            && Lookup(es, PIECE_LENGTH) == Some(Integer(pieceLength)) && Lookup(es, PIECES) == Some(ByteString(pieces))
            && Lookup(es, NAME) == Some(ByteString(name)) && Lookup(es, LENGTH) == Some(Integer(length))
  {
    var e0, e1, e2, e3 := Entry(LENGTH, Integer(length)), Entry(NAME, ByteString(name)),
                          Entry(PIECE_LENGTH, Integer(pieceLength)), Entry(PIECES, ByteString(pieces));
    DistinctKeys();
    Lookup4(e0, e1, e2, e3, PIECE_LENGTH);
    Lookup4(e0, e1, e2, e3, PIECES);
    Lookup4(e0, e1, e2, e3, NAME);
    Lookup4(e0, e1, e2, e3, LENGTH);
  }

  /**
   * A single-file info dictionary reads back as that file, named after the
   * torrent; there is one piece per started 20 bytes of "pieces", and the total
   * length is the file's.
   */
  lemma SingleFileRoundTrip(length: i32, name: Bytes, pieceLength: i32, pieces: Bytes, hexSha1: Bytes -> string, utf8: Utf8Check,
                            announce: Bytes, infoHash: Digest)
    requires utf8(name)
    ensures GetInfoFromBtm(SingleFileInfo(length, name, pieceLength, pieces).entries, hexSha1, utf8)
         == Value(Ok(SingleFile(pieceLength, PieceHashes(pieces, hexSha1), name, File(length, name))))
    ensures var m := MetaInfoFile(SingleFile(pieceLength, PieceHashes(pieces, hexSha1), name, File(length, name)), announce, infoHash);
            && NumberOfPieces(m) == ((|pieces| + 19) / 20) % U32_LIMIT
            && PieceLength(m) == pieceLength && TotalLength(m) == length
  {
    SingleFileLookups(length, name, pieceLength, pieces);
  }

  /** Byte strings holding UTF-8 read back as the components they hold. */
  lemma ByteStringComponents(parts: seq<Bytes>, utf8: Utf8Check)
    requires forall k :: 0 <= k < |parts| ==> utf8(parts[k])
    ensures PathComponents(seq(|parts|, k requires 0 <= k < |parts| => ByteString(parts[k])), utf8) == Value(parts)
  {
    var items := seq(|parts|, k requires 0 <= k < |parts| => ByteString(parts[k]));
    assert forall k :: 0 <= k < |items| ==> items[k].ByteString? && items[k].bytes == parts[k];
    var pc := PathComponents(items, utf8);
    assert pc.Value?;
    assert pc.value == parts;
  }

  lemma FileDictionaryLookups(length: i32, parts: seq<Bytes>)
    ensures Lookup(FileDictionary(length, parts).entries, LENGTH) == Some(Integer(length))
    ensures Lookup(FileDictionary(length, parts).entries, PATH)
         == Some(List(seq(|parts|, k requires 0 <= k < |parts| => ByteString(parts[k]))))
  {
    var e0 := Entry(LENGTH, Integer(length));
    var e1 := Entry(PATH, List(seq(|parts|, k requires 0 <= k < |parts| => ByteString(parts[k]))));
    DistinctKeys();
    Lookup2(e0, e1, LENGTH);
    Lookup2(e0, e1, PATH);
  }

  lemma FileEntryOf(b: Bencodable, length: i32, items: seq<Bencodable>, parts: seq<Bytes>, utf8: Utf8Check)
    requires b.Dictionary? && Lookup(b.entries, LENGTH) == Some(Integer(length))
    requires Lookup(b.entries, PATH) == Some(List(items)) && PathComponents(items, utf8) == Value(parts)
    ensures FileEntry(b, utf8) == Value(Ok(File(length, Join(parts))))
  {
  }

  /** A "files" entry built from a length and path components reads back as that file. */
  lemma FileDictionaryEntry(length: i32, parts: seq<Bytes>, utf8: Utf8Check)
    requires forall k :: 0 <= k < |parts| ==> utf8(parts[k])
    ensures FileEntry(FileDictionary(length, parts), utf8) == Value(Ok(File(length, Join(parts))))
  {
    var b := FileDictionary(length, parts);
    var items := seq(|parts|, k requires 0 <= k < |parts| => ByteString(parts[k]));
    FileDictionaryLookups(length, parts);
    ByteStringComponents(parts, utf8);
    FileEntryOf(b, length, items, parts, utf8);
  }

  function SumInts(xs: seq<i32>): int
  {
    if xs == [] then 0 else SumInts(xs[..|xs| - 1]) + xs[|xs| - 1]
  }

  lemma {:induction false} SumLengthsOf(lengths: seq<i32>, files: seq<File>)
    requires |files| == |lengths| && forall k :: 0 <= k < |files| ==> files[k].length == lengths[k]
    ensures SumLengths(files) == SumInts(lengths)
  {
    if files != [] {
      SumLengthsOf(lengths[..|lengths| - 1], files[..|files| - 1]);
    }
  }

  /** The entries of "files" for the given lengths and paths. */
  function FileDictionaries(lengths: seq<i32>, paths: seq<seq<Bytes>>): (r: seq<Bencodable>)
    requires |lengths| == |paths|
    ensures |r| == |paths| && forall k :: 0 <= k < |paths| ==> r[k] == FileDictionary(lengths[k], paths[k])
  {
    seq(|paths|, k requires 0 <= k < |paths| => FileDictionary(lengths[k], paths[k]))
  }

  /** The files those entries describe, each path joined with `\`. */
  function JoinedFiles(lengths: seq<i32>, paths: seq<seq<Bytes>>): (r: seq<File>)
    requires |lengths| == |paths|
    ensures |r| == |paths| && forall k :: 0 <= k < |paths| ==> r[k] == File(lengths[k], Join(paths[k]))
  {
    seq(|paths|, k requires 0 <= k < |paths| => File(lengths[k], Join(paths[k])))
  }

  lemma FilesRoundTrip(lengths: seq<i32>, paths: seq<seq<Bytes>>, utf8: Utf8Check)
    requires |lengths| == |paths|
    requires forall k, j :: 0 <= k < |paths| && 0 <= j < |paths[k]| ==> utf8(paths[k][j])
    ensures FilesFrom(FileDictionaries(lengths, paths), utf8) == Value(JoinedFiles(lengths, paths))
  {
    var items := FileDictionaries(lengths, paths);
    var files := JoinedFiles(lengths, paths);
    forall k | 0 <= k < |items|
      ensures FileEntry(items[k], utf8) == Value(Ok(files[k]))
    {
      FileDictionaryEntry(lengths[k], paths[k], utf8);
    }
    assert FilesFrom(items, utf8).value == files;
  }

  /** The five lookups `get_info_from_btm` makes on a multi-file info dictionary. */
  lemma MultiFileLookups(items: seq<Bencodable>, name: Bytes, pieceLength: i32, pieces: Bytes)
    ensures var es := MultiFileInfo(items, name, pieceLength, pieces).entries;
            && Lookup(es, PIECE_LENGTH) == Some(Integer(pieceLength)) && Lookup(es, PIECES) == Some(ByteString(pieces))
            && Lookup(es, NAME) == Some(ByteString(name)) && Lookup(es, LENGTH) == None
            && Lookup(es, FILES) == Some(List(items))
  {
    var e0, e1, e2, e3 := Entry(FILES, List(items)), Entry(NAME, ByteString(name)),
                          Entry(PIECE_LENGTH, Integer(pieceLength)), Entry(PIECES, ByteString(pieces));
    DistinctKeys();
    Lookup4(e0, e1, e2, e3, PIECE_LENGTH);
    Lookup4(e0, e1, e2, e3, PIECES);
    Lookup4(e0, e1, e2, e3, NAME);
    Lookup4(e0, e1, e2, e3, LENGTH);
    Lookup4(e0, e1, e2, e3, FILES);
  }

  /** What `get_info_from_btm` makes of a dictionary without "length" whose other fields are well typed. */
  lemma MultiFileOf(btm: seq<Entry>, pieceLength: i32, pieces: Bytes, name: Bytes, items: seq<Bencodable>, files: seq<File>,
                    hexSha1: Bytes -> string, utf8: Utf8Check)
    requires Lookup(btm, PIECE_LENGTH) == Some(Integer(pieceLength)) && Lookup(btm, PIECES) == Some(ByteString(pieces))
    requires Lookup(btm, NAME) == Some(ByteString(name)) && utf8(name) && Lookup(btm, LENGTH) == None
    requires Lookup(btm, FILES) == Some(List(items)) && FilesFrom(items, utf8) == Value(files)
    ensures GetInfoFromBtm(btm, hexSha1, utf8) == Value(Ok(MultiFile(pieceLength, PieceHashes(pieces, hexSha1), name, files)))
  {
  }

  /**
   * A multi-file info dictionary with no "length" reads back as its files, in
   * order, each path joined with `\`.
   */
  lemma MultiFileRoundTrip(lengths: seq<i32>, paths: seq<seq<Bytes>>, name: Bytes, pieceLength: i32, pieces: Bytes,
                           hexSha1: Bytes -> string, utf8: Utf8Check)
    requires |lengths| == |paths| && utf8(name)
    requires forall k, j :: 0 <= k < |paths| && 0 <= j < |paths[k]| ==> utf8(paths[k][j])
    ensures GetInfoFromBtm(MultiFileInfo(FileDictionaries(lengths, paths), name, pieceLength, pieces).entries, hexSha1, utf8)
         == Value(Ok(MultiFile(pieceLength, PieceHashes(pieces, hexSha1), name, JoinedFiles(lengths, paths))))
  {
    var items := FileDictionaries(lengths, paths);
    MultiFileLookups(items, name, pieceLength, pieces);
    FilesRoundTrip(lengths, paths, utf8);
    MultiFileOf(MultiFileInfo(items, name, pieceLength, pieces).entries, pieceLength, pieces, name, items,
                JoinedFiles(lengths, paths), hexSha1, utf8);
  }

  /** For that layout there is one piece per started 20 bytes of "pieces", and the total length is the sum of the files' lengths. */
  lemma MultiFileTotals(lengths: seq<i32>, paths: seq<seq<Bytes>>, name: Bytes, pieceLength: i32, pieces: Bytes,
                        hexSha1: Bytes -> string, announce: Bytes, infoHash: Digest)
    requires |lengths| == |paths|
    ensures var m := MetaInfoFile(MultiFile(pieceLength, PieceHashes(pieces, hexSha1), name, JoinedFiles(lengths, paths)), announce, infoHash);
            && NumberOfPieces(m) == ((|pieces| + 19) / 20) % U32_LIMIT
            && TotalLength(m) == SumInts(lengths)
  {
    SumLengthsOf(lengths, JoinedFiles(lengths, paths));
  }

  /** `From<&Bencodable>` panics on a top level that is not a dictionary, or an "info" that is not one. */
  lemma FromNeedsDictionaries(b: Bencodable, hexSha1: Bytes -> string, sha1: Bytes -> Digest, utf8: Utf8Check)
    requires !b.Dictionary? || !(Lookup(b.entries, INFO).Some? && Lookup(b.entries, INFO).value.Dictionary?)
    ensures FromBencodable(b, hexSha1, sha1, utf8).Panic?
  {
  }
}
