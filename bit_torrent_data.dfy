/**
 * The second metainfo reader (`src/bit_torrent_data.rs`): it keeps the raw
 * "pieces" bytes and the name of a single torrent and panics on anything it
 * does not expect. The optional BEP 3 fields it declares are never read.
 */
module BitTorrentData {
  import opened RustTypes
  import opened Bencode
  import MetaInfo

  datatype Info = Info(pieceLength: i32, pieces: Bytes, private: Option<i32>, name: Bytes)

  datatype MetaInfoFile = MetaInfoFile(
    info: Info,
    announce: Bytes,
    announceList: Option<seq<seq<string>>>,
    creationDate: Option<i32>,
    comment: Option<string>,
    createdBy: Option<string>,
    encoding: Option<string>)

  /** The info dictionary's three fields; a missing key, a wrong type or a name that is not UTF-8 panics. */
  function InfoOf(btm: seq<Entry>, utf8: Utf8Check): (r: Outcome<Info>)
    ensures r.Value? <==>
              && Lookup(btm, MetaInfo.PIECE_LENGTH).Some? && Lookup(btm, MetaInfo.PIECE_LENGTH).value.Integer?
              && Lookup(btm, MetaInfo.PIECES).Some? && Lookup(btm, MetaInfo.PIECES).value.ByteString?
              && Lookup(btm, MetaInfo.NAME).Some? && Lookup(btm, MetaInfo.NAME).value.ByteString?
              && utf8(Lookup(btm, MetaInfo.NAME).value.bytes)
    ensures r.Value? ==>
              && Lookup(btm, MetaInfo.PIECE_LENGTH) == Some(Integer(r.value.pieceLength))
              && Lookup(btm, MetaInfo.PIECES) == Some(ByteString(r.value.pieces))
              && Lookup(btm, MetaInfo.NAME) == Some(ByteString(r.value.name))
              && r.value.private.None?
  {
    var pieceLength := Lookup(btm, MetaInfo.PIECE_LENGTH);
    if pieceLength.None? || !pieceLength.value.Integer? then Panic
    else
      var pieces := Lookup(btm, MetaInfo.PIECES);
      if pieces.None? || !pieces.value.ByteString? then Panic
      else
        var name := Lookup(btm, MetaInfo.NAME);
        if name.None? || !name.value.ByteString? || !utf8(name.value.bytes) then Panic
        else Value(Info(pieceLength.value.value, pieces.value.bytes, None, name.value.bytes))
  }

  /**
   * `From<&Bencodable> for MetaInfoFile`: the top level and its "info" must be
   * dictionaries and "announce" a UTF-8 byte string, or the source panics;
   * every optional field is `None`, whatever the input holds.
   */
  function FromBencodable(b: Bencodable, utf8: Utf8Check): (r: Outcome<MetaInfoFile>)
    ensures !b.Dictionary? ==> r.Panic?
    ensures b.Dictionary? && !(Lookup(b.entries, MetaInfo.INFO).Some? && Lookup(b.entries, MetaInfo.INFO).value.Dictionary?) ==> r.Panic?
    ensures r.Value? <==>
              && b.Dictionary?
              && Lookup(b.entries, MetaInfo.INFO).Some? && Lookup(b.entries, MetaInfo.INFO).value.Dictionary?
              && InfoOf(Lookup(b.entries, MetaInfo.INFO).value.entries, utf8).Value?
              && Lookup(b.entries, MetaInfo.ANNOUNCE).Some? && Lookup(b.entries, MetaInfo.ANNOUNCE).value.ByteString?
              && utf8(Lookup(b.entries, MetaInfo.ANNOUNCE).value.bytes)
    ensures r.Value? ==>
              && r.value.info == InfoOf(Lookup(b.entries, MetaInfo.INFO).value.entries, utf8).value
              && Lookup(b.entries, MetaInfo.ANNOUNCE) == Some(ByteString(r.value.announce))
              && r.value.announceList.None? && r.value.creationDate.None? && r.value.comment.None?
              && r.value.createdBy.None? && r.value.encoding.None?
  {
    if !b.Dictionary? then Panic
    else
      var info := Lookup(b.entries, MetaInfo.INFO);
      if info.None? || !info.value.Dictionary? then Panic
      else
        var fields := InfoOf(info.value.entries, utf8);
        if fields.Panic? then Panic
        else
          var announce := Lookup(b.entries, MetaInfo.ANNOUNCE);
          if announce.None? || !announce.value.ByteString? || !utf8(announce.value.bytes) then Panic
          else Value(MetaInfoFile(fields.value, announce.value.bytes, None, None, None, None, None))
  }

  /** A metainfo dictionary: "announce" and "info", keys in ascending order. */
  function MetaInfoDictionary(announce: Bytes, info: Bencodable): Bencodable
  {
    Dictionary([Entry(MetaInfo.ANNOUNCE, ByteString(announce)), Entry(MetaInfo.INFO, info)])
  }

  lemma AnnounceIsNotInfo()
    ensures MetaInfo.ANNOUNCE != MetaInfo.INFO
  {
    assert MetaInfo.ANNOUNCE[0] != MetaInfo.INFO[0];
  }

  /**
   * The single-file info dictionary the other reader accepts reads back here
   * as the same piece length and name, with the "pieces" bytes kept raw and
   * the "length" ignored.
   */
  lemma SingleFileRoundTrip(announce: Bytes, length: i32, name: Bytes, pieceLength: i32, pieces: Bytes, utf8: Utf8Check)
    requires utf8(name) && utf8(announce)
    ensures FromBencodable(MetaInfoDictionary(announce, MetaInfo.SingleFileInfo(length, name, pieceLength, pieces)), utf8)
         == Value(MetaInfoFile(Info(pieceLength, pieces, None, name), announce, None, None, None, None, None))
  {
    var info := MetaInfo.SingleFileInfo(length, name, pieceLength, pieces);
    AnnounceIsNotInfo();
    MetaInfo.Lookup2(Entry(MetaInfo.ANNOUNCE, ByteString(announce)), Entry(MetaInfo.INFO, info), MetaInfo.INFO);
    MetaInfo.Lookup2(Entry(MetaInfo.ANNOUNCE, ByteString(announce)), Entry(MetaInfo.INFO, info), MetaInfo.ANNOUNCE);
    MetaInfo.SingleFileLookups(length, name, pieceLength, pieces);
  }

  /** An "info" dictionary missing "piece length" makes the reader panic. */
  lemma MissingPieceLengthPanics(announce: Bytes, btm: seq<Entry>, utf8: Utf8Check)
    requires Lookup(btm, MetaInfo.PIECE_LENGTH).None?
    ensures FromBencodable(MetaInfoDictionary(announce, Dictionary(btm)), utf8).Panic?
  {
    AnnounceIsNotInfo();
    MetaInfo.Lookup2(Entry(MetaInfo.ANNOUNCE, ByteString(announce)), Entry(MetaInfo.INFO, Dictionary(btm)), MetaInfo.INFO);
  }
}
