/**
 * The byte-based bencoding decoder (src/bencode.rs, `parse_*` and `bdecode`).
 *
 * Every parser takes a start index into the whole input and returns the value
 * it read together with the index just past it, or an error that names what
 * was being parsed and where it stopped. The functions `ByteStringAt`,
 * `IntegerAt`, `ValueAt`, `ListFrom`, `DictionaryFrom` and `Decode` specify
 * the parsers; the methods `ParseByteString`, `ParseInteger`, `ParseList`,
 * `ParseDictionary`, `ParseBencodedValue` and `BDecode` are the source's
 * loops, each proved equal to its specification.
 */
module BencodeDecode {
  import opened RustTypes
  import opened Bencode
  import Decimal

  datatype BencodeParseErrorType =
    | ParseInteger
    | ParseList
    | ParseDictionary
    | ParseByteString
    | ParseByteStringLength
    | ParseInitiate
    | ParseEnd
    | ParseValue

  datatype BencodeParseError = BencodeParseError(errorType: BencodeParseErrorType, index: nat)

  datatype ParseResult = ParseResult(index: nat, bencodable: Bencodable)

  type Parsed = Result<ParseResult, BencodeParseError>

  function Fail(t: BencodeParseErrorType, i: nat): Parsed
  {
    Err(BencodeParseError(t, i))
  }

  // ---------------------------------------------------------------------------
  // Specification
  // ---------------------------------------------------------------------------

  /** The first position at or after `i` that holds `c`, or the input length when none does. */
  function ScanTo(s: Bytes, i: nat, c: byte): (j: nat)
    requires i <= |s|
    ensures i <= j <= |s|
    ensures j < |s| ==> s[j] == c
    decreases |s| - i
  {
    if i == |s| || s[i] == c then i else ScanTo(s, i + 1, c)
  }

  /** `ScanTo` finds `j` exactly when no `c` comes before it and `j` holds `c` or is the end. */
  lemma {:induction false} ScanToFind(s: Bytes, i: nat, c: byte, j: nat)
    requires i <= j <= |s|
    ensures ScanTo(s, i, c) == j <==> (j < |s| ==> s[j] == c) && forall k :: i <= k < j ==> s[k] != c
    decreases |s| - i
  {
    if i < |s| && s[i] != c {
      if i < j {
        ScanToFind(s, i + 1, c, j);
      } else {
        ScanToFind(s, i + 1, c, ScanTo(s, i + 1, c));
      }
    }
  }

  /**
   * A byte string starting at `i`: the length text runs up to the first `:`,
   * must parse as a `usize`, and that many bytes must follow the colon.
   */
  function ByteStringAt(s: Bytes, i: nat): (r: Parsed)
    ensures r.Ok? ==> i < r.value.index <= |s|
  {
    if i >= |s| then Fail(BencodeParseErrorType.ParseByteString, i)
    else
      var colon := ScanTo(s, i, COLON);
      if colon == |s| then Fail(BencodeParseErrorType.ParseByteStringLength, colon)
      else
        match Decimal.ParseUnsigned(s[i..colon], USIZE_MAX)
        case None => Fail(BencodeParseErrorType.ParseByteStringLength, colon)
        case Some(length) =>
          if colon + 1 + length <= |s| then
            Ok(ParseResult(colon + 1 + length, ByteString(s[colon + 1..colon + 1 + length])))
          else Fail(BencodeParseErrorType.ParseByteString, colon)
  }

  /** An integer whose text starts at `i` (just after the `i`) and runs to the first `e`. */
  function IntegerAt(s: Bytes, i: nat): (r: Parsed)
    ensures r.Ok? ==> i < r.value.index <= |s|
  {
    if i >= |s| then Fail(BencodeParseErrorType.ParseInteger, i)
    else
      var end := ScanTo(s, i, E);
      if end == |s| then Fail(BencodeParseErrorType.ParseInteger, end)
      else
        match Decimal.ParseSigned(s[i..end], I32_MIN, I32_MAX)
        case None => Fail(BencodeParseErrorType.ParseInteger, end)
        case Some(n) => Ok(ParseResult(end + 1, Integer(n)))
  }

  /** Any value at `i`, chosen by its first byte. */
  function ValueAt(s: Bytes, i: nat): (r: Parsed)
    ensures r.Ok? ==> i < r.value.index <= |s|
    decreases |s| - i, 0
  {
    if i >= |s| then Fail(BencodeParseErrorType.ParseValue, i)
    else if Decimal.IsDigit(s[i]) then ByteStringAt(s, i)
    else if s[i] == I then IntegerAt(s, i + 1)
    else if s[i] == L then ListAt(s, i + 1)
    else if s[i] == D then DictionaryAt(s, i + 1)
    else Fail(BencodeParseErrorType.ParseInitiate, i)
  }

  /** A list whose elements start at `i` (just after the `l`). */
  function ListAt(s: Bytes, i: nat): (r: Parsed)
    ensures r.Ok? ==> i < r.value.index <= |s|
    decreases |s| - i, 2
  {
    if i < |s| then ListFrom(s, i, []) else Fail(BencodeParseErrorType.ParseList, i)
  }

  /** The rest of a list from `i`, after the elements `acc` have been read. */
  function ListFrom(s: Bytes, i: nat, acc: seq<Bencodable>): (r: Parsed)
    requires i < |s|
    ensures r.Ok? ==> i < r.value.index <= |s|
    decreases |s| - i, 1
  {
    if s[i] == E then Ok(ParseResult(i + 1, List(acc)))
    else
      match ValueAt(s, i)
      case Err(e) => Err(e)
      case Ok(item) =>
        if item.index < |s| then ListFrom(s, item.index, acc + [item.bencodable])
        else Fail(BencodeParseErrorType.ParseList, item.index)
  }

  /** A dictionary whose entries start at `i` (just after the `d`). */
  function DictionaryAt(s: Bytes, i: nat): (r: Parsed)
    ensures r.Ok? ==> i < r.value.index <= |s|
    decreases |s| - i, 2
  {
    if i < |s| then DictionaryFrom(s, i, []) else Fail(BencodeParseErrorType.ParseDictionary, i)
  }

  /**
   * The rest of a dictionary from `i`, after the entries `pairs` have been
   * read (in input order). A key must decode as a byte string. The map is
   * the pairs inserted in order, so a repeated key keeps its last value.
   */
  function DictionaryFrom(s: Bytes, i: nat, pairs: seq<Entry>): (r: Parsed)
    requires i < |s|
    ensures r.Ok? ==> i < r.value.index <= |s|
    decreases |s| - i, 1
  {
    if s[i] == E then Ok(ParseResult(i + 1, Dictionary(InsertAll([], pairs))))
    else
      match ValueAt(s, i)
      case Err(e) => Err(e)
      case Ok(key) =>
        if !key.bencodable.ByteString? then Fail(BencodeParseErrorType.ParseDictionary, i)
        else
          match ValueAt(s, key.index)
          case Err(e) => Err(e)
          case Ok(value) =>
            if value.index < |s| then
              DictionaryFrom(s, value.index, pairs + [Entry(key.bencodable.bytes, value.bencodable)])
            else Fail(BencodeParseErrorType.ParseByteStringLength, value.index)
  }

  /** A whole input: one value, then nothing. */
  function Decode(s: Bytes): Result<Bencodable, BencodeParseError>
  {
    match ValueAt(s, 0)
    case Err(e) => Err(e)
    case Ok(pr) =>
      if pr.index < |s| then Err(BencodeParseError(BencodeParseErrorType.ParseEnd, pr.index))
      else Ok(pr.bencodable)
  }

  // ---------------------------------------------------------------------------
  // The source's parsers
  // ---------------------------------------------------------------------------

  /** `parse_byte_string`: accumulate the length text up to `:`, parse it, slice the bytes. */
  method ParseByteString(index: nat, bencodedValue: Bytes) returns (r: Parsed)
    ensures r == ByteStringAt(bencodedValue, index)
  {
    var s := bencodedValue;
    var i := index;
    var lengthString: seq<int> := [];
    if i >= |s| {
      return Fail(BencodeParseErrorType.ParseByteString, i);
    }
    var nextChar := s[i];
    while nextChar != COLON
      invariant index <= i < |s| && nextChar == s[i]
      invariant lengthString == s[index..i]
      invariant forall k :: index <= k < i ==> s[k] != COLON
      decreases |s| - i
    {
      i := i + 1;
      lengthString := lengthString + [nextChar];
      if i >= |s| {
        return Fail(BencodeParseErrorType.ParseByteStringLength, i);
      }
      nextChar := s[i];
    }
    ScanToFind(s, index, COLON, i);
    match Decimal.ParseUnsigned(lengthString, USIZE_MAX) {
      case None =>
        return Fail(BencodeParseErrorType.ParseByteStringLength, i);
      case Some(length) =>
        if i + 1 + length > |s| {
          return Fail(BencodeParseErrorType.ParseByteString, i);
        }
        var relevantSlice := s[i + 1..i + 1 + length];
        return Ok(ParseResult(i + 1 + length, ByteString(relevantSlice)));
    }
  }

  /** `parse_integer`: accumulate the text up to `e` and parse it as an `i32`. */
  method ParseInteger(index: nat, bencodedValue: Bytes) returns (r: Parsed)
    ensures r == IntegerAt(bencodedValue, index)
  {
    var s := bencodedValue;
    var i := index;
    var integerString: seq<int> := [];
    if i >= |s| {
      return Fail(BencodeParseErrorType.ParseInteger, i);
    }
    var nextChar := s[i];
    while nextChar != E
      invariant index <= i < |s| && nextChar == s[i]
      invariant integerString == s[index..i]
      invariant forall k :: index <= k < i ==> s[k] != E
      decreases |s| - i
    {
      i := i + 1;
      integerString := integerString + [nextChar];
      if i >= |s| {
        ScanToFind(s, index, E, i);
        return Fail(BencodeParseErrorType.ParseInteger, i);
      }
      nextChar := s[i];
    }
    ScanToFind(s, index, E, i);
    match Decimal.ParseSigned(integerString, I32_MIN, I32_MAX) {
      case None =>
        return Fail(BencodeParseErrorType.ParseInteger, i);
      case Some(integer) =>
        return Ok(ParseResult(i + 1, Integer(integer)));
    }
  }

  /** `parse_list`: read values until an `e` stands where the next value would start. */
  method ParseList(index: nat, bencodedValue: Bytes) returns (r: Parsed)
    ensures r == ListAt(bencodedValue, index)
    decreases |bencodedValue| - index, 2
  {
    var s := bencodedValue;
    var i := index;
    var bencodables: seq<Bencodable> := [];
    if i >= |s| {
      return Fail(BencodeParseErrorType.ParseList, i);
    }
    var nextChar := s[i];
    while nextChar != E
      invariant index <= i < |s| && nextChar == s[i]
      invariant ListFrom(s, index, []) == ListFrom(s, i, bencodables)
      decreases |s| - i
    {
      var item := ParseBencodedValue(i, s);
      if item.Err? {
        return Err(item.error);
      }
      bencodables := bencodables + [item.value.bencodable];
      i := item.value.index;
      if i >= |s| {
        return Fail(BencodeParseErrorType.ParseList, i);
      }
      nextChar := s[i];
    }
    return Ok(ParseResult(i + 1, List(bencodables)));
  }

  /** `parse_dictionary`: read key/value pairs into a `BTreeMap` until an `e`. */
  method ParseDictionary(index: nat, bencodedValue: Bytes) returns (r: Parsed)
    ensures r == DictionaryAt(bencodedValue, index)
    decreases |bencodedValue| - index, 2
  {
    var s := bencodedValue;
    var i := index;
    var bencodables: seq<Entry> := [];
    ghost var pairs: seq<Entry> := [];
    if i >= |s| {
      return Fail(BencodeParseErrorType.ParseDictionary, i);
    }
    var nextChar := s[i];
    while nextChar != E
      invariant index <= i < |s| && nextChar == s[i]
      invariant bencodables == InsertAll([], pairs)
      invariant DictionaryFrom(s, index, []) == DictionaryFrom(s, i, pairs)
      decreases |s| - i
    {
      var keyResult := ParseBencodedValue(i, s);
      if keyResult.Err? {
        return Err(keyResult.error);
      }
      if !keyResult.value.bencodable.ByteString? {
        return Fail(BencodeParseErrorType.ParseDictionary, i);
      }
      var result := ParseBencodedValue(keyResult.value.index, s);
      if result.Err? {
        return Err(result.error);
      }
      var key := keyResult.value.bencodable.bytes;
      var value := result.value.bencodable;
      InsertAllAppend([], pairs, Entry(key, value));
      bencodables := Insert(bencodables, key, value);
      pairs := pairs + [Entry(key, value)];
      i := result.value.index;
      if i >= |s| {
        return Fail(BencodeParseErrorType.ParseByteStringLength, i);
      }
      nextChar := s[i];
    }
    return Ok(ParseResult(i + 1, Dictionary(bencodables)));
  }

  /** `parse_bencoded_value`: dispatch on the first byte. */
  method ParseBencodedValue(index: nat, bencodedValue: Bytes) returns (r: Parsed)
    ensures r == ValueAt(bencodedValue, index)
    decreases |bencodedValue| - index, 0
  {
    var i := index;
    if i >= |bencodedValue| {
      return Fail(BencodeParseErrorType.ParseValue, i);
    }
    var b := bencodedValue[i];
    if Decimal.IsDigit(b) {
      r := ParseByteString(i, bencodedValue);
    } else if b == I {
      r := ParseInteger(i + 1, bencodedValue);
    } else if b == L {
      r := ParseList(i + 1, bencodedValue);
    } else if b == D {
      r := ParseDictionary(i + 1, bencodedValue);
    } else {
      r := Fail(BencodeParseErrorType.ParseInitiate, i);
    }
  }

  /** `bdecode`: one value from index 0, and an error if any byte is left over. */
  method BDecode(bencodedBytes: Bytes) returns (r: Result<Bencodable, BencodeParseError>)
    ensures r == Decode(bencodedBytes)
  {
    var pr := ParseBencodedValue(0, bencodedBytes);
    match pr {
      case Err(e) =>
        r := Err(e);
      case Ok(p) =>
        var nextIndex := p.index;
        if nextIndex < |bencodedBytes| {
          r := Err(BencodeParseError(BencodeParseErrorType.ParseEnd, nextIndex));
        } else {
          r := Ok(p.bencodable);
        }
    }
  }
}
