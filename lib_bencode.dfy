/**
 * The older, `String`-based bencoder and decoder (src/lib.rs).
 *
 * Text is modelled by its character codes, one position per character, so the
 * values are the same `Bencodable`s as the byte-based codec's and positions are
 * character positions (`chars().nth(i)`); for ASCII text these are also the
 * byte positions that `len()` and slicing use.
 *
 * Unlike src/bencode.rs, this decoder has one untyped error, panics (through
 * `unwrap` and slicing) on a malformed length or integer, and its integer,
 * list and dictionary parsers return the index OF their closing `e` rather
 * than one past it. The specification functions take a `Variant`: `AsWritten`
 * is the code as it stands, `Corrected` returns one past the closing `e`.
 */
module LibBencode {
  import opened RustTypes
  import opened Codec = Bencode
  import BencodeDecode
  import Decimal
  import Util

  // ---------------------------------------------------------------------------
  // Encoding
  // ---------------------------------------------------------------------------

  /** The text of a byte string: its length in decimal, `:`, the characters. */
  function ByteStringText(bs: Bytes): Bytes
  {
    Decimal.FormatNat(|bs|) + [COLON] + bs
  }

  /**
   * `bencode`: each arm is built by concatenation; lists and dictionaries map
   * `bencode` over their elements (entries in key order) and join the pieces
   * with the empty separator. It writes the same text as the byte-based
   * bencoder for every value: the length-prefixed string, `i<n>e`, `l...e` in
   * element order and `d...e` in key order.
   */
  function Bencode(b: Bencodable): (r: Bytes)
    ensures r == Encoding(b)
    decreases b, 1
  {
    match b
    case ByteString(bs) => ByteStringText(bs)
    case Integer(n) => [I] + Decimal.FormatInt(n) + [E]
    case List(lb) =>
      var texts := ItemTexts(lb);
      assert texts == Encodings(lb);
      AttachEncodings(lb);
      [L] + Util.AttachBytes(texts) + [E]
    case Dictionary(m) =>
      var texts := EntryTexts(m);
      assert texts == EntryEncodings(m);
      AttachEntryEncodings(m);
      [D] + Util.AttachBytes(texts) + [E]
  }

  /** `lb.iter().map(bencode)`: one text per element, its encoding. */
  function ItemTexts(lb: seq<Bencodable>): (r: seq<Bytes>)
    ensures |r| == |lb|
    ensures forall k :: 0 <= k < |lb| ==> r[k] == Encoding(lb[k])
    decreases lb, 0
  {
    seq(|lb|, k requires 0 <= k < |lb| => Bencode(lb[k]))
  }

  /** `m.iter().map(|(k, v)| bencode(ByteString(k)) + bencode(v))`: one text per entry, key then value. */
  function EntryTexts(m: seq<Entry>): (r: seq<Bytes>)
    ensures |r| == |m|
    ensures forall k :: 0 <= k < |m| ==> r[k] == ByteStringEncoding(m[k].key) + Encoding(m[k].value)
    decreases m, 0
  {
    seq(|m|, k requires 0 <= k < |m| => ByteStringText(m[k].key) + Bencode(m[k].value))
  }

  /** The encodings of the elements, one per element. */
  function Encodings(lb: seq<Bencodable>): seq<Bytes>
  {
    seq(|lb|, k requires 0 <= k < |lb| => Encoding(lb[k]))
  }

  /** The encodings of the entries, key then value, one per entry. */
  function EntryEncodings(m: seq<Entry>): seq<Bytes>
  {
    seq(|m|, k requires 0 <= k < |m| => ByteStringEncoding(m[k].key) + Encoding(m[k].value))
  }

  /** Joining the elements' encodings with the empty separator is the list body. */
  lemma {:induction false} AttachEncodings(lb: seq<Bencodable>)
    ensures Util.AttachBytes(Encodings(lb)) == ItemsEncoding(lb)
    decreases |lb|
  {
    if lb != [] {
      assert Encodings(lb)[1..] == Encodings(lb[1..]);
      AttachEncodings(lb[1..]);
    }
  }

  /** Joining the entries' encodings with the empty separator is the dictionary body. */
  lemma {:induction false} AttachEntryEncodings(m: seq<Entry>)
    ensures Util.AttachBytes(EntryEncodings(m)) == EntriesEncoding(m)
    decreases |m|
  {
    if m != [] {
      assert EntryEncodings(m)[1..] == EntryEncodings(m[1..]);
      AttachEntryEncodings(m[1..]);
    }
  }

  // ---------------------------------------------------------------------------
  // Decoding: specification
  // ---------------------------------------------------------------------------

  /** The decoder's only error, which carries no information. */
  datatype BencodeParseError = BencodeParseError

  type ParseResult = BencodeDecode.ParseResult

  /** A parse either panics, or returns a value and the index where it stopped, or fails. */
  type Parsed = Outcome<Result<ParseResult, BencodeParseError>>

  const Failed: Parsed := Value(Err(BencodeParseError))

  function Found(index: nat, v: Bencodable): Parsed
  {
    Value(Ok(BencodeDecode.ParseResult(index, v)))
  }

  predicate Stopped(r: Parsed)
  {
    r.Value? && r.value.Ok?
  }

  /** Where an integer, list or dictionary parser reports it stopped, given the index of its `e`. */
  datatype Variant = AsWritten | Corrected

  function After(variant: Variant, e: nat): nat
  {
    if variant == AsWritten then e else e + 1
  }

  /**
   * `parse_byte_string`: the length text runs up to the first `:` (running out
   * of input is an error); a length that does not parse, or one that reaches
   * past the end of the input, panics.
   */
  function ByteStringAt(s: Bytes, i: nat): (r: Parsed)
    ensures Stopped(r) ==> i < r.value.value.index <= |s|
  {
    if i >= |s| then Failed
    else
      var colon := BencodeDecode.ScanTo(s, i, COLON);
      if colon == |s| then Failed
      else
        match Decimal.ParseUnsigned(s[i..colon], USIZE_MAX)
        case None => Panic
        case Some(length) =>
          if colon + 1 + length <= |s| then Found(colon + 1 + length, ByteString(s[colon + 1..colon + 1 + length]))
          else Panic
  }

  /** `parse_integer`: the text from `i` up to the first `e` must parse as an `i32`, or it panics. */
  function IntegerAt(s: Bytes, i: nat, variant: Variant): (r: Parsed)
    ensures Stopped(r) ==> i <= r.value.value.index <= |s|
  {
    if i >= |s| then Failed
    else
      var end := BencodeDecode.ScanTo(s, i, E);
      if end == |s| then Failed
      else
        match Decimal.ParseSigned(s[i..end], I32_MIN, I32_MAX)
        case None => Panic
        case Some(n) => Found(After(variant, end), Integer(n))
  }

  /** `parse_bencoded_value`: dispatch on the character at `i`. */
  function ValueAt(s: Bytes, i: nat, variant: Variant): (r: Parsed)
    ensures Stopped(r) ==> i < r.value.value.index <= |s|
    decreases |s| - i, 0
  {
    if i >= |s| then Failed
    else if Decimal.IsDigit(s[i]) then ByteStringAt(s, i)
    else if s[i] == I then IntegerAt(s, i + 1, variant)
    else if s[i] == L then ListFrom(s, i + 1, [], variant)
    else if s[i] == D then DictionaryFrom(s, i + 1, [], variant)
    else Failed
  }

  /** `parse_list` from `i`, after the elements `acc` have been read. */
  function ListFrom(s: Bytes, i: nat, acc: seq<Bencodable>, variant: Variant): (r: Parsed)
    ensures Stopped(r) ==> i <= r.value.value.index <= |s|
    decreases |s| - i, 1
  {
    if i >= |s| then Failed
    else if s[i] == E then Found(After(variant, i), List(acc))
    else
      match ValueAt(s, i, variant)
      case Panic => Panic
      case Value(Err(e)) => Value(Err(e))
      case Value(Ok(item)) => ListFrom(s, item.index, acc + [item.bencodable], variant)
  }

  /**
   * `parse_dictionary` from `i`, after the entries `pairs` have been read (in
   * input order). A key that is not a byte string is an error; the map is the
   * pairs inserted in order, so a repeated key keeps its last value.
   */
  function DictionaryFrom(s: Bytes, i: nat, pairs: seq<Entry>, variant: Variant): (r: Parsed)
    ensures Stopped(r) ==> i <= r.value.value.index <= |s|
    decreases |s| - i, 1
  {
    if i >= |s| then Failed
    else if s[i] == E then Found(After(variant, i), Dictionary(InsertAll([], pairs)))
    else
      match ValueAt(s, i, variant)
      case Panic => Panic
      case Value(Err(e)) => Value(Err(e))
      case Value(Ok(key)) =>
        if !key.bencodable.ByteString? then Failed
        else
          match ValueAt(s, key.index, variant)
          case Panic => Panic
          case Value(Err(e)) => Value(Err(e))
          case Value(Ok(value)) =>
            DictionaryFrom(s, value.index, pairs + [Entry(key.bencodable.bytes, value.bencodable)], variant)
  }

  // ---------------------------------------------------------------------------
  // The source's parsers
  // ---------------------------------------------------------------------------

  /** `parse_byte_string`: accumulate the length text up to `:`, `unwrap` its parse, slice the text. */
  method ParseByteString(index: nat, bencodedValue: Bytes) returns (r: Parsed)
    ensures r == ByteStringAt(bencodedValue, index)
  {
    var s := bencodedValue;
    var i := index;
    var lengthString: seq<int> := [];
    if i >= |s| {
      return Failed;
    }
    var nextChar := s[i];
    while nextChar != COLON
      invariant index <= i < |s| && nextChar == s[i]
      invariant lengthString == s[index..i]
      invariant forall k :: index <= k < i ==> s[k] != COLON
      decreases |s| - i
    {
      i := i + 1;
      lengthString := lengthString + [nextChar];
      if i >= |s| {
        BencodeDecode.ScanToFind(s, index, COLON, i);
        return Failed;
      }
      nextChar := s[i];
    }
    BencodeDecode.ScanToFind(s, index, COLON, i);
    match Decimal.ParseUnsigned(lengthString, USIZE_MAX) {
      case None =>
        return Panic;
      case Some(length) =>
        if i + 1 + length > |s| {
          return Panic;
        }
        return Found(i + 1 + length, ByteString(s[i + 1..i + 1 + length]));
    }
  }

  /** `parse_integer`: accumulate the text up to `e` and `unwrap` its parse; the index returned is the `e`'s. */
  method ParseInteger(index: nat, bencodedValue: Bytes) returns (r: Parsed)
    ensures r == IntegerAt(bencodedValue, index, AsWritten)
  {
    var s := bencodedValue;
    var i := index;
    var integerString: seq<int> := [];
    if i >= |s| {
      return Failed;
    }
    var nextChar := s[i];
    while nextChar != E
      invariant index <= i < |s| && nextChar == s[i]
      invariant integerString == s[index..i]
      invariant forall k :: index <= k < i ==> s[k] != E
      decreases |s| - i
    {
      i := i + 1;
      integerString := integerString + [nextChar];
      if i >= |s| {
        BencodeDecode.ScanToFind(s, index, E, i);
        return Failed;
      }
      nextChar := s[i];
    }
    BencodeDecode.ScanToFind(s, index, E, i);
    match Decimal.ParseSigned(integerString, I32_MIN, I32_MAX) {
      case None =>
        return Panic;
      case Some(integer) =>
        return Found(i, Integer(integer));
    }
  }

  /** `parse_list`: read values until an `e` stands where the next one would start; return that `e`'s index. */
  method ParseList(index: nat, bencodedValue: Bytes) returns (r: Parsed)
    ensures r == ListFrom(bencodedValue, index, [], AsWritten)
    decreases |bencodedValue| - index, 2
  {
    var s := bencodedValue;
    var i := index;
    var bencodables: seq<Bencodable> := [];
    if i >= |s| {
      return Failed;
    }
    var nextChar := s[i];
    while nextChar != E
      invariant index <= i < |s| && nextChar == s[i]
      invariant ListFrom(s, index, [], AsWritten) == ListFrom(s, i, bencodables, AsWritten)
      decreases |s| - i
    {
      var item := ParseBencodedValue(i, s);
      if item.Panic? {
        return Panic;
      }
      if item.value.Err? {
        return Value(Err(item.value.error));
      }
      bencodables := bencodables + [item.value.value.bencodable];
      i := item.value.value.index;
      if i >= |s| {
        return Failed;
      }
      nextChar := s[i];
    }
    return Found(i, List(bencodables));
  }

  /** `parse_dictionary`: read key/value pairs into a `BTreeMap` until an `e`; return that `e`'s index. */
  method ParseDictionary(index: nat, bencodedValue: Bytes) returns (r: Parsed)
    ensures r == DictionaryFrom(bencodedValue, index, [], AsWritten)
    decreases |bencodedValue| - index, 2
  {
    var s := bencodedValue;
    var i := index;
    var bencodables: seq<Entry> := [];
    ghost var pairs: seq<Entry> := [];
    if i >= |s| {
      return Failed;
    }
    var nextChar := s[i];
    while nextChar != E
      invariant index <= i < |s| && nextChar == s[i]
      invariant bencodables == InsertAll([], pairs)
      invariant DictionaryFrom(s, index, [], AsWritten) == DictionaryFrom(s, i, pairs, AsWritten)
      decreases |s| - i
    {
      var keyResult := ParseBencodedValue(i, s);
      if keyResult.Panic? {
        return Panic;
      }
      if keyResult.value.Err? {
        return Value(Err(keyResult.value.error));
      }
      if !keyResult.value.value.bencodable.ByteString? {
        return Failed;
      }
      var result := ParseBencodedValue(keyResult.value.value.index, s);
      if result.Panic? {
        return Panic;
      }
      if result.value.Err? {
        return Value(Err(result.value.error));
      }
      var key := keyResult.value.value.bencodable.bytes;
      var value := result.value.value.bencodable;
      InsertAllAppend([], pairs, Entry(key, value));
      bencodables := Insert(bencodables, key, value);
      pairs := pairs + [Entry(key, value)];
      i := result.value.value.index;
      if i >= |s| {
        return Failed;
      }
      nextChar := s[i];
    }
    return Found(i, Dictionary(bencodables));
  }

  /** `parse_bencoded_value`: dispatch on the first character. */
  method ParseBencodedValue(index: nat, bencodedValue: Bytes) returns (r: Parsed)
    ensures r == ValueAt(bencodedValue, index, AsWritten)
    decreases |bencodedValue| - index, 0
  {
    var i := index;
    if i >= |bencodedValue| {
      return Failed;
    }
    var b := bencodedValue[i];
    if Decimal.IsDigit(b) {
      r := ParseByteString(i, bencodedValue);
    } else if b == I {
      r := ParseInteger(i + 1, bencodedValue);
    } else if b == L {
      r := ParseList(i + 1, bencodedValue);
    } else if b == D {
      r := ParseDictionary(i + 1, bencodedValue);
    } else {
      r := Failed;
    }
  }
}
