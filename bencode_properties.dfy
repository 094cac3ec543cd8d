/**
 * What the byte-based bencoder and decoder promise together (src/bencode.rs,
 * and the decode/encode/decode comparison in src/main.rs): decoding an
 * encoding gives the value back, whatever decodes is well formed and so
 * survives a second round, and malformed input fails at a predictable place.
 *
 * Positions in the input are passed to the lemmas below as parameters tied
 * to their arithmetic by a `requires`, so that each lemma's conclusion speaks
 * of exactly the positions its caller works with.
 */
module BencodeProperties {
  import opened RustTypes
  import opened Bencode
  import opened BencodeDecode
  import Decimal

  /** `t` occurs in `s` starting at index `i` (stated byte by byte, from the front). */
  predicate IsAt(s: Bytes, i: nat, t: Bytes)
    decreases |t|
  {
    i + |t| <= |s| && (t == [] || (s[i] == t[0] && IsAt(s, i + 1, t[1..])))
  }

  lemma {:induction false} IsAtOf(s: Bytes, i: nat, t: Bytes)
    requires i + |t| <= |s|
    requires forall k :: 0 <= k < |t| ==> s[i + k] == t[k]
    ensures IsAt(s, i, t)
    decreases |t|
  {
    if t != [] {
      assert s[i + 0] == t[0];
      forall k | 0 <= k < |t[1..]| ensures s[i + 1 + k] == t[1..][k] {
        assert s[i + (k + 1)] == t[k + 1];
      }
      IsAtOf(s, i + 1, t[1..]);
    }
  }

  /** The byte at position `p`, which is `k` bytes into the occurrence. */
  lemma {:induction false} IsAtIndex(s: Bytes, i: nat, t: Bytes, k: nat, p: nat)
    requires IsAt(s, i, t) && k < |t| && p == i + k
    ensures s[p] == t[k]
    decreases k
  {
    if k > 0 {
      IsAtIndex(s, i + 1, t[1..], k - 1, p);
    }
  }

  lemma IsAtCons(s: Bytes, i: nat, x: byte, t: Bytes, j: nat)
    requires IsAt(s, i, [x] + t) && j == i + 1
    ensures i < |s| && s[i] == x && IsAt(s, j, t)
  {
    assert ([x] + t)[0] == x && ([x] + t)[1..] == t;
  }

  /** An occurrence of `a + b` is an occurrence of `a` followed, at `j`, by one of `b`. */
  lemma {:induction false} IsAtSplit(s: Bytes, i: nat, a: Bytes, b: Bytes, j: nat)
    requires IsAt(s, i, a + b) && j == i + |a|
    ensures IsAt(s, i, a) && IsAt(s, j, b)
    decreases |a|
  {
    if a == [] {
      assert a + b == b;
    } else {
      assert (a + b)[0] == a[0] && (a + b)[1..] == a[1..] + b;
      IsAtSplit(s, i + 1, a[1..], b, j);
    }
  }

  /** The occurrence, as a slice of `s` ending at `end`. */
  lemma {:induction false} IsAtSlice(s: Bytes, i: nat, t: Bytes, end: nat)
    requires IsAt(s, i, t) && end == i + |t|
    ensures s[i..end] == t
    decreases |t|
  {
    if t != [] {
      IsAtSlice(s, i + 1, t[1..], end);
      assert s[i..end] == [s[i]] + s[i + 1..end];
    }
  }

  lemma IsAtWhole(s: Bytes)
    ensures IsAt(s, 0, s)
  {
    IsAtOf(s, 0, s);
  }

  lemma IsAtPrefix(a: Bytes, b: Bytes)
    ensures IsAt(a + b, 0, a)
  {
    IsAtOf(a + b, 0, a);
  }

  lemma IsAtAfter(x: byte, a: Bytes, b: Bytes)
    ensures IsAt([x] + a + b, 1, a)
  {
    forall k | 0 <= k < |a| ensures ([x] + a + b)[1 + k] == a[k] {
      assert ([x] + a + b)[1 + k] == (a + b)[k];
    }
    IsAtOf([x] + a + b, 1, a);
  }

  lemma AppendFirst<T>(acc: seq<T>, items: seq<T>)
    requires items != []
    ensures acc + [items[0]] + items[1..] == acc + items
  {
  }

  lemma ItemsTail(items: seq<Bencodable>)
    requires items != []
    requires forall k :: 0 <= k < |items| ==> WellFormed(items[k])
    ensures forall k :: 0 <= k < |items[1..]| ==> WellFormed(items[1..][k])
  {
    forall k | 0 <= k < |items[1..]| ensures WellFormed(items[1..][k]) {
      assert items[1..][k] == items[k + 1];
    }
  }

  lemma EntriesTail(es: seq<Entry>)
    requires es != []
    requires forall k :: 0 <= k < |es| ==> |es[k].key| <= USIZE_MAX && WellFormed(es[k].value)
    ensures forall k :: 0 <= k < |es[1..]| ==> |es[1..][k].key| <= USIZE_MAX && WellFormed(es[1..][k].value)
  {
    forall k | 0 <= k < |es[1..]| ensures |es[1..][k].key| <= USIZE_MAX && WellFormed(es[1..][k].value) {
      assert es[1..][k] == es[k + 1];
    }
  }

  // One unfolding of the decoder at a time, so that the proofs below stay small.

  lemma ValueAtByteString(s: Bytes, i: nat)
    requires i < |s| && Decimal.IsDigit(s[i])
    ensures ValueAt(s, i) == ByteStringAt(s, i)
  {
  }

  lemma ValueAtInteger(s: Bytes, i: nat, j: nat)
    requires i < |s| && s[i] == I && j == i + 1
    ensures ValueAt(s, i) == IntegerAt(s, j)
  {
  }

  lemma ValueAtList(s: Bytes, i: nat, j: nat)
    requires i < |s| && s[i] == L && j == i + 1
    ensures ValueAt(s, i) == ListAt(s, j)
    ensures j < |s| ==> ListAt(s, j) == ListFrom(s, j, [])
  {
  }

  lemma ValueAtDictionary(s: Bytes, i: nat, j: nat)
    requires i < |s| && s[i] == D && j == i + 1
    ensures ValueAt(s, i) == DictionaryAt(s, j)
    ensures j < |s| ==> DictionaryAt(s, j) == DictionaryFrom(s, j, [])
  {
  }

  lemma ListFromNext(s: Bytes, i: nat, acc: seq<Bencodable>, item: ParseResult)
    requires i < |s| && s[i] != E && ValueAt(s, i) == Ok(item)
    ensures item.index < |s| ==> ListFrom(s, i, acc) == ListFrom(s, item.index, acc + [item.bencodable])
    ensures item.index >= |s| ==> ListFrom(s, i, acc) == Fail(BencodeParseErrorType.ParseList, item.index)
  {
  }

  lemma DictionaryFromNext(s: Bytes, i: nat, acc: seq<Entry>, key: ParseResult, value: ParseResult)
    requires i < |s| && s[i] != E && ValueAt(s, i) == Ok(key) && key.bencodable.ByteString?
    requires ValueAt(s, key.index) == Ok(value)
    ensures value.index < |s| ==>
              DictionaryFrom(s, i, acc)
              == DictionaryFrom(s, value.index, acc + [Entry(key.bencodable.bytes, value.bencodable)])
    ensures value.index >= |s| ==>
              DictionaryFrom(s, i, acc) == Fail(BencodeParseErrorType.ParseByteStringLength, value.index)
  {
  }

  lemma ByteStringAtParts(s: Bytes, i: nat, colon: nat, start: nat, length: nat, end: nat)
    requires i < colon < |s| && ScanTo(s, i, COLON) == colon
    requires Decimal.ParseUnsigned(s[i..colon], USIZE_MAX) == Some(length)
    requires start == colon + 1 && end == start + length <= |s|
    ensures ByteStringAt(s, i) == Ok(ParseResult(end, ByteString(s[start..end])))
  {
  }

  lemma IntegerAtParts(s: Bytes, i: nat, end: nat, n: i32, next: nat)
    requires i <= end < |s| && ScanTo(s, i, E) == end && next == end + 1
    requires Decimal.ParseSigned(s[i..end], I32_MIN, I32_MAX) == Some(n)
    ensures IntegerAt(s, i) == Ok(ParseResult(next, Integer(n)))
  {
  }

  /** The scan for `c` passes over `f`, which does not contain it, and stops at the `c` after it. */
  lemma ScanPast(s: Bytes, i: nat, f: Bytes, c: byte, stop: nat)
    requires IsAt(s, i, f) && stop == i + |f| && stop < |s| && s[stop] == c
    requires forall k :: 0 <= k < |f| ==> f[k] != c
    ensures ScanTo(s, i, c) == stop
  {
    forall k | i <= k < stop ensures s[k] != c {
      IsAtIndex(s, i, f, k - i, k);
    }
    ScanToFind(s, i, c, stop);
  }

  // ---------------------------------------------------------------------------
  // Round trip
  // ---------------------------------------------------------------------------

  lemma ByteStringAtEncoding(b: Bytes, s: Bytes, i: nat, end: nat)
    requires |b| <= USIZE_MAX
    requires IsAt(s, i, ByteStringEncoding(b)) && end == i + |ByteStringEncoding(b)|
    ensures i < |s| && Decimal.IsDigit(s[i])
    ensures ByteStringAt(s, i) == Ok(ParseResult(end, ByteString(b)))
  {
    var f := Decimal.FormatNat(|b|);
    var colon := i + |f|;
    var start := colon + 1;
    assert ByteStringEncoding(b) == f + ([COLON] + b);
    IsAtSplit(s, i, f, [COLON] + b, colon);
    IsAtCons(s, colon, COLON, b, start);
    IsAtIndex(s, i, f, 0, i);
    ScanPast(s, i, f, COLON, colon);
    IsAtSlice(s, i, f, colon);
    Decimal.ParseUnsignedFormatNat(|b|, USIZE_MAX);
    IsAtSlice(s, start, b, end);
    ByteStringAtParts(s, i, colon, start, |b|, end);
  }

  lemma IntegerAtEncoding(n: i32, s: Bytes, i: nat, next: nat)
    requires IsAt(s, i, Decimal.FormatInt(n) + [E]) && next == i + |Decimal.FormatInt(n)| + 1
    ensures IntegerAt(s, i) == Ok(ParseResult(next, Integer(n)))
  {
    var f := Decimal.FormatInt(n);
    var end := i + |f|;
    IsAtSplit(s, i, f, [E], end);
    IsAtIndex(s, end, [E], 0, end);
    ScanPast(s, i, f, E, end);
    IsAtSlice(s, i, f, end);
    Decimal.ParseSignedFormatInt(n, I32_MIN, I32_MAX);
    IntegerAtParts(s, i, end, n, next);
  }

  lemma ValueAtByteStringEncoding(b: Bytes, s: Bytes, i: nat, next: nat)
    requires |b| <= USIZE_MAX
    requires IsAt(s, i, Encoding(ByteString(b))) && next == i + |Encoding(ByteString(b))|
    ensures ValueAt(s, i) == Ok(ParseResult(next, ByteString(b)))
  {
    ByteStringAtEncoding(b, s, i, next);
    ValueAtByteString(s, i);
  }

  lemma ValueAtIntegerEncoding(n: i32, s: Bytes, i: nat, next: nat)
    requires IsAt(s, i, Encoding(Integer(n))) && next == i + |Encoding(Integer(n))|
    ensures ValueAt(s, i) == Ok(ParseResult(next, Integer(n)))
  {
    var j := i + 1;
    assert Encoding(Integer(n)) == [I] + (Decimal.FormatInt(n) + [E]);
    IsAtCons(s, i, I, Decimal.FormatInt(n) + [E], j);
    ValueAtInteger(s, i, j);
    IntegerAtEncoding(n, s, j, next);
  }

  /** A well-formed value's encoding, wherever it sits in the input, decodes to that value. */
  lemma {:induction false} ValueAtEncoding(v: Bencodable, s: Bytes, i: nat, next: nat)
    requires WellFormed(v)
    requires IsAt(s, i, Encoding(v)) && next == i + |Encoding(v)|
    ensures ValueAt(s, i) == Ok(ParseResult(next, v))
    decreases v, 3
  {
    match v {
      case ByteString(b) => ValueAtByteStringEncoding(b, s, i, next);
      case Integer(n) => ValueAtIntegerEncoding(n, s, i, next);
      case List(items) => ValueAtListEncoding(items, s, i, next);
      case Dictionary(es) =>
        ValueAtDictionaryEncoding(es, s, i, next);
        assert [] + es == es;
        InsertAllSorted([], es);
    }
  }

  lemma {:induction false} ValueAtListEncoding(items: seq<Bencodable>, s: Bytes, i: nat, next: nat)
    requires forall k :: 0 <= k < |items| ==> WellFormed(items[k])
    requires IsAt(s, i, Encoding(List(items))) && next == i + |Encoding(List(items))|
    ensures ValueAt(s, i) == Ok(ParseResult(next, List(items)))
    decreases items, 2
  {
    var j := i + 1;
    assert Encoding(List(items)) == [L] + (ItemsEncoding(items) + [E]);
    IsAtCons(s, i, L, ItemsEncoding(items) + [E], j);
    ListFromEncoding(items, s, j, [], next);
    ValueAtList(s, i, j);
    assert [] + items == items;
  }

  /**
   * Any sequence of entries, encoded in that order (keys need not be sorted
   * and may repeat), decodes to the dictionary built by inserting them one
   * after the other.
   */
  lemma {:induction false} ValueAtDictionaryEncoding(es: seq<Entry>, s: Bytes, i: nat, next: nat)
    requires forall k :: 0 <= k < |es| ==> |es[k].key| <= USIZE_MAX && WellFormed(es[k].value)
    requires IsAt(s, i, [D] + EntriesEncoding(es) + [E]) && next == i + |EntriesEncoding(es)| + 2
    ensures ValueAt(s, i) == Ok(ParseResult(next, Dictionary(InsertAll([], es))))
    decreases es, 2
  {
    var j := i + 1;
    assert [D] + EntriesEncoding(es) + [E] == [D] + (EntriesEncoding(es) + [E]);
    IsAtCons(s, i, D, EntriesEncoding(es) + [E], j);
    DictionaryFromEncoding(es, s, j, [], next);
    ValueAtDictionary(s, i, j);
    assert [] + es == es;
  }

  /** Reading the first element of a list encoding and moving past it, to `mid`. */
  lemma {:induction false} ListHeadEncoding(items: seq<Bencodable>, s: Bytes, i: nat, acc: seq<Bencodable>, mid: nat)
    requires items != []
    requires forall k :: 0 <= k < |items| ==> WellFormed(items[k])
    requires IsAt(s, i, ItemsEncoding(items) + [E]) && mid == i + |Encoding(items[0])|
    ensures mid < |s| && IsAt(s, mid, ItemsEncoding(items[1..]) + [E])
    ensures ListFrom(s, i, acc) == ListFrom(s, mid, acc + [items[0]])
    decreases items, 0
  {
    var head := Encoding(items[0]);
    var tail := ItemsEncoding(items[1..]) + [E];
    assert ItemsEncoding(items) + [E] == head + tail;
    IsAtSplit(s, i, head, tail, mid);
    EncodingFraming(items[0]);
    IsAtIndex(s, i, head, 0, i);
    ValueAtEncoding(items[0], s, i, mid);
    ListFromNext(s, i, acc, ParseResult(mid, items[0]));
  }

  lemma {:induction false} ListFromEncoding(items: seq<Bencodable>, s: Bytes, i: nat, acc: seq<Bencodable>, end: nat)
    requires forall k :: 0 <= k < |items| ==> WellFormed(items[k])
    requires IsAt(s, i, ItemsEncoding(items) + [E]) && end == i + |ItemsEncoding(items)| + 1
    ensures i < |s|
    ensures ListFrom(s, i, acc) == Ok(ParseResult(end, List(acc + items)))
    decreases items, 1
  {
    if items == [] {
      assert ItemsEncoding(items) + [E] == [E];
      IsAtIndex(s, i, [E], 0, i);
      assert acc + items == acc;
    } else {
      var mid := i + |Encoding(items[0])|;
      var acc' := acc + [items[0]];
      var rest := items[1..];
      assert |ItemsEncoding(items)| == |Encoding(items[0])| + |ItemsEncoding(rest)|;
      ListHeadEncoding(items, s, i, acc, mid);
      ItemsTail(items);
      ListFromEncoding(rest, s, mid, acc', end);
      AppendFirst(acc, items);
    }
  }

  /** Reading one entry of a dictionary encoding: its key up to `mid`, then its value up to `next`. */
  lemma {:induction false} EntryAtEncoding(e: Entry, s: Bytes, i: nat, mid: nat, next: nat)
    requires |e.key| <= USIZE_MAX && WellFormed(e.value)
    requires IsAt(s, i, ByteStringEncoding(e.key) + Encoding(e.value))
    requires mid == i + |ByteStringEncoding(e.key)| && next == mid + |Encoding(e.value)|
    ensures i < |s| && s[i] != E
    ensures ValueAt(s, i) == Ok(ParseResult(mid, ByteString(e.key)))
    ensures ValueAt(s, mid) == Ok(ParseResult(next, e.value))
    decreases e, 0
  {
    IsAtSplit(s, i, ByteStringEncoding(e.key), Encoding(e.value), mid);
    ByteStringAtEncoding(e.key, s, i, mid);
    ValueAtByteString(s, i);
    ValueAtEncoding(e.value, s, mid, next);
  }

  /** Reading the first entry of a dictionary encoding and moving past it, to `next`. */
  lemma {:induction false} DictionaryHeadEncoding(es: seq<Entry>, s: Bytes, i: nat, acc: seq<Entry>, next: nat)
    requires es != []
    requires forall k :: 0 <= k < |es| ==> |es[k].key| <= USIZE_MAX && WellFormed(es[k].value)
    requires IsAt(s, i, EntriesEncoding(es) + [E])
    requires next == i + |ByteStringEncoding(es[0].key) + Encoding(es[0].value)|
    ensures next < |s| && IsAt(s, next, EntriesEncoding(es[1..]) + [E])
    ensures DictionaryFrom(s, i, acc) == DictionaryFrom(s, next, acc + [es[0]])
    decreases es, 0
  {
    var entry := ByteStringEncoding(es[0].key) + Encoding(es[0].value);
    var tail := EntriesEncoding(es[1..]) + [E];
    var mid := i + |ByteStringEncoding(es[0].key)|;
    assert EntriesEncoding(es) + [E] == entry + tail;
    IsAtSplit(s, i, entry, tail, next);
    EntryAtEncoding(es[0], s, i, mid, next);
    DictionaryFromNext(s, i, acc, ParseResult(mid, ByteString(es[0].key)), ParseResult(next, es[0].value));
  }

  lemma {:induction false} DictionaryFromEncoding(es: seq<Entry>, s: Bytes, i: nat, acc: seq<Entry>, end: nat)
    requires forall k :: 0 <= k < |es| ==> |es[k].key| <= USIZE_MAX && WellFormed(es[k].value)
    requires IsAt(s, i, EntriesEncoding(es) + [E]) && end == i + |EntriesEncoding(es)| + 1
    ensures i < |s|
    ensures DictionaryFrom(s, i, acc) == Ok(ParseResult(end, Dictionary(InsertAll([], acc + es))))
    decreases es, 1
  {
    if es == [] {
      assert EntriesEncoding(es) + [E] == [E];
      IsAtIndex(s, i, [E], 0, i);
      assert acc + es == acc;
    } else {
      var next := i + |ByteStringEncoding(es[0].key) + Encoding(es[0].value)|;
      var acc' := acc + [es[0]];
      var rest := es[1..];
      assert |EntriesEncoding(es)| == |ByteStringEncoding(es[0].key) + Encoding(es[0].value)| + |EntriesEncoding(rest)|;
      DictionaryHeadEncoding(es, s, i, acc, next);
      EntriesTail(es);
      DictionaryFromEncoding(rest, s, next, acc', end);
      AppendFirst(acc, es);
    }
  }

  /** `bdecode(bencode(v)) == v` for every value. */
  lemma DecodeEncoding(v: Bencodable)
    requires WellFormed(v)
    ensures Decode(Encoding(v)) == Ok(v)
  {
    var s := Encoding(v);
    IsAtWhole(s);
    ValueAtEncoding(v, s, 0, |s|);
  }

  /** Bytes after a complete value are rejected, at the index where they start. */
  lemma DecodeTrailing(v: Bencodable, rest: Bytes)
    requires WellFormed(v)
    requires rest != []
    ensures Decode(Encoding(v) + rest) == Err(BencodeParseError(BencodeParseErrorType.ParseEnd, |Encoding(v)|))
  {
    var s := Encoding(v) + rest;
    IsAtPrefix(Encoding(v), rest);
    ValueAtEncoding(v, s, 0, |Encoding(v)|);
  }

  /**
   * A dictionary whose entries arrive in any order, repeats included, decodes
   * to the map that inserting them in order builds: sorted by key, with the
   * value given last for a repeated key.
   */
  lemma DecodeDictionary(es: seq<Entry>)
    requires forall k :: 0 <= k < |es| ==> |es[k].key| <= USIZE_MAX && WellFormed(es[k].value)
    ensures Decode([D] + EntriesEncoding(es) + [E]) == Ok(Dictionary(InsertAll([], es)))
  {
    var s := [D] + EntriesEncoding(es) + [E];
    IsAtWhole(s);
    ValueAtDictionaryEncoding(es, s, 0, |s|);
  }

  /** When a key appears twice, the dictionary keeps the value given last. */
  lemma DuplicateKeyLastWins(k: Bytes, v1: Bencodable, v2: Bencodable)
    requires |k| <= USIZE_MAX && WellFormed(v1) && WellFormed(v2)
    ensures Decode([D] + EntriesEncoding([Entry(k, v1), Entry(k, v2)]) + [E]) == Ok(Dictionary([Entry(k, v2)]))
  {
    var es := [Entry(k, v1), Entry(k, v2)];
    DecodeDictionary(es);
    calc {
      InsertAll([], es);
      InsertAll(Insert([], k, v1), es[1..]);
      { assert Insert([], k, v1) == [Entry(k, v1)] && es[1..] == [Entry(k, v2)]; }
      InsertAll([Entry(k, v1)], [Entry(k, v2)]);
      InsertAll(Insert([Entry(k, v1)], k, v2), []);
      { assert Insert([Entry(k, v1)], k, v2) == [Entry(k, v2)]; }
      [Entry(k, v2)];
    }
  }

  // ---------------------------------------------------------------------------
  // Whatever decodes is well formed
  // ---------------------------------------------------------------------------

  lemma {:induction false} ValueAtWellFormed(s: Bytes, i: nat)
    ensures ValueAt(s, i).Ok? ==> WellFormed(ValueAt(s, i).value.bencodable)
    decreases |s| - i, 0
  {
    if i < |s| {
      var j := i + 1;
      if s[i] == L && j < |s| {
        ValueAtList(s, i, j);
        ListFromWellFormed(s, j, []);
      } else if s[i] == D && j < |s| {
        ValueAtDictionary(s, i, j);
        DictionaryFromWellFormed(s, j, []);
      }
    }
  }

  lemma {:induction false} ListFromWellFormed(s: Bytes, i: nat, acc: seq<Bencodable>)
    requires i < |s|
    requires forall k :: 0 <= k < |acc| ==> WellFormed(acc[k])
    ensures ListFrom(s, i, acc).Ok? ==> WellFormed(ListFrom(s, i, acc).value.bencodable)
    decreases |s| - i, 1
  {
    if s[i] != E {
      ValueAtWellFormed(s, i);
      var item := ValueAt(s, i);
      if item.Ok? {
        ListFromNext(s, i, acc, item.value);
        if item.value.index < |s| {
          ListFromWellFormed(s, item.value.index, acc + [item.value.bencodable]);
        }
      }
    }
  }

  lemma {:induction false} DictionaryFromWellFormed(s: Bytes, i: nat, acc: seq<Entry>)
    requires i < |s|
    requires forall k :: 0 <= k < |acc| ==> |acc[k].key| <= USIZE_MAX && WellFormed(acc[k].value)
    ensures DictionaryFrom(s, i, acc).Ok? ==> WellFormed(DictionaryFrom(s, i, acc).value.bencodable)
    decreases |s| - i, 1
  {
    if s[i] == E {
      InsertAllWellFormed([], acc);
    } else {
      var key := ValueAt(s, i);
      if key.Ok? && key.value.bencodable.ByteString? {
        var value := ValueAt(s, key.value.index);
        if value.Ok? {
          ValueAtWellFormed(s, key.value.index);
          DictionaryFromNext(s, i, acc, key.value, value.value);
          ValueAtWellFormed(s, i);
          if value.value.index < |s| {
            DictionaryFromWellFormed(s, value.value.index,
              acc + [Entry(key.value.bencodable.bytes, value.value.bencodable)]);
          }
        }
      }
    }
  }

  /** Anything `bdecode` accepts is a well-formed value. */
  lemma DecodeWellFormed(s: Bytes)
    requires Decode(s).Ok?
    ensures WellFormed(Decode(s).value)
  {
    ValueAtWellFormed(s, 0);
  }

  /**
   * The consistency check of the command-line client: decode, encode again,
   * decode again, and the two decoded values agree.
   */
  lemma DecodeEncodeDecode(s: Bytes)
    requires Decode(s).Ok?
    ensures Decode(Encoding(Decode(s).value)) == Decode(s)
  {
    DecodeWellFormed(s);
    DecodeEncoding(Decode(s).value);
  }

  // ---------------------------------------------------------------------------
  // Where malformed input fails
  // ---------------------------------------------------------------------------

  lemma {:induction false} ListFromUnterminated(items: seq<Bencodable>, s: Bytes, i: nat, acc: seq<Bencodable>)
    requires items != []
    requires forall k :: 0 <= k < |items| ==> WellFormed(items[k])
    requires IsAt(s, i, ItemsEncoding(items)) && i + |ItemsEncoding(items)| == |s| && i < |s|
    ensures ListFrom(s, i, acc) == Err(BencodeParseError(BencodeParseErrorType.ParseList, |s|))
    decreases items
  {
    var head := Encoding(items[0]);
    var mid := i + |head|;
    var rest := items[1..];
    assert ItemsEncoding(items) == head + ItemsEncoding(rest);
    IsAtSplit(s, i, head, ItemsEncoding(rest), mid);
    EncodingFraming(items[0]);
    IsAtIndex(s, i, head, 0, i);
    ValueAtEncoding(items[0], s, i, mid);
    ListFromNext(s, i, acc, ParseResult(mid, items[0]));
    if rest != [] {
      ItemsTail(items);
      EncodingFraming(rest[0]);
      ListFromUnterminated(rest, s, mid, acc + [items[0]]);
    } else {
      assert mid == |s|;
    }
  }

  /** A list that runs out of input before its `e` fails with `ParseList` at the end of the input. */
  lemma UnterminatedList(items: seq<Bencodable>)
    requires forall k :: 0 <= k < |items| ==> WellFormed(items[k])
    ensures Decode([L] + ItemsEncoding(items))
         == Err(BencodeParseError(BencodeParseErrorType.ParseList, 1 + |ItemsEncoding(items)|))
  {
    var s := [L] + ItemsEncoding(items);
    ValueAtList(s, 0, 1);
    if items != [] {
      EncodingFraming(items[0]);
      IsAtAfter(L, ItemsEncoding(items), []);
      assert [L] + ItemsEncoding(items) + [] == s;
      ListFromUnterminated(items, s, 1, []);
    }
  }

  lemma {:induction false} DictionaryFromUnterminated(es: seq<Entry>, s: Bytes, i: nat, acc: seq<Entry>)
    requires es != []
    requires forall k :: 0 <= k < |es| ==> |es[k].key| <= USIZE_MAX && WellFormed(es[k].value)
    requires IsAt(s, i, EntriesEncoding(es)) && i + |EntriesEncoding(es)| == |s|
    ensures DictionaryFrom(s, i, acc) == Err(BencodeParseError(BencodeParseErrorType.ParseByteStringLength, |s|))
    decreases es
  {
    var entry := ByteStringEncoding(es[0].key) + Encoding(es[0].value);
    var mid := i + |ByteStringEncoding(es[0].key)|;
    var next := i + |entry|;
    var rest := es[1..];
    assert EntriesEncoding(es) == entry + EntriesEncoding(rest);
    IsAtSplit(s, i, entry, EntriesEncoding(rest), next);
    EntryAtEncoding(es[0], s, i, mid, next);
    DictionaryFromNext(s, i, acc, ParseResult(mid, ByteString(es[0].key)), ParseResult(next, es[0].value));
    if rest != [] {
      EntriesTail(es);
      DictionaryFromUnterminated(rest, s, next, acc + [es[0]]);
    } else {
      assert next == |s|;
    }
  }

  /**
   * A dictionary that runs out of input before its `e`: an empty one fails with
   * `ParseDictionary`, one with entries with `ParseByteStringLength`, both at
   * the end of the input.
   */
  lemma UnterminatedDictionary(es: seq<Entry>)
    requires forall k :: 0 <= k < |es| ==> |es[k].key| <= USIZE_MAX && WellFormed(es[k].value)
    ensures es == [] ==>
              Decode([D] + EntriesEncoding(es)) == Err(BencodeParseError(BencodeParseErrorType.ParseDictionary, 1))
    ensures es != [] ==>
              Decode([D] + EntriesEncoding(es))
              == Err(BencodeParseError(BencodeParseErrorType.ParseByteStringLength, 1 + |EntriesEncoding(es)|))
  {
    var s := [D] + EntriesEncoding(es);
    ValueAtDictionary(s, 0, 1);
    if es == [] {
      assert s == [D];
      assert ValueAt(s, 0) == Fail(BencodeParseErrorType.ParseDictionary, 1);
    } else {
      IsAtAfter(D, EntriesEncoding(es), []);
      assert [D] + EntriesEncoding(es) + [] == s;
      DictionaryFromUnterminated(es, s, 1, []);
      assert ValueAt(s, 0) == Fail(BencodeParseErrorType.ParseByteStringLength, |s|);
    }
  }

  /**
   * A byte string cut short (its length promises more bytes than follow)
   * fails with `ParseByteString` at the colon.
   */
  lemma TruncatedByteString(b: Bytes, cut: nat)
    requires |b| <= USIZE_MAX
    requires 0 < cut <= |b|
    ensures Decode(ByteStringEncoding(b)[..|ByteStringEncoding(b)| - cut])
         == Err(BencodeParseError(BencodeParseErrorType.ParseByteString, |Decimal.FormatNat(|b|)|))
  {
    var f := Decimal.FormatNat(|b|);
    var s := ByteStringEncoding(b)[..|ByteStringEncoding(b)| - cut];
    var colon := |f|;
    assert s[colon] == COLON;
    assert forall k :: 0 <= k < colon ==> s[k] == f[k];
    ScanToFind(s, 0, COLON, colon);
    assert s[0..colon] == f;
    Decimal.ParseUnsignedFormatNat(|b|, USIZE_MAX);
    ValueAtByteString(s, 0);
  }

  /** A dictionary key that is not a byte string fails with `ParseDictionary` where the key starts. */
  lemma NonByteStringKey(v: Bencodable, rest: Bytes)
    requires WellFormed(v) && !v.ByteString?
    ensures Decode([D] + Encoding(v) + rest) == Err(BencodeParseError(BencodeParseErrorType.ParseDictionary, 1))
  {
    var s := [D] + Encoding(v) + rest;
    IsAtAfter(D, Encoding(v), rest);
    EncodingFraming(v);
    IsAtIndex(s, 1, Encoding(v), 0, 1);
    ValueAtEncoding(v, s, 1, 1 + |Encoding(v)|);
    ValueAtDictionary(s, 0, 1);
  }
}
