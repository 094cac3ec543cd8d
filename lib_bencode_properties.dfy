/**
 * What the `String`-based codec of src/lib.rs does with encoded values.
 *
 * With its parsers returning the index of their own closing `e`, an enclosing
 * list or dictionary sees that `e` where the next element would start and stops
 * there: a container is read back in full only while every element but the
 * last is a byte string (`Safe`), and the index it reports is `Stop`. The
 * corrected parsers, which return one past the `e`, agree with the byte-based
 * decoder of src/bencode.rs on everything it accepts, and so read back every
 * encoding.
 */
module LibBencodeProperties {
  import opened RustTypes
  import opened Codec = Bencode
  import BD = BencodeDecode
  import opened LibBencode
  import P = BencodeProperties
  import Decimal

  // ---------------------------------------------------------------------------
  // Byte strings and integers, next to the byte-based decoder
  // ---------------------------------------------------------------------------

  /** Where the byte-based decoder reads a byte string, this one reads the same one and stops at the same place. */
  lemma ByteStringAgrees(s: Bytes, i: nat)
    ensures BD.ByteStringAt(s, i).Ok? ==> ByteStringAt(s, i) == Value(Ok(BD.ByteStringAt(s, i).value))
  {
  }

  /**
   * Where the byte-based decoder reads an integer and stops one past its `e`,
   * this one reads the same integer and reports the `e` itself (as written)
   * or one past it (corrected).
   */
  lemma IntegerAgrees(s: Bytes, i: nat, variant: Variant, e: nat)
    requires BD.IntegerAt(s, i).Ok? && e + 1 == BD.IntegerAt(s, i).value.index
    ensures e < |s| && s[e] == E
    ensures IntegerAt(s, i, variant) == Found(After(variant, e), BD.IntegerAt(s, i).value.bencodable)
  {
  }

  // ---------------------------------------------------------------------------
  // The corrected decoder reads back every encoding
  // ---------------------------------------------------------------------------

  lemma {:induction false} CorrectedValueAt(s: Bytes, i: nat)
    ensures BD.ValueAt(s, i).Ok? ==> ValueAt(s, i, Corrected) == Value(Ok(BD.ValueAt(s, i).value))
    decreases |s| - i, 0
  {
    if i < |s| {
      var j := i + 1;
      if Decimal.IsDigit(s[i]) {
        ByteStringAgrees(s, i);
      } else if s[i] == I {
        if BD.IntegerAt(s, j).Ok? {
          IntegerAgrees(s, j, Corrected, BD.IntegerAt(s, j).value.index - 1);
        }
      } else if s[i] == L && j < |s| {
        P.ValueAtList(s, i, j);
        CorrectedListFrom(s, j, []);
      } else if s[i] == D && j < |s| {
        P.ValueAtDictionary(s, i, j);
        CorrectedDictionaryFrom(s, j, []);
      }
    }
  }

  lemma {:induction false} CorrectedListFrom(s: Bytes, i: nat, acc: seq<Bencodable>)
    requires i < |s|
    ensures BD.ListFrom(s, i, acc).Ok? ==> ListFrom(s, i, acc, Corrected) == Value(Ok(BD.ListFrom(s, i, acc).value))
    decreases |s| - i, 1
  {
    if s[i] != E {
      CorrectedValueAt(s, i);
      var item := BD.ValueAt(s, i);
      if item.Ok? {
        P.ListFromNext(s, i, acc, item.value);
        if item.value.index < |s| {
          CorrectedListFrom(s, item.value.index, acc + [item.value.bencodable]);
        }
      }
    }
  }

  lemma {:induction false} CorrectedDictionaryFrom(s: Bytes, i: nat, pairs: seq<Entry>)
    requires i < |s|
    ensures BD.DictionaryFrom(s, i, pairs).Ok? ==> DictionaryFrom(s, i, pairs, Corrected) == Value(Ok(BD.DictionaryFrom(s, i, pairs).value))
    decreases |s| - i, 1
  {
    if s[i] != E {
      CorrectedValueAt(s, i);
      var key := BD.ValueAt(s, i);
      if key.Ok? && key.value.bencodable.ByteString? {
        CorrectedValueAt(s, key.value.index);
        var value := BD.ValueAt(s, key.value.index);
        if value.Ok? {
          P.DictionaryFromNext(s, i, pairs, key.value, value.value);
          if value.value.index < |s| {
            CorrectedDictionaryFrom(s, value.value.index,
              pairs + [Entry(key.value.bencodable.bytes, value.value.bencodable)]);
          }
        }
      }
    }
  }

  /** With its parsers returning one past the closing `e`, `parse_bencoded_value(0, bencode(v))` gives `v` back and stops at the end. */
  lemma CorrectedRoundTrip(v: Bencodable)
    requires WellFormed(v)
    ensures ValueAt(LibBencode.Bencode(v), 0, Corrected) == Found(|LibBencode.Bencode(v)|, v)
  {
    var s := Encoding(v);
    P.IsAtWhole(s);
    P.ValueAtEncoding(v, s, 0, |s|);
    CorrectedValueAt(s, 0);
  }

  // ---------------------------------------------------------------------------
  // What the decoder as written reads back
  // ---------------------------------------------------------------------------

  /**
   * The values the decoder as written reads back: in every list and dictionary,
   * all elements but the last are byte strings (the last may be anything of
   * this kind); lengths fit a `usize` and dictionary keys are in order.
   */
  predicate Safe(v: Bencodable)
    decreases v, 1
  {
    match v
    case ByteString(b) => |b| <= USIZE_MAX
    case Integer(_) => true
    case List(items) => SafeItems(items)
    case Dictionary(es) => SortedKeys(es) && SafeEntries(es)
  }

  predicate SafeItems(items: seq<Bencodable>)
    decreases items, 0
  {
    (forall k :: 0 <= k < |items| - 1 ==> items[k].ByteString? && |items[k].bytes| <= USIZE_MAX)
    && (items != [] ==> Safe(items[|items| - 1]))
  }

  predicate SafeEntries(es: seq<Entry>)
    decreases es, 0
  {
    (forall k :: 0 <= k < |es| ==> |es[k].key| <= USIZE_MAX)
    && (forall k :: 0 <= k < |es| - 1 ==> es[k].value.ByteString? && |es[k].value.bytes| <= USIZE_MAX)
    && (es != [] ==> Safe(es[|es| - 1].value))
  }

  /**
   * Where, counted from the start of `Encoding(v)`, the decoder as written says
   * it stopped: one past a byte string; on the `e` of an integer, or of a list
   * or dictionary whose last element is a byte string; and, for a container
   * whose last element is something else, wherever that element stopped.
   */
  function Stop(v: Bencodable): nat
    decreases v, 1
  {
    match v
    case ByteString(b) => |ByteStringEncoding(b)|
    case Integer(n) => 1 + |Decimal.FormatInt(n)|
    case List(items) => 1 + ItemsStop(items)
    case Dictionary(es) => 1 + EntriesStop(es)
  }

  /** Where a list's elements stop, counted from the first of them. */
  function ItemsStop(items: seq<Bencodable>): nat
    decreases items, 0
  {
    if items == [] then 0
    else if |items| == 1 && !items[0].ByteString? then Stop(items[0])
    else |Encoding(items[0])| + ItemsStop(items[1..])
  }

  /** Where a dictionary's entries stop, counted from the first of them. */
  function EntriesStop(es: seq<Entry>): nat
    decreases es, 0
  {
    if es == [] then 0
    else if |es| == 1 && !es[0].value.ByteString? then |ByteStringEncoding(es[0].key)| + Stop(es[0].value)
    else |ByteStringEncoding(es[0].key)| + |Encoding(es[0].value)| + EntriesStop(es[1..])
  }

  lemma SafeItemsTail(items: seq<Bencodable>)
    requires items != [] && SafeItems(items)
    ensures SafeItems(items[1..])
  {
    var rest := items[1..];
    forall k | 0 <= k < |rest| - 1 ensures rest[k].ByteString? && |rest[k].bytes| <= USIZE_MAX {
      assert rest[k] == items[k + 1];
    }
    if rest != [] {
      assert rest[|rest| - 1] == items[|items| - 1];
    }
  }

  lemma SafeEntriesTail(es: seq<Entry>)
    requires es != [] && SafeEntries(es)
    ensures SafeEntries(es[1..])
  {
    var rest := es[1..];
    forall k | 0 <= k < |rest| ensures |rest[k].key| <= USIZE_MAX {
      assert rest[k] == es[k + 1];
    }
    forall k | 0 <= k < |rest| - 1 ensures rest[k].value.ByteString? && |rest[k].value.bytes| <= USIZE_MAX {
      assert rest[k] == es[k + 1];
    }
    if rest != [] {
      assert rest[|rest| - 1] == es[|es| - 1];
    }
  }

  /** Except after a byte string, the decoder as written stops on an `e` inside the encoding. */
  lemma {:induction false} StopAtE(v: Bencodable)
    requires Safe(v) && !v.ByteString?
    ensures Stop(v) < |Encoding(v)| && Encoding(v)[Stop(v)] == E
    decreases v, 1
  {
    match v {
      case Integer(n) =>
      case List(items) =>
        ItemsStopAtE(items);
        assert Encoding(v) == [L] + (ItemsEncoding(items) + [E]);
      case Dictionary(es) =>
        EntriesStopAtE(es);
        assert Encoding(v) == [D] + (EntriesEncoding(es) + [E]);
    }
  }

  lemma {:induction false} ItemsStopAtE(items: seq<Bencodable>)
    requires SafeItems(items)
    ensures ItemsStop(items) < |ItemsEncoding(items) + [E]| && (ItemsEncoding(items) + [E])[ItemsStop(items)] == E
    decreases items, 0
  {
    if items != [] {
      var rest := items[1..];
      assert ItemsEncoding(items) + [E] == Encoding(items[0]) + (ItemsEncoding(rest) + [E]);
      if |items| == 1 && !items[0].ByteString? {
        StopAtE(items[0]);
      } else {
        SafeItemsTail(items);
        ItemsStopAtE(rest);
      }
    }
  }

  /** Position `m` of `tail` is position `|head| + m` of `head + tail`. */
  lemma AtAfter(head: Bytes, tail: Bytes, m: nat)
    requires m < |tail|
    ensures |head| + m < |head + tail| && (head + tail)[|head| + m] == tail[m]
  {
  }

  lemma {:induction false} EntriesStopAtE(es: seq<Entry>)
    requires SafeEntries(es)
    ensures EntriesStop(es) < |EntriesEncoding(es) + [E]| && (EntriesEncoding(es) + [E])[EntriesStop(es)] == E
    decreases es, 0
  {
    if es != [] {
      var rest := es[1..];
      var key := ByteStringEncoding(es[0].key);
      var tail := EntriesEncoding(rest) + [E];
      if |es| == 1 && !es[0].value.ByteString? {
        assert EntriesEncoding(es) + [E] == key + (Encoding(es[0].value) + tail);
        StopAtE(es[0].value);
        assert EntriesStop(es) == |key| + Stop(es[0].value);
        AtAfter(key, Encoding(es[0].value) + tail, Stop(es[0].value));
      } else {
        var head := key + Encoding(es[0].value);
        assert EntriesEncoding(es) + [E] == head + tail;
        SafeEntriesTail(es);
        EntriesStopAtE(rest);
        assert EntriesStop(es) == |head| + EntriesStop(rest);
        AtAfter(head, tail, EntriesStop(rest));
      }
    }
  }

  lemma ListFromNext(s: Bytes, i: nat, acc: seq<Bencodable>, variant: Variant, item: ParseResult)
    requires i < |s| && s[i] != E && ValueAt(s, i, variant) == Value(Ok(item))
    ensures ListFrom(s, i, acc, variant) == ListFrom(s, item.index, acc + [item.bencodable], variant)
  {
  }

  lemma DictionaryFromNext(s: Bytes, i: nat, pairs: seq<Entry>, variant: Variant, key: ParseResult, value: ParseResult)
    requires i < |s| && s[i] != E && ValueAt(s, i, variant) == Value(Ok(key)) && key.bencodable.ByteString?
    requires ValueAt(s, key.index, variant) == Value(Ok(value))
    ensures DictionaryFrom(s, i, pairs, variant)
         == DictionaryFrom(s, value.index, pairs + [Entry(key.bencodable.bytes, value.bencodable)], variant)
  {
  }

  lemma ValueAtByteStringEncoding(b: Bytes, s: Bytes, i: nat, stop: nat, variant: Variant)
    requires |b| <= USIZE_MAX
    requires P.IsAt(s, i, ByteStringEncoding(b)) && stop == i + |ByteStringEncoding(b)|
    ensures ValueAt(s, i, variant) == Found(stop, ByteString(b))
  {
    P.ByteStringAtEncoding(b, s, i, stop);
    ByteStringAgrees(s, i);
  }

  /** An entry's key is read back as a byte string, and its value follows. */
  lemma KeyAtSafe(e: Entry, s: Bytes, i: nat, mid: nat)
    requires |e.key| <= USIZE_MAX
    requires P.IsAt(s, i, ByteStringEncoding(e.key) + Encoding(e.value)) && mid == i + |ByteStringEncoding(e.key)|
    ensures i < |s| && s[i] != E
    ensures ValueAt(s, i, AsWritten) == Found(mid, ByteString(e.key))
    ensures P.IsAt(s, mid, Encoding(e.value))
  {
    var key := ByteStringEncoding(e.key);
    P.IsAtSplit(s, i, key, Encoding(e.value), mid);
    EncodingFraming(ByteString(e.key));
    P.IsAtIndex(s, i, key, 0, i);
    ValueAtByteStringEncoding(e.key, s, i, mid, AsWritten);
  }

  /** A safe value's encoding, wherever it sits in the input, reads back as that value, stopping at `Stop`. */
  lemma {:induction false} ValueAtSafe(v: Bencodable, s: Bytes, i: nat, stop: nat)
    requires Safe(v)
    requires P.IsAt(s, i, Encoding(v)) && stop == i + Stop(v)
    ensures ValueAt(s, i, AsWritten) == Found(stop, v)
    decreases v, 2
  {
    var j := i + 1;
    match v {
      case ByteString(b) =>
        ValueAtByteStringEncoding(b, s, i, stop, AsWritten);
      case Integer(n) =>
        assert Encoding(v) == [I] + (Decimal.FormatInt(n) + [E]);
        IntegerAtSafe(n, s, i, j, stop);
      case List(items) =>
        assert Encoding(v) == [L] + (ItemsEncoding(items) + [E]);
        ListAtSafe(items, s, i, j, stop);
      case Dictionary(es) =>
        assert Encoding(v) == [D] + (EntriesEncoding(es) + [E]);
        DictionaryAtSafe(es, s, i, j, stop);
    }
  }

  lemma IntegerAtSafe(n: i32, s: Bytes, i: nat, j: nat, stop: nat)
    requires P.IsAt(s, i, [I] + (Decimal.FormatInt(n) + [E])) && j == i + 1 && stop == j + |Decimal.FormatInt(n)|
    ensures ValueAt(s, i, AsWritten) == Found(stop, Integer(n))
  {
    var next := stop + 1;
    P.IsAtCons(s, i, I, Decimal.FormatInt(n) + [E], j);
    P.IntegerAtEncoding(n, s, j, next);
    IntegerAgrees(s, j, AsWritten, stop);
  }

  lemma {:induction false} ListAtSafe(items: seq<Bencodable>, s: Bytes, i: nat, j: nat, stop: nat)
    requires SafeItems(items)
    requires P.IsAt(s, i, [L] + (ItemsEncoding(items) + [E])) && j == i + 1 && stop == j + ItemsStop(items)
    ensures ValueAt(s, i, AsWritten) == Found(stop, List(items))
    decreases items, 2
  {
    P.IsAtCons(s, i, L, ItemsEncoding(items) + [E], j);
    ListFromSafe(items, s, j, [], stop);
    assert [] + items == items;
  }

  lemma {:induction false} DictionaryAtSafe(es: seq<Entry>, s: Bytes, i: nat, j: nat, stop: nat)
    requires SortedKeys(es) && SafeEntries(es)
    requires P.IsAt(s, i, [D] + (EntriesEncoding(es) + [E])) && j == i + 1 && stop == j + EntriesStop(es)
    ensures ValueAt(s, i, AsWritten) == Found(stop, Dictionary(es))
    decreases es, 2
  {
    P.IsAtCons(s, i, D, EntriesEncoding(es) + [E], j);
    DictionaryFromSafe(es, s, j, [], stop);
    assert [] + es == es;
    InsertAllSorted([], es);
  }

  lemma {:induction false} ListFromSafe(items: seq<Bencodable>, s: Bytes, i: nat, acc: seq<Bencodable>, stop: nat)
    requires SafeItems(items)
    requires P.IsAt(s, i, ItemsEncoding(items) + [E]) && stop == i + ItemsStop(items)
    ensures ListFrom(s, i, acc, AsWritten) == Found(stop, List(acc + items))
    decreases items, 1
  {
    if items == [] {
      assert ItemsEncoding(items) + [E] == [E];
      P.IsAtIndex(s, i, [E], 0, i);
      assert acc + items == acc;
    } else {
      var x := items[0];
      var rest := items[1..];
      var mid := i + |Encoding(x)|;
      var tail := ItemsEncoding(rest) + [E];
      assert ItemsEncoding(items) + [E] == Encoding(x) + tail;
      P.IsAtSplit(s, i, Encoding(x), tail, mid);
      EncodingFraming(x);
      P.IsAtIndex(s, i, Encoding(x), 0, i);
      if |items| == 1 && !x.ByteString? {
        ValueAtSafe(x, s, i, stop);
        ListFromNext(s, i, acc, AsWritten, BD.ParseResult(stop, x));
        StopAtE(x);
        P.IsAtIndex(s, i, Encoding(x), Stop(x), stop);
        assert items == [x];
      } else {
        ValueAtSafe(x, s, i, mid);
        ListFromNext(s, i, acc, AsWritten, BD.ParseResult(mid, x));
        SafeItemsTail(items);
        ListFromSafe(rest, s, mid, acc + [x], stop);
        P.AppendFirst(acc, items);
      }
    }
  }

  lemma {:induction false} DictionaryFromSafe(es: seq<Entry>, s: Bytes, i: nat, acc: seq<Entry>, stop: nat)
    requires SafeEntries(es)
    requires P.IsAt(s, i, EntriesEncoding(es) + [E]) && stop == i + EntriesStop(es)
    ensures DictionaryFrom(s, i, acc, AsWritten) == Found(stop, Dictionary(InsertAll([], acc + es)))
    decreases es, 1
  {
    if es == [] {
      assert EntriesEncoding(es) + [E] == [E];
      P.IsAtIndex(s, i, [E], 0, i);
      assert acc + es == acc;
    } else {
      var e := es[0];
      var rest := es[1..];
      var key := ByteStringEncoding(e.key);
      var mid := i + |key|;
      var next := mid + |Encoding(e.value)|;
      var tail := EntriesEncoding(rest) + [E];
      assert EntriesEncoding(es) + [E] == (key + Encoding(e.value)) + tail;
      P.IsAtSplit(s, i, key + Encoding(e.value), tail, next);
      KeyAtSafe(e, s, i, mid);
      if |es| == 1 && !e.value.ByteString? {
        ValueAtSafe(e.value, s, mid, stop);
        DictionaryFromNext(s, i, acc, AsWritten, BD.ParseResult(mid, ByteString(e.key)), BD.ParseResult(stop, e.value));
        StopAtE(e.value);
        P.IsAtIndex(s, mid, Encoding(e.value), Stop(e.value), stop);
        assert es == [e];
      } else {
        ValueAtSafe(e.value, s, mid, next);
        DictionaryFromNext(s, i, acc, AsWritten, BD.ParseResult(mid, ByteString(e.key)), BD.ParseResult(next, e.value));
        SafeEntriesTail(es);
        DictionaryFromSafe(rest, s, next, acc + [e], stop);
        P.AppendFirst(acc, es);
      }
    }
  }

  /** `parse_bencoded_value(0, bencode(v))` gives back every safe value. */
  lemma SafeRoundTrip(v: Bencodable)
    requires Safe(v)
    ensures ValueAt(LibBencode.Bencode(v), 0, AsWritten) == Found(Stop(v), v)
  {
    P.IsAtWhole(Encoding(v));
    ValueAtSafe(v, Encoding(v), 0, Stop(v));
  }

  /**
   * A list that starts with an integer is read back as that integer alone: the
   * integer parser reports its `e`, and the list parser takes that `e` for its
   * own. So `li1ei2ee` reads back as a list holding only `1`.
   */
  lemma IntegerEndsList(n: i32, rest: seq<Bencodable>)
    ensures ValueAt(LibBencode.Bencode(List([Integer(n)] + rest)), 0, AsWritten)
         == Found(|Encoding(Integer(n))|, List([Integer(n)]))
  {
    var items := [Integer(n)] + rest;
    var x := Integer(n);
    var s := Encoding(List(items));
    var stop := 1 + Stop(x);
    assert items[0] == x && items[1..] == rest;
    assert ItemsEncoding(items) == Encoding(x) + ItemsEncoding(rest);
    assert s == [L] + Encoding(x) + (ItemsEncoding(rest) + [E]);
    P.IsAtAfter(L, Encoding(x), ItemsEncoding(rest) + [E]);
    ValueAtSafe(x, s, 1, stop);
    StopAtE(x);
    P.IsAtIndex(s, 1, Encoding(x), Stop(x), stop);
    ListFromNext(s, 1, [], AsWritten, BD.ParseResult(stop, x));
    assert stop < |s| && s[stop] == E;
    assert [] + [x] == [x];
    assert ValueAt(s, 0, AsWritten) == ListFrom(s, 1, [], AsWritten);
    assert stop == |Encoding(x)|;
  }

  // ---------------------------------------------------------------------------
  // Malformed input: errors and panics
  // ---------------------------------------------------------------------------

  /** Running out of input before the `e` of an integer is an error. */
  lemma UnterminatedInteger(t: Bytes, variant: Variant)
    requires forall k :: 0 <= k < |t| ==> t[k] != E
    ensures ValueAt([I] + t, 0, variant) == Failed
  {
    var s := [I] + t;
    if 1 < |s| {
      forall k | 1 <= k < |s| ensures s[k] != E {
        assert s[k] == t[k - 1];
      }
      BD.ScanToFind(s, 1, E, |s|);
    }
  }

  /** Running out of input before the `:` of a byte string is an error. */
  lemma UnterminatedLength(t: Bytes)
    requires t != [] && Decimal.IsDigit(t[0])
    requires forall k :: 0 <= k < |t| ==> t[k] != COLON
    ensures forall variant :: ValueAt(t, 0, variant) == Failed
  {
    BD.ScanToFind(t, 0, COLON, |t|);
  }

  /** Length text that is not a `usize` (too large, say) makes the `unwrap` panic. */
  lemma BadLengthPanics(t: Bytes, rest: Bytes, variant: Variant)
    requires t != [] && Decimal.IsDigit(t[0])
    requires forall k :: 0 <= k < |t| ==> t[k] != COLON
    requires Decimal.ParseUnsigned(t, USIZE_MAX).None?
    ensures ValueAt(t + [COLON] + rest, 0, variant) == Panic
  {
    var s := t + [COLON] + rest;
    var colon := |t|;
    forall k | 0 <= k < colon ensures s[k] != COLON {
      assert s[k] == t[k];
    }
    BD.ScanToFind(s, 0, COLON, colon);
    assert s[0..colon] == t;
  }

  /** A byte string that promises more characters than follow makes the slice panic. */
  lemma ShortByteStringPanics(b: Bytes, cut: nat, variant: Variant)
    requires |b| <= USIZE_MAX
    requires 0 < cut <= |b|
    ensures ValueAt(ByteStringEncoding(b)[..|ByteStringEncoding(b)| - cut], 0, variant) == Panic
  {
    var f := Decimal.FormatNat(|b|);
    var s := ByteStringEncoding(b)[..|ByteStringEncoding(b)| - cut];
    var colon := |f|;
    assert s[colon] == COLON;
    assert forall k :: 0 <= k < colon ==> s[k] == f[k];
    BD.ScanToFind(s, 0, COLON, colon);
    assert s[0..colon] == f;
    Decimal.ParseUnsignedFormatNat(|b|, USIZE_MAX);
  }

  /** Integer text that is not an `i32` makes the `unwrap` panic. */
  lemma BadIntegerPanics(t: Bytes, rest: Bytes, variant: Variant)
    requires forall k :: 0 <= k < |t| ==> t[k] != E
    requires Decimal.ParseSigned(t, I32_MIN, I32_MAX).None?
    ensures ValueAt([I] + t + [E] + rest, 0, variant) == Panic
  {
    var s := [I] + t + [E] + rest;
    var end := 1 + |t|;
    forall k | 1 <= k < end ensures s[k] != E {
      assert s[k] == t[k - 1];
    }
    BD.ScanToFind(s, 1, E, end);
    assert s[1..end] == t;
  }

  /** A list of byte strings that runs out of input before its `e` is an error. */
  lemma {:induction false} ListFromUnterminated(items: seq<Bencodable>, s: Bytes, i: nat, acc: seq<Bencodable>)
    requires forall k :: 0 <= k < |items| ==> items[k].ByteString? && |items[k].bytes| <= USIZE_MAX
    requires P.IsAt(s, i, ItemsEncoding(items)) && i + |ItemsEncoding(items)| == |s|
    ensures ListFrom(s, i, acc, AsWritten) == Failed
    decreases items
  {
    if items != [] {
      var x := items[0];
      var rest := items[1..];
      var mid := i + |Encoding(x)|;
      assert ItemsEncoding(items) == Encoding(x) + ItemsEncoding(rest);
      P.IsAtSplit(s, i, Encoding(x), ItemsEncoding(rest), mid);
      EncodingFraming(x);
      P.IsAtIndex(s, i, Encoding(x), 0, i);
      ValueAtSafe(x, s, i, mid);
      ListFromNext(s, i, acc, AsWritten, BD.ParseResult(mid, x));
      forall k | 0 <= k < |rest| ensures rest[k].ByteString? && |rest[k].bytes| <= USIZE_MAX {
        assert rest[k] == items[k + 1];
      }
      ListFromUnterminated(rest, s, mid, acc + [x]);
    }
  }

  lemma UnterminatedList(items: seq<Bencodable>)
    requires forall k :: 0 <= k < |items| ==> items[k].ByteString? && |items[k].bytes| <= USIZE_MAX
    ensures ValueAt([L] + ItemsEncoding(items), 0, AsWritten) == Failed
  {
    var s := [L] + ItemsEncoding(items);
    P.IsAtAfter(L, ItemsEncoding(items), []);
    assert [L] + ItemsEncoding(items) + [] == s;
    ListFromUnterminated(items, s, 1, []);
  }

  /** A dictionary key that is not a byte string is an error. */
  lemma NonByteStringKey(v: Bencodable, rest: Bytes)
    requires Safe(v) && !v.ByteString?
    ensures ValueAt([D] + Encoding(v) + rest, 0, AsWritten) == Failed
  {
    var s := [D] + Encoding(v) + rest;
    P.IsAtAfter(D, Encoding(v), rest);
    EncodingFraming(v);
    P.IsAtIndex(s, 1, Encoding(v), 0, 1);
    ValueAtSafe(v, s, 1, 1 + Stop(v));
  }
}
