/**
 * The byte-based bencoding value and its encoder (src/bencode.rs).
 *
 * A bencoded value is a byte string, a 32-bit signed integer, a list, or a
 * dictionary from byte strings to values. The source keeps dictionaries in a
 * `BTreeMap`; here a dictionary is the sequence of its entries in ascending key
 * order, which is exactly the order a `BTreeMap` iterates in, and `Insert` and
 * `Lookup` are `BTreeMap::insert` and `BTreeMap::get`.
 */
module Bencode {
  import opened RustTypes
  import Util
  import Decimal

  const COLON: byte := 58  // ':'
  const E: byte := 101     // 'e'
  const I: byte := 105     // 'i'
  const L: byte := 108     // 'l'
  const D: byte := 100     // 'd'

  datatype Bencodable =
    | ByteString(bytes: Bytes)
    | Integer(value: i32)
    | List(items: seq<Bencodable>)
    | Dictionary(entries: seq<Entry>)

  datatype Entry = Entry(key: Bytes, value: Bencodable)

  datatype EncodeError = ListEncodeFailure | DictKeyEncodeFailure | DictValueEncodeFailure

  // ---------------------------------------------------------------------------
  // Key order: the derived `Ord` of `Vec<u8>` (lexicographic, a proper prefix first)
  // ---------------------------------------------------------------------------

  predicate BytesLess(a: Bytes, b: Bytes)
    decreases |a|
  {
    if a == [] then b != []
    else if b == [] then false
    else if a[0] != b[0] then a[0] < b[0]
    else BytesLess(a[1..], b[1..])
  }

  lemma {:induction false} BytesLessIrreflexive(a: Bytes)
    ensures !BytesLess(a, a)
    decreases |a|
  {
    if a != [] { BytesLessIrreflexive(a[1..]); }
  }

  lemma {:induction false} BytesLessTransitive(a: Bytes, b: Bytes, c: Bytes)
    requires BytesLess(a, b) && BytesLess(b, c)
    ensures BytesLess(a, c)
    decreases |a|
  {
    if a != [] && b != [] && c != [] && a[0] == b[0] == c[0] {
      BytesLessTransitive(a[1..], b[1..], c[1..]);
    }
  }

  lemma BytesLessAsymmetric(a: Bytes, b: Bytes)
    requires BytesLess(a, b)
    ensures !BytesLess(b, a)
  {
    if BytesLess(b, a) {
      BytesLessTransitive(a, b, a);
      BytesLessIrreflexive(a);
    }
  }

  lemma {:induction false} BytesLessTotal(a: Bytes, b: Bytes)
    requires a != b
    ensures BytesLess(a, b) || BytesLess(b, a)
    decreases |a|
  {
    if a != [] && b != [] && a[0] == b[0] {
      assert a == [a[0]] + a[1..] && b == [b[0]] + b[1..];
      BytesLessTotal(a[1..], b[1..]);
    }
  }

  // ---------------------------------------------------------------------------
  // Well-formed values: what every Rust value of type `Bencodable` satisfies
  // ---------------------------------------------------------------------------

  /** Keys strictly ascending: the iteration order of a `BTreeMap`, with no duplicate keys. */
  predicate SortedKeys(es: seq<Entry>)
  {
    forall i, j :: 0 <= i < j < |es| ==> BytesLess(es[i].key, es[j].key)
  }

  /** Dictionaries are sorted, and no byte string is longer than a `usize` can count. */
  predicate WellFormed(v: Bencodable)
  {
    match v
    case ByteString(b) => |b| <= USIZE_MAX
    case Integer(_) => true
    case List(items) => forall k :: 0 <= k < |items| ==> WellFormed(items[k])
    case Dictionary(es) =>
      && SortedKeys(es)
      && forall k :: 0 <= k < |es| ==> |es[k].key| <= USIZE_MAX && WellFormed(es[k].value)
  }

  // ---------------------------------------------------------------------------
  // The two `BTreeMap` operations the parser and the tracker use
  // ---------------------------------------------------------------------------

  /** `BTreeMap::get`. */
  function Lookup(es: seq<Entry>, k: Bytes): (r: Option<Bencodable>)
    ensures r.Some? <==> exists j :: 0 <= j < |es| && es[j].key == k
    ensures r.Some? ==> exists j :: 0 <= j < |es| && es[j] == Entry(k, r.value)
  {
    if es == [] then None
    else if es[0].key == k then Some(es[0].value)
    else
      var r := Lookup(es[1..], k);
      assert forall j :: 0 < j < |es| ==> es[j] == es[1..][j - 1];
      assert r.Some? ==> es[1 + (var j :| 0 <= j < |es[1..]| && es[1..][j].key == k; j)].key == k;
      r
  }

  /**
   * `BTreeMap::insert` on the ascending entry sequence: the entry for `k` is
   * replaced if present, otherwise added before the first larger key. What it
   * promises is stated by the lemmas below.
   */
  function Insert(es: seq<Entry>, k: Bytes, v: Bencodable): (r: seq<Entry>)
    ensures |r| == |es| || |r| == |es| + 1
  {
    if es == [] then [Entry(k, v)]
    else if es[0].key == k then [Entry(k, v)] + es[1..]
    else if BytesLess(k, es[0].key) then [Entry(k, v)] + es
    else [es[0]] + Insert(es[1..], k, v)
  }

  /** After inserting, `k` maps to `v` (a value already under `k` is replaced: the last write wins). */
  lemma {:induction false} InsertLookup(es: seq<Entry>, k: Bytes, v: Bencodable)
    ensures Lookup(Insert(es, k, v), k) == Some(v)
  {
    if es != [] && es[0].key != k && !BytesLess(k, es[0].key) {
      InsertLookup(es[1..], k, v);
      assert Insert(es, k, v)[1..] == Insert(es[1..], k, v);
    }
  }

  /** Inserting under `k` leaves every other key's value as it was. */
  lemma {:induction false} InsertOthers(es: seq<Entry>, k: Bytes, v: Bencodable, k': Bytes)
    requires k' != k
    ensures Lookup(Insert(es, k, v), k') == Lookup(es, k')
  {
    var r := Insert(es, k, v);
    if es == [] {
    } else if es[0].key == k {
      assert r[1..] == es[1..];
    } else if BytesLess(k, es[0].key) {
      assert r[1..] == es;
    } else {
      InsertOthers(es[1..], k, v, k');
      assert r[1..] == Insert(es[1..], k, v);
    }
  }

  /** Every entry after inserting is the new one or was there before. */
  lemma {:induction false} InsertEntries(es: seq<Entry>, k: Bytes, v: Bencodable)
    ensures forall e :: e in Insert(es, k, v) ==> e == Entry(k, v) || e in es
  {
    if es != [] && es[0].key != k && !BytesLess(k, es[0].key) {
      InsertEntries(es[1..], k, v);
    }
  }

  /** Insertion keeps the keys strictly ascending. */
  lemma {:induction false} InsertSorted(es: seq<Entry>, k: Bytes, v: Bencodable)
    requires SortedKeys(es)
    ensures SortedKeys(Insert(es, k, v))
  {
    var r := Insert(es, k, v);
    if es == [] {
    } else if es[0].key == k {
      assert r[1..] == es[1..];
      assert forall j :: 0 < j < |r| ==> r[j] == es[j];
    } else if BytesLess(k, es[0].key) {
      assert r[1..] == es;
      forall j | 0 < j < |es| ensures BytesLess(k, es[j].key) {
        BytesLessTransitive(k, es[0].key, es[j].key);
      }
    } else {
      var rest := Insert(es[1..], k, v);
      assert r[1..] == rest;
      InsertSorted(es[1..], k, v);
      InsertEntries(es[1..], k, v);
      BytesLessTotal(k, es[0].key);
      forall j | 0 < j < |r| ensures BytesLess(r[0].key, r[j].key) {
        assert r[j] in rest;
        if r[j] != Entry(k, v) {
          var m :| 0 <= m < |es[1..]| && es[1..][m] == r[j];
          assert es[1 + m] == r[j];
        }
      }
    }
  }

  /** A key larger than every present one lands at the end. */
  lemma {:induction false} InsertAfterAll(es: seq<Entry>, k: Bytes, v: Bencodable)
    requires forall j :: 0 <= j < |es| ==> BytesLess(es[j].key, k)
    ensures Insert(es, k, v) == es + [Entry(k, v)]
  {
    if es != [] {
      BytesLessIrreflexive(k);
      BytesLessAsymmetric(es[0].key, k);
      InsertAfterAll(es[1..], k, v);
      assert es == [es[0]] + es[1..];
    }
  }

  /** The entries inserted one after the other, in input order, into the map `acc`. */
  function InsertAll(acc: seq<Entry>, es: seq<Entry>): seq<Entry>
    decreases |es|
  {
    if es == [] then acc else InsertAll(Insert(acc, es[0].key, es[0].value), es[1..])
  }

  /** Inserting one more entry after a run of insertions. */
  lemma {:induction false} InsertAllAppend(acc: seq<Entry>, es: seq<Entry>, e: Entry)
    ensures InsertAll(acc, es + [e]) == Insert(InsertAll(acc, es), e.key, e.value)
    decreases |es|
  {
    if es == [] {
      assert [] + [e] == [e] && [e][1..] == [];
    } else {
      assert (es + [e])[0] == es[0] && (es + [e])[1..] == es[1..] + [e];
      InsertAllAppend(Insert(acc, es[0].key, es[0].value), es[1..], e);
    }
  }

  /** In a sorted run of entries, every key before position `|acc|` is below the key there. */
  lemma SortedPrefixBelow(acc: seq<Entry>, es: seq<Entry>)
    requires es != [] && SortedKeys(acc + es)
    ensures forall j :: 0 <= j < |acc| ==> BytesLess(acc[j].key, es[0].key)
  {
    forall j | 0 <= j < |acc| ensures BytesLess(acc[j].key, es[0].key) {
      assert (acc + es)[j] == acc[j] && (acc + es)[|acc|] == es[0];
    }
  }

  /** Entries already in ascending key order are simply appended: the map keeps their order. */
  lemma {:induction false} InsertAllSorted(acc: seq<Entry>, es: seq<Entry>)
    requires SortedKeys(acc + es)
    ensures InsertAll(acc, es) == acc + es
    decreases |es|
  {
    if es == [] {
      assert acc + es == acc;
    } else {
      SortedPrefixBelow(acc, es);
      InsertAfterAll(acc, es[0].key, es[0].value);
      assert acc + [es[0]] + es[1..] == acc + es;
      InsertAllSorted(acc + [es[0]], es[1..]);
    }
  }

  /** Inserting keeps a dictionary well formed. */
  lemma InsertWellFormed(es: seq<Entry>, k: Bytes, v: Bencodable)
    requires WellFormed(Dictionary(es))
    requires |k| <= USIZE_MAX && WellFormed(v)
    ensures WellFormed(Dictionary(Insert(es, k, v)))
  {
    var next := Insert(es, k, v);
    InsertSorted(es, k, v);
    InsertEntries(es, k, v);
    forall j | 0 <= j < |next| ensures |next[j].key| <= USIZE_MAX && WellFormed(next[j].value) {
      assert next[j] in next;
      if next[j] != Entry(k, v) {
        assert next[j] in es;
        var m :| 0 <= m < |es| && es[m] == next[j];
      }
    }
  }

  /** Inserting well-formed entries into a well-formed map gives a well-formed map. */
  lemma {:induction false} InsertAllWellFormed(acc: seq<Entry>, es: seq<Entry>)
    requires WellFormed(Dictionary(acc))
    requires forall k :: 0 <= k < |es| ==> |es[k].key| <= USIZE_MAX && WellFormed(es[k].value)
    ensures WellFormed(Dictionary(InsertAll(acc, es)))
    decreases |es|
  {
    if es != [] {
      InsertWellFormed(acc, es[0].key, es[0].value);
      assert forall k :: 0 <= k < |es[1..]| ==> es[1..][k] == es[k + 1];
      InsertAllWellFormed(Insert(acc, es[0].key, es[0].value), es[1..]);
    }
  }

  // ---------------------------------------------------------------------------
  // Encoding, as a specification
  // ---------------------------------------------------------------------------

  /** A byte string: its length in decimal, a colon, then the bytes themselves. */
  function ByteStringEncoding(b: Bytes): Bytes
  {
    Decimal.FormatNat(|b|) + [COLON] + b
  }

  /** The bencoding of a value (section "bencoding" of BEP 3). */
  function Encoding(v: Bencodable): Bytes
  {
    match v
    case ByteString(b) => ByteStringEncoding(b)
    case Integer(n) => [I] + Decimal.FormatInt(n) + [E]
    case List(items) => [L] + ItemsEncoding(items) + [E]
    case Dictionary(es) => [D] + EntriesEncoding(es) + [E]
  }

  /** The list elements' encodings laid end to end, in list order. */
  function ItemsEncoding(items: seq<Bencodable>): Bytes
  {
    if items == [] then [] else Encoding(items[0]) + ItemsEncoding(items[1..])
  }

  /** Each entry's key (as a byte string) then its value, in key order. */
  function EntriesEncoding(es: seq<Entry>): Bytes
  {
    if es == [] then [] else ByteStringEncoding(es[0].key) + Encoding(es[0].value) + EntriesEncoding(es[1..])
  }

  lemma {:induction false} ItemsEncodingAppend(items: seq<Bencodable>, x: Bencodable)
    ensures ItemsEncoding(items + [x]) == ItemsEncoding(items) + Encoding(x)
  {
    if items == [] {
      assert items + [x] == [x];
      assert [x][1..] == [];
    } else {
      assert (items + [x])[1..] == items[1..] + [x];
      ItemsEncodingAppend(items[1..], x);
    }
  }

  lemma {:induction false} EntriesEncodingAppend(es: seq<Entry>, x: Entry)
    ensures EntriesEncoding(es + [x]) == EntriesEncoding(es) + (ByteStringEncoding(x.key) + Encoding(x.value))
  {
    if es == [] {
      assert es + [x] == [x];
      assert [x][1..] == [];
    } else {
      var head := ByteStringEncoding(es[0].key) + Encoding(es[0].value);
      var tail := ByteStringEncoding(x.key) + Encoding(x.value);
      assert (es + [x])[0] == es[0] && (es + [x])[1..] == es[1..] + [x];
      EntriesEncodingAppend(es[1..], x);
      calc {
        EntriesEncoding(es + [x]);
        head + EntriesEncoding(es[1..] + [x]);
        head + (EntriesEncoding(es[1..]) + tail);
        (head + EntriesEncoding(es[1..])) + tail;
      }
    }
  }

  /**
   * The first byte of an encoding tells the kind of value: a decimal digit for a
   * byte string, `i`, `l` or `d` otherwise; integers, lists and dictionaries
   * end with `e`. In particular no encoding starts with `e`.
   */
  lemma EncodingFraming(v: Bencodable)
    ensures |Encoding(v)| >= 2
    ensures Decimal.IsDigit(Encoding(v)[0]) <==> v.ByteString?
    ensures Encoding(v)[0] == I <==> v.Integer?
    ensures Encoding(v)[0] == L <==> v.List?
    ensures Encoding(v)[0] == D <==> v.Dictionary?
    ensures !v.ByteString? ==> Encoding(v)[|Encoding(v)| - 1] == E
    ensures Encoding(v)[0] != E
  {
  }

  // ---------------------------------------------------------------------------
  // `bencode`, as the source computes it
  // ---------------------------------------------------------------------------

  lemma AttachOne(b: Bytes)
    ensures Util.AttachBytes([b]) == b
  {
    assert [b][1..] == [];
  }

  lemma AttachThree(a: Bytes, b: Bytes, c: Bytes)
    ensures Util.AttachBytes([a, b, c]) == a + b + c
  {
    assert [a, b, c][1..] == [b, c];
    assert [b, c][1..] == [c];
    AttachOne(c);
  }

  lemma AttachPush(bs: seq<Bytes>, b: Bytes)
    ensures Util.AttachBytes(bs + [b]) == Util.AttachBytes(bs) + b
  {
    Util.AttachBytesAppend(bs, [b]);
    AttachOne(b);
  }

  /**
   * `bencode`: builds each part in a buffer and flattens it, recursing into
   * list elements and dictionary entries (keys in ascending order). Every base
   * case succeeds and the error arms only pass a nested failure up, so it never
   * fails: the result is always the encoding of the value. The three arms with
   * loops are split into the methods below.
   */
  method Bencode(b: Bencodable) returns (r: Result<Bytes, EncodeError>)
    ensures r.Ok?
    ensures r == Ok(Encoding(b))
    decreases b
  {
    match b {
      case ByteString(bs) =>
        r := BencodeByteString(bs);
      case Integer(n) =>
        var buff := [[I], Decimal.FormatInt(n), [E]];
        AttachThree([I], Decimal.FormatInt(n), [E]);
        r := Ok(Util.AttachBytes(buff));
      case List(lb) =>
        r := BencodeList(lb);
      case Dictionary(m) =>
        r := BencodeDictionary(m);
    }
  }

  /** The `ByteString` arm of `bencode`: length, `:`, bytes. */
  method BencodeByteString(bs: Bytes) returns (r: Result<Bytes, EncodeError>)
    ensures r == Ok(ByteStringEncoding(bs))
  {
    var copy := Decimal.FormatNat(|bs|);
    var buff := [copy, [COLON], bs];
    AttachThree(copy, [COLON], bs);
    r := Ok(Util.AttachBytes(buff));
  }

  lemma ItemStep(bs: seq<Bytes>, lb: seq<Bencodable>, k: nat)
    requires k < |lb|
    requires Util.AttachBytes(bs) == ItemsEncoding(lb[..k])
    ensures Util.AttachBytes(bs + [Encoding(lb[k])]) == ItemsEncoding(lb[..k + 1])
  {
    AttachPush(bs, Encoding(lb[k]));
    assert lb[..k + 1] == lb[..k] + [lb[k]];
    ItemsEncodingAppend(lb[..k], lb[k]);
  }

  /** The `List` arm of `bencode`: `l`, each element in order, `e`. */
  method BencodeList(lb: seq<Bencodable>) returns (r: Result<Bytes, EncodeError>)
    ensures r == Ok([L] + ItemsEncoding(lb) + [E])
    decreases lb
  {
    var bs: seq<Bytes> := [];
    for k := 0 to |lb|
      invariant Util.AttachBytes(bs) == ItemsEncoding(lb[..k])
    {
      var item := Bencode(lb[k]);
      match item {
        case Ok(bencodable) =>
          ItemStep(bs, lb, k);
          bs := bs + [bencodable];
        case Err(_) =>
          return Err(ListEncodeFailure);
      }
    }
    assert lb[..|lb|] == lb;
    var bytesOfBytes := Util.AttachBytes(bs);
    AttachThree([L], bytesOfBytes, [E]);
    r := Ok(Util.AttachBytes([[L], bytesOfBytes, [E]]));
  }

  lemma EntryStep(bs: seq<Bytes>, m: seq<Entry>, k: nat)
    requires k < |m|
    requires Util.AttachBytes(bs) == EntriesEncoding(m[..k])
    ensures Util.AttachBytes(bs + [ByteStringEncoding(m[k].key)] + [Encoding(m[k].value)]) == EntriesEncoding(m[..k + 1])
  {
    AttachPush(bs, ByteStringEncoding(m[k].key));
    AttachPush(bs + [ByteStringEncoding(m[k].key)], Encoding(m[k].value));
    assert m[..k + 1] == m[..k] + [m[k]];
    EntriesEncodingAppend(m[..k], m[k]);
  }

  /** The `Dictionary` arm of `bencode`: `d`, each key then its value in key order, `e`. */
  method BencodeDictionary(m: seq<Entry>) returns (r: Result<Bytes, EncodeError>)
    ensures r == Ok([D] + EntriesEncoding(m) + [E])
    decreases m
  {
    var bs: seq<Bytes> := [];
    for k := 0 to |m|
      invariant Util.AttachBytes(bs) == EntriesEncoding(m[..k])
    {
      ghost var before := bs;
      var key := BencodeByteString(m[k].key);
      match key {
        case Ok(bencodable) =>
          bs := bs + [bencodable];
        case Err(_) =>
          return Err(DictKeyEncodeFailure);
      }
      var value := Bencode(m[k].value);
      match value {
        case Ok(bencodable) =>
          bs := bs + [bencodable];
        case Err(_) =>
          return Err(DictValueEncodeFailure);
      }
      EntryStep(before, m, k);
    }
    assert m[..|m|] == m;
    var bytesOfBytes := Util.AttachBytes(bs);
    AttachThree([D], bytesOfBytes, [E]);
    r := Ok(Util.AttachBytes([[D], bytesOfBytes, [E]]));
  }
}
