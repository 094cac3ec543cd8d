/**
 * Reading the peer list out of a tracker's announce response
 * (`src/tracker.rs`): the compact form of BEP 23 (six bytes per peer, an IPv4
 * address then a big-endian port) and the older list of dictionaries of BEP 3.
 *
 * Parsing an IPv4 address from text (UTF-8 decoding followed by
 * `str::parse::<Ipv4Addr>`) is a parameter of the model.
 */
module Tracker {
  import opened RustTypes
  import opened Bencode
  import Util

  datatype Ipv4Addr = Ipv4Addr(a: byte, b: byte, c: byte, d: byte)

  datatype SocketAddress = SocketAddress(ip: Ipv4Addr, port: u16)

  /** The source's `Peer`: an address and a peer id. */
  datatype PeerInfo = PeerInfo(socketAddr: SocketAddress, id: Bytes)

  datatype TrackerPeer = Peer(peer: PeerInfo) | SocketAddr(addr: SocketAddress)

  /** The errors the response handling can report (`BdecodeFailure` and `HttpError` arise outside this model). */
  datatype TrackerResponseError =
    | BdecodeFailure
    | NoPeerKey
    | HttpError
    | UnexpectedBencodable(bencodable: Bencodable)
    | MisalignedPeers
    | NoPeerByteString(originalString: Bencodable)

  /** UTF-8 decoding then `parse::<Ipv4Addr>`, as one partial function. */
  type IpParser = Bytes -> Option<Ipv4Addr>

  const PEERS: Bytes := [112, 101, 101, 114, 115]            // "peers"
  const PORT: Bytes := [112, 111, 114, 116]                  // "port"
  const IP: Bytes := [105, 112]                              // "ip"
  const PEER_ID: Bytes := [112, 101, 101, 114, 32, 105, 100] // "peer id"

  // ---------------------------------------------------------------------------
  // Compact peers
  // ---------------------------------------------------------------------------

  /**
   * Entry `k` as the source builds it: the address is bytes `6k..6k+4`, but the
   * port is always read from bytes 4 and 5 of the whole string.
   */
  function CompactEntry(peerBytes: Bytes, k: nat): TrackerPeer
    requires 6 * k + 6 <= |peerBytes|
  {
    var i := 6 * k;
    SocketAddr(SocketAddress(
      Ipv4Addr(peerBytes[i], peerBytes[i + 1], peerBytes[i + 2], peerBytes[i + 3]),
      Util.U16FromBe(peerBytes[4], peerBytes[5])))
  }

  /** The compact peer list: one entry per six bytes, in order; any other length is misaligned. */
  function CompactPeers(peerBytes: Bytes): (r: Result<seq<TrackerPeer>, TrackerResponseError>)
    ensures r.Err? <==> |peerBytes| % 6 != 0
    ensures r.Err? ==> r.error == MisalignedPeers
    ensures r.Ok? ==> |r.value| == |peerBytes| / 6
  {
    if |peerBytes| % 6 == 0 then
      Ok(seq(|peerBytes| / 6, k requires 0 <= k < |peerBytes| / 6 => CompactEntry(peerBytes, k)))
    else
      Err(MisalignedPeers)
  }

  /** `From<&BencodableByteString>`: the `while` loop over six-byte records. */
  method DecodeCompactPeers(peerBytes: Bytes) returns (r: Result<seq<TrackerPeer>, TrackerResponseError>)
    ensures r == CompactPeers(peerBytes)
  {
    var totalBytes := |peerBytes|;
    if totalBytes % 6 == 0 {
      var socketAddrs: seq<TrackerPeer> := [];
      var i := 0;
      while i < totalBytes
        invariant i <= totalBytes && i % 6 == 0
        invariant |socketAddrs| == i / 6
        invariant forall k :: 0 <= k < i / 6 ==> socketAddrs[k] == CompactEntry(peerBytes, k)
      {
        var ipBytes := peerBytes[i..i + 6];
        var ip := Ipv4Addr(ipBytes[0], ipBytes[1], ipBytes[2], ipBytes[3]);
        var port := Util.U16FromBe(peerBytes[4], peerBytes[5]);
        socketAddrs := socketAddrs + [SocketAddr(SocketAddress(ip, port))];
        i := i + 6;
      }
      assert socketAddrs == CompactPeers(peerBytes).value;
      return Ok(socketAddrs);
    } else {
      return Err(MisalignedPeers);
    }
  }

  /** Every peer decoded from a compact string gets the first peer's port. */
  lemma CompactPortIsFirstPort(peerBytes: Bytes, k: nat)
    requires CompactPeers(peerBytes).Ok? && k < |CompactPeers(peerBytes).value|
    ensures CompactPeers(peerBytes).value[k].SocketAddr?
    ensures CompactPeers(peerBytes).value[k].addr.port == Util.U16FromBe(peerBytes[4], peerBytes[5])
    ensures CompactPeers(peerBytes).value[k].addr.ip
         == Ipv4Addr(peerBytes[6 * k], peerBytes[6 * k + 1], peerBytes[6 * k + 2], peerBytes[6 * k + 3])
  {
  }

  /** BEP 23: record `k` is an address and its own big-endian port. */
  function Bep23Entry(peerBytes: Bytes, k: nat): SocketAddress
    requires 6 * k + 6 <= |peerBytes|
  {
    var i := 6 * k;
    SocketAddress(
      Ipv4Addr(peerBytes[i], peerBytes[i + 1], peerBytes[i + 2], peerBytes[i + 3]),
      Util.U16FromBe(peerBytes[i + 4], peerBytes[i + 5]))
  }

  /** The compact peer list as BEP 23 reads it. */
  function Bep23Peers(peerBytes: Bytes): (r: Result<seq<TrackerPeer>, TrackerResponseError>)
    ensures r.Err? <==> |peerBytes| % 6 != 0
    ensures r.Ok? ==> |r.value| == |peerBytes| / 6
  {
    if |peerBytes| % 6 == 0 then
      Ok(seq(|peerBytes| / 6, k requires 0 <= k < |peerBytes| / 6 => SocketAddr(Bep23Entry(peerBytes, k))))
    else
      Err(MisalignedPeers)
  }

  /** The six bytes BEP 23 gives one address. */
  function CompactRecord(addr: SocketAddress): (r: Bytes)
    ensures |r| == 6
  {
    [addr.ip.a, addr.ip.b, addr.ip.c, addr.ip.d, addr.port / 256, addr.port % 256]
  }

  /** A compact peer string: the records of the addresses, in order. */
  function CompactEncoding(addrs: seq<SocketAddress>): (r: Bytes)
    ensures |r| == 6 * |addrs|
  {
    if addrs == [] then [] else CompactRecord(addrs[0]) + CompactEncoding(addrs[1..])
  }

  lemma {:induction false} CompactEncodingAt(addrs: seq<SocketAddress>, k: nat)
    requires k < |addrs|
    ensures CompactEncoding(addrs)[6 * k..6 * k + 6] == CompactRecord(addrs[k])
  {
    if k > 0 {
      CompactEncodingAt(addrs[1..], k - 1);
      assert CompactEncoding(addrs) == CompactRecord(addrs[0]) + CompactEncoding(addrs[1..]);
      assert CompactEncoding(addrs)[6 * k..6 * k + 6] == CompactEncoding(addrs[1..])[6 * (k - 1)..6 * (k - 1) + 6];
    }
  }

  /** A record's address and port read back as written. */
  lemma Bep23EntryOfEncoding(addrs: seq<SocketAddress>, k: nat)
    requires k < |addrs|
    ensures 6 * k + 6 <= |CompactEncoding(addrs)|
    ensures Bep23Entry(CompactEncoding(addrs), k) == addrs[k]
  {
    var bytes := CompactEncoding(addrs);
    CompactEncodingAt(addrs, k);
    var rec := bytes[6 * k..6 * k + 6];
    assert rec == CompactRecord(addrs[k]);
    assert rec[4] == bytes[6 * k + 4] && rec[5] == bytes[6 * k + 5];
    assert rec[0] == bytes[6 * k] && rec[1] == bytes[6 * k + 1] && rec[2] == bytes[6 * k + 2] && rec[3] == bytes[6 * k + 3];
  }

  lemma SixfoldLength(n: nat)
    ensures (6 * n) % 6 == 0 && (6 * n) / 6 == n
  {
  }

  /** The BEP 23 reading gives back the addresses that were written. */
  lemma Bep23RoundTrip(addrs: seq<SocketAddress>)
    ensures Bep23Peers(CompactEncoding(addrs)) == Ok(seq(|addrs|, k requires 0 <= k < |addrs| => SocketAddr(addrs[k])))
  {
    var bytes := CompactEncoding(addrs);
    SixfoldLength(|addrs|);
    var got := Bep23Peers(bytes).value;
    var want := seq(|addrs|, k requires 0 <= k < |addrs| => SocketAddr(addrs[k]));
    assert |got| == |want|;
    forall k | 0 <= k < |addrs|
      ensures got[k] == want[k]
    {
      Bep23EntryOfEncoding(addrs, k);
    }
    assert got == want;
  }

  /**
   * The source agrees with BEP 23 exactly when every record carries the first
   * record's port.
   */
  lemma CompactAgreesIffSamePort(peerBytes: Bytes)
    requires |peerBytes| % 6 == 0
    ensures CompactPeers(peerBytes) == Bep23Peers(peerBytes)
        <==> forall k :: 0 <= k < |peerBytes| / 6 ==>
               Util.U16FromBe(peerBytes[6 * k + 4], peerBytes[6 * k + 5]) == Util.U16FromBe(peerBytes[4], peerBytes[5])
  {
    var n := |peerBytes| / 6;
    var asWritten := CompactPeers(peerBytes).value;
    var bep23 := Bep23Peers(peerBytes).value;
    if asWritten == bep23 {
      forall k | 0 <= k < n
        ensures Util.U16FromBe(peerBytes[6 * k + 4], peerBytes[6 * k + 5]) == Util.U16FromBe(peerBytes[4], peerBytes[5])
      {
        assert asWritten[k] == bep23[k];
      }
    }
    if forall k :: 0 <= k < n ==>
         Util.U16FromBe(peerBytes[6 * k + 4], peerBytes[6 * k + 5]) == Util.U16FromBe(peerBytes[4], peerBytes[5])
    {
      forall k | 0 <= k < n
        ensures asWritten[k] == bep23[k]
      {
      }
      assert asWritten == bep23;
    }
  }

  /** Two peers on different ports: the second is reported on the first one's port. */
  lemma CompactPortCounterexample()
    ensures CompactPeers([10, 0, 0, 1, 0x1A, 0xE1, 10, 0, 0, 2, 0x1A, 0xE2]).value[1]
         == SocketAddr(SocketAddress(Ipv4Addr(10, 0, 0, 2), 6881))
    ensures Bep23Peers([10, 0, 0, 1, 0x1A, 0xE1, 10, 0, 0, 2, 0x1A, 0xE2]).value[1]
         == SocketAddr(SocketAddress(Ipv4Addr(10, 0, 0, 2), 6882))
  {
  }

  /** Two copies of 73.140.205.84:8999 decode to that address twice. */
  lemma CompactExample()
    ensures CompactPeers([0x49, 0x8C, 0xCD, 0x54, 0x23, 0x27, 0x49, 0x8C, 0xCD, 0x54, 0x23, 0x27])
         == Ok([SocketAddr(SocketAddress(Ipv4Addr(73, 140, 205, 84), 8999)),
                SocketAddr(SocketAddress(Ipv4Addr(73, 140, 205, 84), 8999))])
  {
    var bytes: Bytes := [0x49, 0x8C, 0xCD, 0x54, 0x23, 0x27, 0x49, 0x8C, 0xCD, 0x54, 0x23, 0x27];
    var peer := SocketAddr(SocketAddress(Ipv4Addr(73, 140, 205, 84), 8999));
    assert CompactEntry(bytes, 0) == peer;
    assert CompactEntry(bytes, 1) == peer;
    assert CompactPeers(bytes).value == [CompactEntry(bytes, 0), CompactEntry(bytes, 1)];
  }

  // ---------------------------------------------------------------------------
  // List of peer dictionaries
  // ---------------------------------------------------------------------------

  /**
   * One element of the list form. A dictionary must have an integer `port`
   * (cast to `u16`, keeping the low 16 bits), an `ip` byte string the parser
   * accepts and a byte-string `peer id`; otherwise an `unwrap` panics. Any
   * other element is an error naming it.
   */
  function ListPeer(b: Bencodable, parseIp: IpParser): Outcome<Result<TrackerPeer, TrackerResponseError>>
  {
    match b
    case Dictionary(btm) =>
      var port := Lookup(btm, PORT);
      var ip := Lookup(btm, IP);
      var peerId := Lookup(btm, PEER_ID);
      if !(port.Some? && port.value.Integer?) then Panic
      else if !(ip.Some? && ip.value.ByteString? && parseIp(ip.value.bytes).Some?) then Panic
      else if !(peerId.Some? && peerId.value.ByteString?) then Panic
      else
        var addr := SocketAddress(parseIp(ip.value.bytes).value, port.value.value as int % U16_LIMIT);
        Value(Ok(Peer(PeerInfo(addr, peerId.value.bytes))))
    case _ => Value(Err(UnexpectedBencodable(b)))
  }

  /** The dictionary has an integer `port`, an `ip` the parser accepts and a byte-string `peer id`. */
  predicate PeerFields(btm: seq<Entry>, parseIp: IpParser)
  {
    var port := Lookup(btm, PORT);
    var ip := Lookup(btm, IP);
    var peerId := Lookup(btm, PEER_ID);
    port.Some? && port.value.Integer?
    && ip.Some? && ip.value.ByteString? && parseIp(ip.value.bytes).Some?
    && peerId.Some? && peerId.value.ByteString?
  }

  /**
   * What one element of the list form gives: an error naming anything that is
   * not a dictionary, a panic for a dictionary without usable fields, and
   * otherwise the peer at that address, on the port's low 16 bits, with that id.
   */
  lemma ListPeerReads(b: Bencodable, parseIp: IpParser)
    ensures !b.Dictionary? ==> ListPeer(b, parseIp) == Value(Err(UnexpectedBencodable(b)))
    ensures b.Dictionary? ==> (ListPeer(b, parseIp).Value? <==> PeerFields(b.entries, parseIp))
    ensures ListPeer(b, parseIp).Value? && ListPeer(b, parseIp).value.Err? ==> !b.Dictionary?
    ensures ListPeer(b, parseIp).Value? && ListPeer(b, parseIp).value.Ok? ==>
      var ip := Lookup(b.entries, IP).value.bytes;
      ListPeer(b, parseIp).value.value
        == Peer(PeerInfo(SocketAddress(parseIp(ip).value, Lookup(b.entries, PORT).value.value as int % U16_LIMIT),
                         Lookup(b.entries, PEER_ID).value.bytes))
  {
  }

  /** The list form from element `i` on, after the peers `rl` have been read. */
  function PeerListFrom(list: seq<Bencodable>, i: nat, rl: seq<TrackerPeer>, parseIp: IpParser)
    : (r: Outcome<Result<seq<TrackerPeer>, TrackerResponseError>>)
    requires i <= |list|
    ensures r.Value? && r.value.Ok? ==> |r.value.value| == |rl| + |list| - i && r.value.value[..|rl|] == rl
    decreases |list| - i
  {
    if i == |list| then Value(Ok(rl))
    else
      match ListPeer(list[i], parseIp)
      case Panic => Panic
      case Value(Err(e)) => Value(Err(e))
      case Value(Ok(p)) =>
        var r := PeerListFrom(list, i + 1, rl + [p], parseIp);
        assert r.Value? && r.value.Ok? ==> r.value.value[..|rl|] == (rl + [p])[..|rl|];
        r
  }

  /** `From<BencodableList>`: the peers of the list form, in list order. */
  function PeerList(list: seq<Bencodable>, parseIp: IpParser): Outcome<Result<seq<TrackerPeer>, TrackerResponseError>>
  {
    PeerListFrom(list, 0, [], parseIp)
  }

  /** The `for` loop of `From<BencodableList>`. */
  method DecodePeerList(list: seq<Bencodable>, parseIp: IpParser)
    returns (r: Outcome<Result<seq<TrackerPeer>, TrackerResponseError>>)
    ensures r == PeerList(list, parseIp)
  {
    var rl: seq<TrackerPeer> := [];
    for i := 0 to |list|
      invariant PeerListFrom(list, i, rl, parseIp) == PeerList(list, parseIp)
    {
      var peer := ListPeer(list[i], parseIp);
      match peer {
        case Panic => return Panic;
        case Value(Err(e)) => return Value(Err(e));
        case Value(Ok(p)) => rl := rl + [p];
      }
    }
    return Value(Ok(rl));
  }

  /** From element `i` on, when element `j` reads as peer `ps[j]`, the list form appends `ps[i..]`. */
  lemma {:induction false} PeerListFromAllRead(list: seq<Bencodable>, ps: seq<TrackerPeer>, i: nat, rl: seq<TrackerPeer>, parseIp: IpParser)
    requires i <= |list| == |ps|
    requires forall j :: i <= j < |list| ==> ListPeer(list[j], parseIp) == Value(Ok(ps[j]))
    ensures PeerListFrom(list, i, rl, parseIp) == Value(Ok(rl + ps[i..]))
    decreases |list| - i
  {
    if i == |list| {
      assert rl + ps[i..] == rl;
    } else {
      PeerListFromAllRead(list, ps, i + 1, rl + [ps[i]], parseIp);
      assert (rl + [ps[i]]) + ps[i + 1..] == rl + ps[i..];
    }
  }

  /** When every element is a usable peer dictionary, the list form is the peers they describe, in order. */
  lemma PeerListAllRead(list: seq<Bencodable>, ps: seq<TrackerPeer>, parseIp: IpParser)
    requires |list| == |ps|
    requires forall j :: 0 <= j < |list| ==> ListPeer(list[j], parseIp) == Value(Ok(ps[j]))
    ensures PeerList(list, parseIp) == Value(Ok(ps))
  {
    PeerListFromAllRead(list, ps, 0, [], parseIp);
    assert [] + ps[0..] == ps;
  }

  /**
   * The first element that is not a dictionary, if every element before it is
   * a usable peer dictionary, ends the list form with an error naming it.
   */
  lemma {:induction false} PeerListStopsAtNonDictionary(list: seq<Bencodable>, i: nat, k: nat, rl: seq<TrackerPeer>, parseIp: IpParser)
    requires i <= k < |list| && !list[k].Dictionary?
    requires forall j :: i <= j < k ==> ListPeer(list[j], parseIp).Value? && ListPeer(list[j], parseIp).value.Ok?
    ensures PeerListFrom(list, i, rl, parseIp) == Value(Err(UnexpectedBencodable(list[k])))
    decreases k - i
  {
    if i < k {
      var p := ListPeer(list[i], parseIp).value.value;
      PeerListStopsAtNonDictionary(list, i + 1, k, rl + [p], parseIp);
    }
  }

  /** A port outside the `u16` range keeps its low 16 bits: 72417 becomes 6881. */
  lemma PortIsTruncated(ip: Bytes, id: Bytes, addr: Ipv4Addr, parseIp: IpParser)
    requires parseIp(ip) == Some(addr)
    ensures ListPeer(Dictionary([Entry(IP, ByteString(ip)), Entry(PEER_ID, ByteString(id)), Entry(PORT, Integer(72417))]), parseIp)
         == Value(Ok(Peer(PeerInfo(SocketAddress(addr, 6881), id))))
  {
    var es := [Entry(IP, ByteString(ip)), Entry(PEER_ID, ByteString(id)), Entry(PORT, Integer(72417))];
    assert Lookup(es, IP) == Some(ByteString(ip));
    assert es[1..][1..][0].key == PORT;
    assert Lookup(es, PEER_ID) == Some(ByteString(id));
    assert Lookup(es, PORT) == Some(Integer(72417));
  }

  // ---------------------------------------------------------------------------
  // The response dispatch
  // ---------------------------------------------------------------------------

  /**
   * The decoded announce response to a peer list: the response must be a
   * dictionary with a `peers` entry; a byte string there is the compact form, a
   * list the dictionary form, anything else an error carrying it.
   */
  function PeersOfResponse(response: Bencodable, parseIp: IpParser)
    : (r: Outcome<Result<seq<TrackerPeer>, TrackerResponseError>>)
    ensures !response.Dictionary? ==> r == Value(Err(UnexpectedBencodable(response)))
    ensures response.Dictionary? && Lookup(response.entries, PEERS).None? ==> r == Value(Err(NoPeerKey))
    ensures r.Panic? ==> response.Dictionary? && Lookup(response.entries, PEERS).Some?
                         && Lookup(response.entries, PEERS).value.List?
  {
    match response
    case Dictionary(btm) =>
      (match Lookup(btm, PEERS)
       case None => Value(Err(NoPeerKey))
       case Some(peers) =>
         match peers
         case ByteString(bs) => Value(CompactPeers(bs))
         case List(ld) => PeerList(ld, parseIp)
         case _ => Value(Err(NoPeerByteString(peers))))
    case _ => Value(Err(UnexpectedBencodable(response)))
  }

  /** A compact `peers` string is read by the compact decoder; an integer or dictionary there is refused. */
  lemma DispatchOnPeers(btm: seq<Entry>, peers: Bencodable, parseIp: IpParser)
    requires Lookup(btm, PEERS) == Some(peers)
    ensures peers.ByteString? ==> PeersOfResponse(Dictionary(btm), parseIp) == Value(CompactPeers(peers.bytes))
    ensures peers.List? ==> PeersOfResponse(Dictionary(btm), parseIp) == PeerList(peers.items, parseIp)
    ensures peers.Integer? || peers.Dictionary? ==> PeersOfResponse(Dictionary(btm), parseIp) == Value(Err(NoPeerByteString(peers)))
  {
  }
}
