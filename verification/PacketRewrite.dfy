/** The two header rewrites of the packet forwarder, in place on an Ethernet frame, and the checks
    in front of the inbound one. */
module PacketRewrite {

  import opened Environment
  import opened Ipv4Checksum
  import RateLimiter

  const MIN_PACKET_SIZE := 64
  const MAX_PACKET_SIZE := 1522

  /** Where things are in a frame. */
  const DEST_MAC_AT := 0
  const SOURCE_MAC_AT := 6
  const ETHERTYPE_AT := 12
  const IP_AT := 14
  const TTL_AT := IP_AT + 8
  const PROTOCOL_AT := IP_AT + 9
  const IP_CHECKSUM_AT := IP_AT + CHECKSUM_AT
  const SOURCE_IP_AT := IP_AT + 12
  const DEST_IP_AT := IP_AT + 16
  const IP_PAYLOAD_AT := IP_AT + HEADER_LEN

  const IPV4_ETHERTYPE := 0x0800
  const IPV6_ETHERTYPE := 0x86DD
  const TCP: byte := 6
  const UDP: byte := 17

  /** What the transport checksum functions leave in the frame: two bytes somewhere behind the
      IPv4 header, or nothing if the segment is too short to have a checksum. */
  datatype Transport = TooShort | Checksum16(at: nat, value: u16)

  predicate Fits(t: Transport, length: nat) {
    t.Checksum16? ==> IP_PAYLOAD_AT <= t.at && t.at + 2 <= length
  }

  predicate Touches(t: Transport, i: nat) {
    t.Checksum16? && t.at <= i < t.at + 2
  }

  predicate IsIpv4(frame: seq<byte>)
    requires |frame| >= IP_AT
  {
    Word(frame[ETHERTYPE_AT], frame[ETHERTYPE_AT + 1]) == IPV4_ETHERTYPE
  }

  /** By the first byte of an address. */
  predicate IsMulticast(first: byte) {
    224 <= first <= 239
  }

  function SourceIp(frame: seq<byte>): nat
    requires |frame| >= IP_PAYLOAD_AT
  {
    Word(frame[SOURCE_IP_AT], frame[SOURCE_IP_AT + 1]) * 0x1_0000
    + Word(frame[SOURCE_IP_AT + 2], frame[SOURCE_IP_AT + 3])
  }

  /** One of our own IPv4 packets, come back. */
  predicate IsOwn(frame: seq<byte>, ownIps: set<nat>)
    requires |frame| >= IP_AT
  {
    IsIpv4(frame) && |frame| >= IP_PAYLOAD_AT && SourceIp(frame) in ownIps
  }

  /** An IPv4 address, most significant byte first, as a number. */
  function Address(bytes: seq<byte>): nat
    requires |bytes| == 4
  {
    0x100_0000 * bytes[0] as int + 0x1_0000 * bytes[1] as int
    + 0x100 * bytes[2] as int + bytes[3] as int
  }

  /** The source is bytes 12 to 15 of the IP header, and two frames have the same one exactly if
      they agree there. */
  lemma SourceIsItsBytes(f: seq<byte>, g: seq<byte>)
    requires |f| >= IP_PAYLOAD_AT && |g| >= IP_PAYLOAD_AT
    ensures SourceIp(f) == Address(f[26..30])
    ensures SourceIp(f) == SourceIp(g) <==> f[26..30] == g[26..30]
  {
    SourceIsAddress(f);
    SourceIsAddress(g);
    if SourceIp(f) == SourceIp(g) {
      SameAddress(f[26..30], g[26..30]);
    }
  }

  lemma SourceIsAddress(f: seq<byte>)
    requires |f| >= IP_PAYLOAD_AT
    ensures SourceIp(f) == Address(f[26..30])
  {
    var bytes := f[26..30];
    assert bytes[0] == f[26] && bytes[1] == f[27] && bytes[2] == f[28] && bytes[3] == f[29];
  }

  lemma SameAddress(a: seq<byte>, b: seq<byte>)
    requires |a| == |b| == 4 && Address(a) == Address(b)
    ensures a == b
  {
    assert a[0] == b[0];
    assert a[1] == b[1];
    assert a[2] == b[2];
  }

  /** Multicast is class D: the high-order four bits are 1110. */
  lemma MulticastIsClassD(first: byte)
    ensures IsMulticast(first) <==> first / 0x10 == 0xE
  {
  }

  /** The frame reads `value` from `at` on. */
  ghost predicate Reads(frame: array<byte>, at: nat, value: seq<byte>)
    requires at + |value| <= frame.Length
    reads frame
  {
    forall k :: 0 <= k < |value| ==> frame[at + k] == value[k]
  }

  /** A setter: `value` over the bytes from `at` on. */
  method Put(frame: array<byte>, at: nat, value: seq<byte>)
    requires at + |value| <= frame.Length
    modifies frame
    ensures Reads(frame, at, value)
    ensures forall i :: 0 <= i < frame.Length && !(at <= i < at + |value|) ==>
      frame[i] == old(frame[i])
  {
    forall i | 0 <= i < |value| {
      frame[at + i] := value[i];
    }
  }

  /** Refreshes the transport checksum; only TCP and UDP have one that is known here. */
  method RefreshTransport(frame: array<byte>, t: Transport) returns (known: bool)
    requires frame.Length >= IP_PAYLOAD_AT && Fits(t, frame.Length)
    modifies frame
    ensures known == (old(frame[PROTOCOL_AT]) in {TCP, UDP})
    ensures known && t.Checksum16? ==> Word(frame[t.at], frame[t.at + 1]) == t.value
    ensures forall i :: 0 <= i < frame.Length && !(known && Touches(t, i)) ==>
      frame[i] == old(frame[i])
  {
    if frame[PROTOCOL_AT] == TCP {
      if t.Checksum16? {
        frame[t.at], frame[t.at + 1] := Bytes(t.value)[0], Bytes(t.value)[1];
      }
    } else if frame[PROTOCOL_AT] == UDP {
      if t.Checksum16? {
        frame[t.at], frame[t.at + 1] := 0, 0;
        frame[t.at], frame[t.at + 1] := Bytes(t.value)[0], Bytes(t.value)[1];
      }
    } else {
      return false;
    }
    return true;
  }

  /** Recomputes the header checksum over a cleared field. */
  method RefreshChecksum(frame: array<byte>)
    requires frame.Length >= IP_PAYLOAD_AT
    modifies frame
    ensures Accepts(frame[IP_AT..IP_PAYLOAD_AT])
    ensures forall i :: 0 <= i < frame.Length && !(IP_CHECKSUM_AT <= i < IP_CHECKSUM_AT + 2) ==>
      frame[i] == old(frame[i])
  {
    ghost var was, header := frame[..], frame[IP_AT..IP_PAYLOAD_AT];
    ChecksumRoundTrip(header);
    SetChecksum(frame, IP_AT, 0);
    ghost var cleared := frame[..];
    assert cleared[IP_AT..IP_PAYLOAD_AT] == frame[IP_AT..IP_PAYLOAD_AT] == Zeroed(header);
    var checksum := CalculateIpv4Checksum(frame, IP_AT);
    SetChecksum(frame, IP_AT, checksum.value);
    ghost var refreshed := WithChecksum(Zeroed(header), checksum.value);
    PatchedTwice(was, IP_AT, Zeroed(header), refreshed);
    StoringIsAccepted(Zeroed(header));
    assert Zeroed(Zeroed(header)) == Zeroed(header);
    assert frame[IP_AT..IP_PAYLOAD_AT] == frame[..][IP_AT..IP_PAYLOAD_AT] == refreshed;
  }

  /** Gives the packet in the frame a new destination; the time to live is cut to one for
      multicast. */
  method Redirect(frame: array<byte>, destIp: seq<byte>, t: Transport) returns (known: bool)
    requires frame.Length >= IP_PAYLOAD_AT && |destIp| == 4 && Fits(t, frame.Length)
    modifies frame
    ensures known == (old(frame[PROTOCOL_AT]) in {TCP, UDP})
    ensures known ==>
      && Accepts(frame[IP_AT..IP_PAYLOAD_AT])
      && Reads(frame, DEST_IP_AT, destIp)
      && (IsMulticast(destIp[0]) ==> frame[TTL_AT] == 1)
      && (t.Checksum16? ==> Word(frame[t.at], frame[t.at + 1]) == t.value)
    ensures forall i :: 0 <= i < frame.Length && frame[i] != old(frame[i]) ==>
      || DEST_IP_AT <= i < IP_PAYLOAD_AT
      || (i == TTL_AT && IsMulticast(destIp[0]))
      || (known && (Touches(t, i) || IP_CHECKSUM_AT <= i < IP_CHECKSUM_AT + 2))
  {
    Put(frame, DEST_IP_AT, destIp);
    if IsMulticast(frame[DEST_IP_AT]) {
      frame[TTL_AT] := 1;
    }
    known := RefreshTransport(frame, t);
    if known {
      RefreshChecksum(frame);
    }
  }

  /** Inbound: new addresses, and the time to live cut to one for multicast. */
  method ModifyExtToInt(frame: array<byte>, sourceMac: seq<byte>, destMac: seq<byte>,
      destIp: Option<seq<byte>>, t: Transport) returns (forward: bool)
    requires frame.Length >= IP_AT && |sourceMac| == |destMac| == 6 && Fits(t, frame.Length)
    requires destIp.Some? ==> |destIp.value| == 4
    modifies frame
    ensures forward == (IsIpv4(old(frame[..])) && (frame.Length >= IP_PAYLOAD_AT ==>
      destIp.Some? && old(frame[PROTOCOL_AT]) in {TCP, UDP}))
    ensures frame.Length >= IP_PAYLOAD_AT ==> SourceIp(frame[..]) == old(SourceIp(frame[..]))
    ensures Reads(frame, DEST_MAC_AT, destMac)
    ensures Reads(frame, SOURCE_MAC_AT, sourceMac)
    ensures forward && frame.Length >= IP_PAYLOAD_AT ==>
      && Accepts(frame[IP_AT..IP_PAYLOAD_AT])
      && Reads(frame, DEST_IP_AT, destIp.value)
      && (IsMulticast(destIp.value[0]) ==> frame[TTL_AT] == 1)
      && (t.Checksum16? ==> Word(frame[t.at], frame[t.at + 1]) == t.value)
    ensures forall i :: ETHERTYPE_AT <= i < frame.Length && frame[i] != old(frame[i]) ==>
      && frame.Length >= IP_PAYLOAD_AT && destIp.Some?
      && (|| DEST_IP_AT <= i < IP_PAYLOAD_AT
          || (i == TTL_AT && IsMulticast(destIp.value[0]))
          || (forward && (Touches(t, i) || IP_CHECKSUM_AT <= i < IP_CHECKSUM_AT + 2)))
  {
    Put(frame, DEST_MAC_AT, destMac);
    Put(frame, SOURCE_MAC_AT, sourceMac);
    if Word(frame[ETHERTYPE_AT], frame[ETHERTYPE_AT + 1]) != IPV4_ETHERTYPE {
      return false;
    }
    if frame.Length - IP_AT >= HEADER_LEN {
      if destIp.None? {
        return false;
      }
      forward := Redirect(frame, destIp.value, t);
      return;
    }
    return true;
  }

  /** Outbound: this host's addresses as the source. */
  method ModifyIntToExt(frame: array<byte>, extMac: seq<byte>, extIp: Option<seq<byte>>,
      t: Transport) returns (forward: bool)
    requires frame.Length >= IP_AT && |extMac| == 6 && Fits(t, frame.Length)
    requires extIp.Some? ==> |extIp.value| == 4
    modifies frame
    ensures forward == (IsIpv4(old(frame[..])) && (frame.Length >= IP_PAYLOAD_AT ==>
      extIp.Some? && old(frame[PROTOCOL_AT]) in {TCP, UDP}))
    ensures forward && frame.Length >= IP_PAYLOAD_AT ==>
      IsOwn(frame[..], {Address(extIp.value)})
    ensures Reads(frame, SOURCE_MAC_AT, extMac)
    ensures forward && frame.Length >= IP_PAYLOAD_AT ==>
      && Accepts(frame[IP_AT..IP_PAYLOAD_AT])
      && Reads(frame, SOURCE_IP_AT, extIp.value)
      && (t.Checksum16? ==> Word(frame[t.at], frame[t.at + 1]) == t.value)
    ensures forall i :: 0 <= i < SOURCE_MAC_AT ==> frame[i] == old(frame[i])
    ensures forall i :: ETHERTYPE_AT <= i < frame.Length && frame[i] != old(frame[i]) ==>
      && frame.Length >= IP_PAYLOAD_AT && extIp.Some?
      && (|| SOURCE_IP_AT <= i < DEST_IP_AT
          || (forward && (Touches(t, i) || IP_CHECKSUM_AT <= i < IP_CHECKSUM_AT + 2)))
  {
    Put(frame, SOURCE_MAC_AT, extMac);
    if Word(frame[ETHERTYPE_AT], frame[ETHERTYPE_AT + 1]) != IPV4_ETHERTYPE {
      return false;
    }
    if frame.Length - IP_AT >= HEADER_LEN {
      if extIp.None? {
        return false;
      }
      Put(frame, SOURCE_IP_AT, extIp.value);
      var known := RefreshTransport(frame, t);
      if !known {
        return false;
      }
      RefreshChecksum(frame);
    }
    return true;
  }

  /** What the UDP parser and checksum of the packet library report of a segment long enough. */
  datatype UdpSegment = UdpSegment(checksumCorrect: bool, sourcePort: u16, destPort: u16)

  /** A well-formed inbound frame: of a legal size, IPv4 with a correct header checksum and time to
      live left, and UDP with a correct checksum and both ports. */
  predicate WellFormed(frame: seq<byte>, udp: Option<UdpSegment>) {
    && MIN_PACKET_SIZE <= |frame| <= MAX_PACKET_SIZE
    && IsIpv4(frame) && Accepts(frame[IP_AT..IP_PAYLOAD_AT])
    && frame[TTL_AT] != 0 && frame[PROTOCOL_AT] == UDP
    && udp.Some? && udp.value.checksumCorrect
    && udp.value.sourcePort != 0 && udp.value.destPort != 0
  }

  function RouteOf(frame: seq<byte>, udp: Option<UdpSegment>): RateLimiter.Route
    requires WellFormed(frame, udp)
  {
    RateLimiter.Route(SourceIp(frame), UDP, udp.value.destPort)
  }

  /** The inbound checks: exactly the well-formed frames that the rate limiter admits pass. They
      pass unchanged, and frames that are not well-formed do not cost their source anything. */
  method ExtToIntIsPacketSafe(frame: array<byte>, udp: Option<UdpSegment>,
      security: RateLimiter.Security, now: nat) returns (safe: bool)
    requires frame.Length >= IP_AT
    requires security.rateLimiter.Valid() && security.rateLimiter.clock <= now
    modifies frame
    modifies security.rateLimiter`routes, security.rateLimiter`log, security.rateLimiter`clock
    ensures security.rateLimiter.Valid() && security.rateLimiter.clock <= now
    ensures safe == (WellFormed(old(frame[..]), udp) && (security.rateLimiter.enabled ==>
      old(security.rateLimiter.Admitted(RouteOf(frame[..], udp), now))))
    ensures safe ==> frame[..] == old(frame[..])
    ensures security.rateLimiter.log == old(security.rateLimiter.log)
      + if WellFormed(old(frame[..]), udp) && security.rateLimiter.enabled
        then [RateLimiter.Request(RouteOf(old(frame[..]), udp), now, safe)] else []
  {
    if !(MIN_PACKET_SIZE <= frame.Length <= MAX_PACKET_SIZE) {
      return false;
    }
    if Word(frame[ETHERTYPE_AT], frame[ETHERTYPE_AT + 1]) != IPV4_ETHERTYPE {
      return false;
    }
    var correct := IsChecksumCorrect(frame, IP_AT);
    if !correct || frame[TTL_AT] == 0 || frame[PROTOCOL_AT] != UDP {
      return false;
    }
    var sourcePort, destPort: u16 := 0, 0;
    if udp.Some? {
      if !udp.value.checksumCorrect {
        return false;
      }
      sourcePort, destPort := udp.value.sourcePort, udp.value.destPort;
    }
    var route := RateLimiter.Route(SourceIp(frame[..]), UDP, destPort);
    safe := security.IsPacketSecure(route, sourcePort, now);
  }

  /** The whole inbound path. A frame that goes out was well-formed, was admitted and not our own,
      and its new header checks out at the next hop. */
  method ExternalToInternal(frame: array<byte>, ownIps: set<nat>, sourceMac: seq<byte>,
      destMac: seq<byte>, destIp: Option<seq<byte>>, t: Transport, udp: Option<UdpSegment>,
      security: RateLimiter.Security, now: nat) returns (sent: bool)
    requires frame.Length >= IP_AT && |sourceMac| == |destMac| == 6 && Fits(t, frame.Length)
    requires destIp.Some? ==> |destIp.value| == 4
    requires security.rateLimiter.Valid() && security.rateLimiter.clock <= now
    modifies frame
    modifies security.rateLimiter`routes, security.rateLimiter`log, security.rateLimiter`clock
    ensures security.rateLimiter.Valid() && security.rateLimiter.clock <= now
    ensures sent == (WellFormed(old(frame[..]), udp) && destIp.Some?
      && !old(IsOwn(frame[..], ownIps))
      && (security.rateLimiter.enabled ==>
            old(security.rateLimiter.Admitted(RouteOf(frame[..], udp), now))))
    ensures sent ==>
      && Accepts(frame[IP_AT..IP_PAYLOAD_AT])
      && Reads(frame, DEST_MAC_AT, destMac) && Reads(frame, DEST_IP_AT, destIp.value)
    ensures old(IsOwn(frame[..], ownIps)) ==>
      frame[..] == old(frame[..]) && security.rateLimiter.log == old(security.rateLimiter.log)
  {
    var isIpv6 := Word(frame[ETHERTYPE_AT], frame[ETHERTYPE_AT + 1]) == IPV6_ETHERTYPE;
    if isIpv6 || IsOwn(frame[..], ownIps) {
      return false;
    }
    var safe := ExtToIntIsPacketSafe(frame, udp, security, now);
    if !safe {
      return false;
    }
    sent := ModifyExtToInt(frame, sourceMac, destMac, destIp, t);
  }
}
