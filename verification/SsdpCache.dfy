/** The Chromecast filters of the packet forwarder and the little cache of SSDP source ports that
    authorises replies, against the full history of registrations. The clock is the wall clock:
    nothing here assumes that it moves forward. */
module SsdpCache {

  import opened Environment

  const MAX_SSDP_PORTS := 3
  const SIZE_WITH_ROOM := MAX_SSDP_PORTS - 1
  /** Nanoseconds. */
  const MAX_DURATION := 5_000_000_000

  datatype Entry = Entry(port: nat, time: int)

  /** Where a port was last registered; -1 if it never was. */
  function LastIndex(log: seq<Entry>, port: nat): (i: int)
    ensures -1 <= i < |log|
    ensures i >= 0 ==> log[i].port == port
    ensures forall j :: i < j < |log| ==> log[j].port != port
  {
    if log == [] then -1
    else if log[|log| - 1].port == port then |log| - 1
    else LastIndex(log[..|log| - 1], port)
  }

  function Ports(entries: seq<Entry>): set<nat> {
    set i | 0 <= i < |entries| :: entries[i].port
  }

  ghost predicate Has(entries: seq<Entry>, port: nat) {
    exists i :: 0 <= i < |entries| && entries[i].port == port
  }

  ghost predicate Distinct(entries: seq<Entry>) {
    forall i, j :: 0 <= i < j < |entries| ==> entries[i].port != entries[j].port
  }

  /** A reply to `port` is authorised: fewer than three other ports were registered after it, and
      that was at most the maximal duration ago and not in the future. */
  ghost predicate Authorised(log: seq<Entry>, port: nat, now: int) {
    var i := LastIndex(log, port);
    && i >= 0
    && |Ports(log[i + 1..])| < MAX_SSDP_PORTS
    && log[i].time <= now <= log[i].time + MAX_DURATION
  }

  /** The cached entries are the last registrations of their ports in the order of these, and a
      registered port is missing only if three ports were registered after it. */
  ghost predicate Caches(entries: seq<Entry>, log: seq<Entry>) {
    && |entries| <= MAX_SSDP_PORTS
    && InOrder(entries, log)
    && forall port :: OlderIfMissing(entries, log, port, MAX_SSDP_PORTS)
  }

  ghost predicate InOrder(entries: seq<Entry>, log: seq<Entry>) {
    && (forall k :: 0 <= k < |entries| ==> Current(log, entries[k]))
    && (forall k, l :: 0 <= k < l < |entries| ==>
          LastIndex(log, entries[k].port) < LastIndex(log, entries[l].port))
  }

  /** A registered port is missing only from `size` entries, all registered after it. */
  ghost predicate OlderIfMissing(entries: seq<Entry>, log: seq<Entry>, port: nat, size: nat) {
    LastIndex(log, port) >= 0 && !Has(entries, port) ==>
      |entries| == size && (size > 0 ==> LastIndex(log, port) < LastIndex(log, entries[0].port))
  }

  ghost predicate Current(log: seq<Entry>, entry: Entry) {
    var i := LastIndex(log, entry.port);
    i >= 0 && log[i] == entry
  }

  lemma LastIndexExtends(log: seq<Entry>, entry: Entry, port: nat)
    ensures LastIndex(log + [entry], port)
      == if entry.port == port then |log| else LastIndex(log, port)
  {
    assert (log + [entry])[..|log|] == log;
  }

  lemma CurrentExtends(log: seq<Entry>, entry: Entry, other: Entry)
    requires Current(log, other) && entry.port != other.port
    ensures Current(log + [entry], other)
  {
    LastIndexExtends(log, entry, other.port);
  }

  /** retain: everything but the entries of `port`. */
  function Without(entries: seq<Entry>, port: nat): seq<Entry> {
    if entries == [] then []
    else
      var last := entries[|entries| - 1];
      Without(entries[..|entries| - 1], port) + if last.port == port then [] else [last]
  }

  lemma {:induction false} WithoutAbsent(entries: seq<Entry>, port: nat)
    requires forall i | 0 <= i < |entries| :: entries[i].port != port
    ensures Without(entries, port) == entries
  {
    if entries == [] {
    } else {
      WithoutAbsent(entries[..|entries| - 1], port);
    }
  }

  lemma {:induction false} WithoutPresent(entries: seq<Entry>, k: nat)
    requires k < |entries| && Distinct(entries)
    ensures Without(entries, entries[k].port) == entries[..k] + entries[k + 1..]
  {
    var n := |entries| - 1;
    var port := entries[k].port;
    if k < n {
      WithoutPresent(entries[..n], k);
      assert entries[k + 1..] == entries[..n][k + 1..] + [entries[n]];
    } else {
      WithoutAbsent(entries[..n], port);
      assert entries[k + 1..] == [];
    }
  }

  /** One registration: the port's old entry goes, the oldest makes room if it must, and the new
      entry goes last. */
  function Registered(entries: seq<Entry>, entry: Entry): seq<Entry> {
    var rest := Without(entries, entry.port);
    (if |rest| >= MAX_SSDP_PORTS then rest[1..] else rest) + [entry]
  }

  lemma CachesDistinct(entries: seq<Entry>, log: seq<Entry>)
    requires Caches(entries, log)
    ensures Distinct(entries)
  {
  }

  /** Entries with room for one of `port`: they are current and in order, and among the other
      ports only ones older than all of them are missing, if there are two. */
  ghost predicate HasRoom(kept: seq<Entry>, log: seq<Entry>, port: nat) {
    && |kept| < MAX_SSDP_PORTS && !Has(kept, port) && InOrder(kept, log)
    && forall other :: other != port ==> OlderIfMissing(kept, log, other, SIZE_WITH_ROOM)
  }

  lemma AppendKeepsOrder(kept: seq<Entry>, log: seq<Entry>, entry: Entry)
    requires InOrder(kept, log) && !Has(kept, entry.port)
    ensures InOrder(kept + [entry], log + [entry])
  {
    var entries, log' := kept + [entry], log + [entry];
    forall k | 0 <= k < |kept|
      ensures LastIndex(log', kept[k].port) == LastIndex(log, kept[k].port)
      ensures Current(log', kept[k])
    {
      LastIndexExtends(log, entry, kept[k].port);
      CurrentExtends(log, entry, kept[k]);
    }
    LastIndexExtends(log, entry, entry.port);
    assert forall k | 0 <= k < |kept| :: entries[k] == kept[k];
  }

  lemma AppendKeepsOlder(kept: seq<Entry>, log: seq<Entry>, entry: Entry, other: nat)
    requires HasRoom(kept, log, entry.port)
    ensures OlderIfMissing(kept + [entry], log + [entry], other, MAX_SSDP_PORTS)
  {
    var entries := kept + [entry];
    assert entries[|kept|] == entry;
    LastIndexExtends(log, entry, other);
    if LastIndex(log + [entry], other) >= 0 && !Has(entries, other) {
      assert other != entry.port;
      assert forall k | 0 <= k < |kept| :: entries[k] == kept[k];
      assert OlderIfMissing(kept, log, other, SIZE_WITH_ROOM);
      assert entries[0] == kept[0];
      LastIndexExtends(log, entry, kept[0].port);
    }
  }

  lemma AppendKeepsCaches(kept: seq<Entry>, log: seq<Entry>, entry: Entry)
    requires HasRoom(kept, log, entry.port)
    ensures Caches(kept + [entry], log + [entry])
  {
    AppendKeepsOrder(kept, log, entry);
    forall other ensures OlderIfMissing(kept + [entry], log + [entry], other, MAX_SSDP_PORTS) {
      AppendKeepsOlder(kept, log, entry, other);
    }
  }

  function Removed(entries: seq<Entry>, k: nat): seq<Entry>
    requires k < |entries|
  {
    entries[..k] + entries[k + 1..]
  }

  lemma RemovedAt(entries: seq<Entry>, k: nat)
    requires k < |entries|
    ensures forall i :: 0 <= i < |entries| - 1 ==>
      Removed(entries, k)[i] == entries[if i < k then i else i + 1]
    ensures forall port | port != entries[k].port :: Has(entries, port) == Has(Removed(entries, k), port)
  {
    forall port | port != entries[k].port && Has(entries, port)
      ensures Has(Removed(entries, k), port)
    {
      var i :| 0 <= i < |entries| && entries[i].port == port;
      assert Removed(entries, k)[if i < k then i else i - 1] == entries[i];
    }
  }

  lemma RemovalKeepsOrder(entries: seq<Entry>, log: seq<Entry>, k: nat)
    requires InOrder(entries, log) && k < |entries|
    ensures InOrder(Removed(entries, k), log) && !Has(Removed(entries, k), entries[k].port)
  {
    RemovedAt(entries, k);
  }

  /** Re-registering a cached port moves it to the end. */
  lemma MovingLeavesRoom(entries: seq<Entry>, log: seq<Entry>, k: nat)
    requires Caches(entries, log) && k < |entries|
    ensures HasRoom(Removed(entries, k), log, entries[k].port)
  {
    RemovalKeepsOrder(entries, log, k);
    RemovedAt(entries, k);
    forall other | other != entries[k].port
      ensures OlderIfMissing(Removed(entries, k), log, other, SIZE_WITH_ROOM)
    {
      assert OlderIfMissing(entries, log, other, MAX_SSDP_PORTS);
      if !Has(entries, other) && LastIndex(log, other) >= 0 {
        assert LastIndex(log, entries[0].port) < LastIndex(log, entries[1].port);
      }
    }
  }

  /** A new port takes the place of the oldest once the cache is full. */
  lemma DroppingLeavesRoom(entries: seq<Entry>, log: seq<Entry>, port: nat)
    requires Caches(entries, log) && |entries| == MAX_SSDP_PORTS && !Has(entries, port)
    ensures HasRoom(entries[1..], log, port)
  {
    RemovalKeepsOrder(entries, log, 0);
    RemovedAt(entries, 0);
    var kept := entries[1..];
    assert Removed(entries, 0) == kept;
    forall other ensures OlderIfMissing(kept, log, other, SIZE_WITH_ROOM) {
      assert OlderIfMissing(entries, log, other, MAX_SSDP_PORTS);
      assert kept[0] == entries[1];
      assert LastIndex(log, entries[0].port) < LastIndex(log, entries[1].port);
    }
  }

  lemma RegistrationKeepsCaches(entries: seq<Entry>, log: seq<Entry>, entry: Entry)
    requires Caches(entries, log)
    ensures Caches(Registered(entries, entry), log + [entry])
  {
    CachesDistinct(entries, log);
    var rest := Without(entries, entry.port);
    if k :| 0 <= k < |entries| && entries[k].port == entry.port {
      WithoutPresent(entries, k);
      MovingLeavesRoom(entries, log, k);
      AppendKeepsCaches(rest, log, entry);
    } else {
      WithoutAbsent(entries, entry.port);
      if |entries| == MAX_SSDP_PORTS {
        DroppingLeavesRoom(entries, log, entry.port);
        AppendKeepsCaches(rest[1..], log, entry);
      } else {
        assert forall other {:trigger OlderIfMissing(entries, log, other, SIZE_WITH_ROOM)} ::
            OlderIfMissing(entries, log, other, MAX_SSDP_PORTS);
        AppendKeepsCaches(rest, log, entry);
      }
    }
  }

  lemma RegisteredAfterIsCachedAfter(entries: seq<Entry>, log: seq<Entry>, k: nat, port: nat)
    requires Caches(entries, log) && k < |entries|
    requires port in Ports(log[LastIndex(log, entries[k].port) + 1..])
    ensures port in Ports(entries[k + 1..])
  {
    var i := LastIndex(log, entries[k].port);
    var j :| 0 <= j < |log| - i - 1 && log[i + 1..][j].port == port;
    assert log[i + 1 + j].port == port && LastIndex(log, port) > i;
    assert OlderIfMissing(entries, log, port, MAX_SSDP_PORTS);
    assert i >= LastIndex(log, entries[0].port);
    var l :| 0 <= l < |entries| && entries[l].port == port;
    assert entries[k + 1..][l - k - 1].port == port;
  }

  lemma CachedAfterIsRegisteredAfter(entries: seq<Entry>, log: seq<Entry>, k: nat, port: nat)
    requires Caches(entries, log) && k < |entries|
    requires port in Ports(entries[k + 1..])
    ensures port in Ports(log[LastIndex(log, entries[k].port) + 1..])
  {
    var l :| 0 <= l < |entries| - k - 1 && entries[k + 1..][l].port == port;
    assert entries[k + 1 + l].port == port;
    RegisteredAfter(log, LastIndex(log, entries[k].port), port);
  }

  /** The ports registered after a cached one are those cached after it. */
  lemma PortsAfterCached(entries: seq<Entry>, log: seq<Entry>, k: nat)
    requires Caches(entries, log) && k < |entries|
    ensures Ports(log[LastIndex(log, entries[k].port) + 1..]) == Ports(entries[k + 1..])
    ensures |Ports(entries[k + 1..])| < MAX_SSDP_PORTS
  {
    var after, cached := Ports(log[LastIndex(log, entries[k].port) + 1..]), Ports(entries[k + 1..]);
    forall port | port in after ensures port in cached {
      RegisteredAfterIsCachedAfter(entries, log, k, port);
    }
    forall port | port in cached ensures port in after {
      CachedAfterIsRegisteredAfter(entries, log, k, port);
    }
    AtMostOneEach(entries[k + 1..]);
  }

  lemma {:induction false} AtMostOneEach(entries: seq<Entry>)
    ensures |Ports(entries)| <= |entries|
  {
    if entries == [] {
    } else {
      var n := |entries| - 1;
      AtMostOneEach(entries[..n]);
      assert Ports(entries) == Ports(entries[..n]) + {entries[n].port};
    }
  }

  lemma RegisteredAfter(log: seq<Entry>, i: nat, port: nat)
    requires i < LastIndex(log, port)
    ensures port in Ports(log[i + 1..])
  {
    assert log[i + 1..][LastIndex(log, port) - i - 1].port == port;
  }

  /** Three ports registered after `port`, one after the other. */
  lemma ThreeAfter(log: seq<Entry>, port: nat, a: nat, b: nat, c: nat)
    requires 0 <= LastIndex(log, port) < LastIndex(log, a) < LastIndex(log, b) < LastIndex(log, c)
    ensures !(|Ports(log[LastIndex(log, port) + 1..])| < MAX_SSDP_PORTS)
  {
    var i := LastIndex(log, port);
    RegisteredAfter(log, i, a);
    RegisteredAfter(log, i, b);
    RegisteredAfter(log, i, c);
    var ports := Ports(log[i + 1..]);
    assert ports == {a, b, c} + (ports - {a, b, c});
  }

  lemma MissingIsUnauthorised(entries: seq<Entry>, log: seq<Entry>, port: nat, now: int)
    requires Caches(entries, log) && !Has(entries, port)
    ensures !Authorised(log, port, now)
  {
    if LastIndex(log, port) >= 0 {
      assert OlderIfMissing(entries, log, port, MAX_SSDP_PORTS);
      assert LastIndex(log, entries[0].port) < LastIndex(log, entries[1].port);
      assert LastIndex(log, entries[1].port) < LastIndex(log, entries[2].port);
      ThreeAfter(log, port, entries[0].port, entries[1].port, entries[2].port);
    }
  }

  /** What a lookup finds in the cache is what the history says. */
  lemma CachedIsAuthorised(entries: seq<Entry>, log: seq<Entry>, k: nat, now: int)
    requires Caches(entries, log) && k < |entries|
    ensures Authorised(log, entries[k].port, now)
      == (entries[k].time <= now <= entries[k].time + MAX_DURATION)
  {
    PortsAfterCached(entries, log, k);
    assert Current(log, entries[k]);
  }

  type Address = int
  type Mac = int

  const SSDP_MULTICAST_ADDR: Address := 0xEF_FF_FF_FA
  const SSDP_PORT := 1900
  const SSDP_MAC: Mac := 0x01_00_5E_7F_FF_FA
  const MDNS_IP: Address := 0xE0_00_00_FB
  const MDNS_PORT := 5353
  const MDNS_MAC: Mac := 0x01_00_5E_00_00_FB

  /** What the filters see of a frame: nothing of one that does not parse. */
  datatype Dns = NoDns | Query | Response
  datatype Datagram = Datagram(source: Address, destination: Address, udp: Option<Udp>)
  datatype Udp = Udp(sourcePort: nat, destPort: nat, dns: Dns)

  class Chromecast {
    const enabled: bool
    const ip: Address
    const mac: Mac
    const extIp: Address
    const ssdpEnabled: bool
    const mdnsEnabled: bool
    var ssdpPorts: seq<Entry>
    /** Every registration ever made. */
    ghost var log: seq<Entry>

    ghost predicate Valid()
      reads this
    {
      Caches(ssdpPorts, log)
    }

    constructor (enabled: bool, ip: Address, mac: Mac, extIp: Address, ssdpEnabled: bool,
        mdnsEnabled: bool)
      ensures Valid() && log == [] && this.enabled == enabled && this.ip == ip && this.mac == mac
      ensures this.extIp == extIp && this.ssdpEnabled == ssdpEnabled
      ensures this.mdnsEnabled == mdnsEnabled
    {
      this.enabled, this.ip, this.mac, this.extIp := enabled, ip, mac, extIp;
      this.ssdpEnabled, this.mdnsEnabled := ssdpEnabled, mdnsEnabled;
      ssdpPorts, log := [], [];
    }

    predicate FromVm(packet: Option<Datagram>) {
      packet.Some? && packet.value.source == ip
    }

    predicate IsSearch(packet: Option<Datagram>) {
      && packet.Some? && packet.value.udp.Some?
      && packet.value.destination == SSDP_MULTICAST_ADDR
      && packet.value.udp.value.destPort == SSDP_PORT
    }

    predicate IsMdns(packet: Option<Datagram>, dns: Dns) {
      && packet.Some? && packet.value.udp.Some?
      && packet.value.destination == MDNS_IP
      && packet.value.udp.value.destPort == MDNS_PORT
      && packet.value.udp.value.dns == dns
    }

    /** A datagram to this forwarder itself that answers one of the last searches in time. */
    ghost predicate IsReply(packet: Option<Datagram>, now: int)
      reads this
    {
      && ssdpEnabled && packet.Some? && packet.value.udp.Some?
      && packet.value.destination == extIp
      && Authorised(log, packet.value.udp.value.destPort, now)
    }

    method AddSsdpPort(port: nat, now: int)
      requires Valid()
      modifies `ssdpPorts, `log
      ensures Valid() && log == old(log) + [Entry(port, now)]
    {
      var ports := Without(ssdpPorts, port);
      if |ports| >= MAX_SSDP_PORTS {
        ports := ports[1..];
      }
      RegistrationKeepsCaches(ssdpPorts, log, Entry(port, now));
      ssdpPorts := ports + [Entry(port, now)];
      log := log + [Entry(port, now)];
    }

    /** The answer from three entries is the answer from the full history, whatever the clock
        did. An entry from the future is passed over. */
    method IsSsdpPortAvailable(port: nat, now: int) returns (available: bool)
      requires Valid()
      ensures available == Authorised(log, port, now)
    {
      for i := 0 to |ssdpPorts|
        invariant forall k :: 0 <= k < i && ssdpPorts[k].port == port ==>
          now < ssdpPorts[k].time
      {
        if ssdpPorts[i].port == port && ssdpPorts[i].time <= now {
          CachedIsAuthorised(ssdpPorts, log, i, now);
          return now - ssdpPorts[i].time <= MAX_DURATION;
        }
      }
      if k :| 0 <= k < |ssdpPorts| && ssdpPorts[k].port == port {
        CachedIsAuthorised(ssdpPorts, log, k, now);
      } else {
        MissingIsUnauthorised(ssdpPorts, log, port, now);
      }
      return false;
    }

    /** Internal to external: searches from the Chromecast VM pass and register their source port,
        only while SSDP is on; mDNS queries pass without a trace; nothing else does. */
    method IntToExtFilter(packet: Option<Datagram>, now: int) returns (pass: bool)
      requires Valid()
      modifies `ssdpPorts, `log
      ensures Valid()
      ensures pass == (enabled && FromVm(packet)
        && ((ssdpEnabled && IsSearch(packet)) || (mdnsEnabled && IsMdns(packet, Query))))
      ensures log == old(log) + if enabled && ssdpEnabled && FromVm(packet) && IsSearch(packet)
        then [Entry(packet.value.udp.value.sourcePort, now)] else []
    {
      if !enabled || packet.None? || packet.value.source != ip || packet.value.udp.None? {
        return false;
      }
      var udp, destination := packet.value.udp.value, packet.value.destination;
      if destination == SSDP_MULTICAST_ADDR && udp.destPort == SSDP_PORT {
        if !ssdpEnabled {
          return false;
        }
        AddSsdpPort(udp.sourcePort, now);
        return true;
      } else if mdnsEnabled && udp.destPort == MDNS_PORT && destination == MDNS_IP {
        return udp.dns.Query?;
      }
      return false;
    }

    /** External to internal: where a frame is to go, if anywhere. The VM itself is reached only by
        a datagram to this forwarder's own address whose port a search has opened. */
    method ExtToIntFilter(packet: Option<Datagram>, now: int) returns (to: Option<(Mac, Address)>)
      requires Valid()
      ensures to.Some? == (enabled && (IsReply(packet, now)
        || (ssdpEnabled && IsSearch(packet)) || (mdnsEnabled && IsMdns(packet, Response))))
      ensures enabled && IsReply(packet, now) ==> to == Some((mac, ip))
      ensures to.Some? && !IsReply(packet, now) ==>
        to == Some(if IsSearch(packet) then (SSDP_MAC, SSDP_MULTICAST_ADDR) else (MDNS_MAC, MDNS_IP))
    {
      if !enabled || packet.None? || packet.value.udp.None? {
        return None;
      }
      var udp, destination := packet.value.udp.value, packet.value.destination;
      var available := false;
      if ssdpEnabled && destination == extIp {
        available := IsSsdpPortAvailable(udp.destPort, now);
      }
      if available {
        return Some((mac, ip));
      } else if mdnsEnabled && udp.destPort == MDNS_PORT && destination == MDNS_IP {
        return if udp.dns.Response? then Some((MDNS_MAC, MDNS_IP)) else None;
      } else if ssdpEnabled && destination == SSDP_MULTICAST_ADDR && udp.destPort == SSDP_PORT {
        return Some((SSDP_MAC, SSDP_MULTICAST_ADDR));
      }
      return None;
    }
  }
}
