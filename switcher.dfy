/**
 * The client's virtual network switcher (ppp/app/client/VEthernetNetworkSwitcher.cpp),
 * Linux build.
 *
 * The switcher sits between the TAP device and the exchanger that talks to
 * the VPN server. It filters and forwards datagrams, answers ICMP echoes it
 * parks in a table of pending ids, keeps the route tables it will install,
 * the DNS servers it routes through the tunnel, and the flags that say what
 * it has installed in the operating system.
 *
 * Calls into code outside this model (the exchanger, the TAP output, the
 * operating system's routing and DNS) are appended to `log`; the boolean an
 * exchanger or output call returns is a parameter of the method that makes
 * it. Collaborators whose bodies are not modelled are the total functions of
 * `Platform`.
 */
module NetworkSwitcher {
  import opened Text
  import opened Net
  import opened IcmpTable
  import UriAuxiliary

  /** The TAP device fields the switcher reads. */
  datatype Tap = Tap(ip: bv32, gateway: bv32, mask: bv32, promiscuous: bool, hostedNetwork: bool)

  /** What `VEthernetExchanger::GetRemoteEndPoint` yields on success. */
  datatype RemoteEndPoint = RemoteEndPoint(
    hostname: string, port: int, protocol: UriAuxiliary.ProtocolType, endpoint: Endpoint)

  /** The fields of `VirtualEthernetInformation` the switcher reads. */
  datatype Information = Information(bandwidthQoS: nat, valid: bool)

  /** What the environment answers while `Constructor` runs. */
  datatype Startup = Startup(
    underlying: Option<NetworkInterface>, baseOpens: bool, tunNi: Option<NetworkInterface>,
    bandwidth: int, guidNonZero: bool, exchangerOpens: bool, httpProxyOpens: bool,
    remote: Option<RemoteEndPoint>)

  /** Calls the switcher makes into the exchanger, the TAP device and the operating system. */
  datatype Effect =
    | Nat(packet: IpFrame)
    | EchoAck(ackId: int)
    | EchoPacket(bytes: seq<Byte>)
    | SendTo(source: Endpoint, destination: Endpoint, payload: seq<Byte>)
    | OutputIcmp(message: IcmpFrame)
    | OutputUdp(datagram: UdpFrame)
    | UpdateQos(now: nat)
    | UpdateExchanger(now: nat)
    | DisposeHttpProxy
    | DisposeExchanger
    | DisposeQos
    | DisposeTransmission
    | FixGatewayRoute(gateway: bv32)
    | DeleteDefaultRoutes(gateway: bv32)
    | RestoreDefaultRoutes
    | AddAllRoutes(table: Option<seq<RibEntry>>)
    | DeleteAllRoutes(table: Option<seq<RibEntry>>)
    | AddDnsRoutes(servers: set<bv32>, gateway: bv32)
    | DeleteDnsRoutes(servers: set<bv32>, gateway: bv32)
    | SetDnsAddresses(addresses: seq<IpAddress>)
    | RestoreDnsConfiguration

  /** Collaborators whose bodies are not part of this model. */
  datatype Platform = Platform(
    isGatewayServer: (bv32, bv32, bv32) -> bool,
    icmpHeader: IpFrame -> Option<IcmpHeader>,
    icmpToIp: IcmpFrame -> bool,
    udpParse: IpFrame -> Option<UdpFrame>,
    toBytes: IpFrame -> seq<Byte>,
    isInvalid: IpAddress -> bool,
    ribAddRoute: RibEntry -> bool,
    ipListLoads: (string, bv32) -> bool,
    fibAvailable: seq<RibEntry> -> bool,
    fibNextHop: (seq<RibEntry>, bv32) -> bv32,
    rewritePath: string -> string,
    fullPath: string -> string,
    fileExists: string -> bool,
    v6ToV4: Endpoint -> Endpoint)

  // ------------------------------------------------------------ DNS servers

  /**
   * Whether the DNS server `a` of interface `ni` is routed through the tunnel:
   * a v4 address that is not multicast, loopback, unspecified or invalid and
   * lies outside the interface's own subnet (lines 1297-1327).
   */
  predicate Admissible(ni: NetworkInterface, a: IpAddress, isInvalid: IpAddress -> bool) {
    && a.V4? && !IsMulticast(a) && !IsLoopback(a) && !IsUnspecified(a) && !isInvalid(a)
    && !SameSubnet(a.bits, V4OrAny(ni.ip), V4OrAny(ni.mask))
  }

  /** The admissible servers among `dns`, a prefix of `ni`'s list. */
  function AdmittedOf(ni: NetworkInterface, dns: seq<IpAddress>, isInvalid: IpAddress -> bool): set<bv32>
    decreases |dns|
  {
    if dns == [] then {}
    else
      var a := dns[|dns| - 1];
      AdmittedOf(ni, dns[..|dns| - 1], isInvalid) + if Admissible(ni, a, isInvalid) then {a.bits} else {}
  }

  /** The admissible servers of every interface in `nis`. */
  function DnsServersOf(nis: seq<NetworkInterface>, isInvalid: IpAddress -> bool): set<bv32>
    decreases |nis|
  {
    if nis == [] then {}
    else
      var ni := nis[|nis| - 1];
      DnsServersOf(nis[..|nis| - 1], isInvalid) + AdmittedOf(ni, ni.dns, isInvalid)
  }

  /** A server is admitted exactly when some admissible entry of the list names it. */
  lemma {:induction false} AdmittedMembers(ni: NetworkInterface, dns: seq<IpAddress>, isInvalid: IpAddress -> bool, x: bv32)
    ensures x in AdmittedOf(ni, dns, isInvalid) <==>
            exists a :: a in dns && Admissible(ni, a, isInvalid) && a.bits == x
    decreases |dns|
  {
    if dns != [] {
      var init := dns[..|dns| - 1];
      var a := dns[|dns| - 1];
      AdmittedMembers(ni, init, isInvalid, x);
      assert dns == init + [a];
      if x in AdmittedOf(ni, dns, isInvalid) && x !in AdmittedOf(ni, init, isInvalid) {
        assert a in dns && Admissible(ni, a, isInvalid) && a.bits == x;
      }
      if exists b :: b in dns && Admissible(ni, b, isInvalid) && b.bits == x {
        var b :| b in dns && Admissible(ni, b, isInvalid) && b.bits == x;
        if b != a {
          assert b in init;
        }
      }
    }
  }

  /**
   * The switcher's DNS server set holds exactly the admissible servers of the
   * interfaces it was given.
   */
  lemma {:induction false} DnsServersMembers(nis: seq<NetworkInterface>, isInvalid: IpAddress -> bool, x: bv32)
    ensures x in DnsServersOf(nis, isInvalid) <==>
            exists i :: 0 <= i < |nis| && x in AdmittedOf(nis[i], nis[i].dns, isInvalid)
    decreases |nis|
  {
    if nis != [] {
      var init := nis[..|nis| - 1];
      DnsServersMembers(init, isInvalid, x);
      if exists i :: 0 <= i < |nis| && x in AdmittedOf(nis[i], nis[i].dns, isInvalid) {
        var i :| 0 <= i < |nis| && x in AdmittedOf(nis[i], nis[i].dns, isInvalid);
        if i < |nis| - 1 {
          assert init[i] == nis[i];
        }
      }
      if x in DnsServersOf(init, isInvalid) {
        var i :| 0 <= i < |init| && x in AdmittedOf(init[i], init[i].dns, isInvalid);
        assert nis[i] == init[i];
      }
    }
  }

  /** The interfaces that are present, tunnel first (line 1282). */
  function Present(tunNi: Option<NetworkInterface>, underlyingNi: Option<NetworkInterface>): seq<NetworkInterface> {
    (if tunNi.Some? then [tunNi.value] else []) + (if underlyingNi.Some? then [underlyingNi.value] else [])
  }

  // ------------------------------------------------------------ small pieces

  /** The transport suffix of the remote URI (lines 1156-1164). */
  function TransportSuffix(protocol: UriAuxiliary.ProtocolType): (r: string)
    ensures '/' !in r && |r| >= 6 && r[..4] == "ppp+"
    ensures r == "ppp+tcp" <==> protocol == UriAuxiliary.Ppp
    ensures r == "ppp+wss" <==> protocol == UriAuxiliary.HttpSSL || protocol == UriAuxiliary.WebSocketSSL
    ensures r == "ppp+ws" <==> protocol == UriAuxiliary.Http || protocol == UriAuxiliary.WebSocket
  {
    match protocol
    case Http | WebSocket => "ppp+ws"
    case HttpSSL | WebSocketSSL => "ppp+wss"
    case Ppp => "ppp+tcp"
  }

  /** `server_ru_`: host name, port, and the transport (lines 1151-1164). */
  function RemoteUri(remote: RemoteEndPoint): string {
    remote.hostname + ":" + IntToString(remote.port) + "/" + TransportSuffix(remote.protocol)
  }

  /**
   * `NewQoS`'s bandwidth (lines 408-416). It is clamped at 0 before the
   * Kbps scaling checks for a negative value, so the scaling never applies.
   */
  function QosBandwidth(configured: int): (b: int)
    ensures b >= 0
    ensures configured >= 0 ==> b == configured
    ensures configured < 0 ==> b == 0
  {
    var bandwidth := if configured < 0 then 0 else configured;
    if bandwidth < 0 then bandwidth * 128 else bandwidth
  }

  /** Where `OnIcmpPacketInput` sends an ICMP datagram. */
  datatype IcmpPath = Drop | Park | Forward

  /** The mask of a route with prefix length `prefix`. */
  function PrefixMask(prefix: int): bv32
    requires 0 <= prefix <= 32
  {
    if prefix == 0 then 0 else 0xFFFF_FFFF << (32 - prefix)
  }

  /** Whether the route entry `e` covers address `a`. */
  predicate Covers(e: RibEntry, a: bv32) {
    e.Route? && 0 <= e.prefix <= 32 && SameSubnet(a, e.destination, PrefixMask(e.prefix))
  }

  /**
   * The server URI splits back into its parts: the host name and ':', the
   * port `atoi` reads back, and '/' and the transport after the last '/'.
   */
  lemma RemoteUriParts(remote: RemoteEndPoint)
    requires Int32Min <= remote.port <= Int32Max
    ensures var r := RemoteUri(remote);
            var k := |r| - |TransportSuffix(remote.protocol)| - 1;
            && |remote.hostname| + 1 <= k
            && r[..|remote.hostname| + 1] == remote.hostname + ":"
            && Atoi(r[|remote.hostname| + 1..k]) == remote.port
            && r[k] == '/' && r[k + 1..] == TransportSuffix(remote.protocol) && '/' !in r[k + 1..]
  {
    var r := RemoteUri(remote);
    var h := remote.hostname + ":";
    var p := IntToString(remote.port);
    var t := "/" + TransportSuffix(remote.protocol);
    assert r == h + p + t;
    assert r[..|h|] == h;
    assert r[|h|..|h| + |p|] == p;
    assert r[|h| + |p|..] == t;
    AtoiOfIntToString(remote.port);
  }

  /** The routes of the split default and the full default route to the TAP gateway (lines 1174-1181). */
  function DefaultRoutes(gateway: bv32): seq<RibEntry> {
    [Route(AnyAddress, 1, gateway), Route(0x8000_0000, 1, gateway), Route(AnyAddress, 0, gateway)]
  }

  /** The host route to a v4 server through the physical gateway (lines 1183-1200). */
  function HostRoute(server: IpAddress, gw: IpAddress): seq<RibEntry> {
    if server.V4? && gw.V4? then [Route(server.bits, 32, gw.bits)] else []
  }

  /**
   * All three default routes lead to the gateway; the two /1 halves split the
   * address space, so each address falls in exactly one, and the last route
   * covers every address.
   */
  lemma DefaultRoutesSplit(gateway: bv32, a: bv32)
    ensures var r := DefaultRoutes(gateway);
            && |r| == 3 && (forall e :: e in r ==> e.Route? && e.nextHop == gateway)
            && Covers(r[0], a) != Covers(r[1], a) && Covers(r[2], a)
  {
    var r := DefaultRoutes(gateway);
    assert PrefixMask(1) == 0x8000_0000;
    assert PrefixMask(0) == 0;
    assert Covers(r[0], a) <==> a & 0x8000_0000 == 0;
    assert Covers(r[1], a) <==> a & 0x8000_0000 == 0x8000_0000;
  }

  /**
   * There is a host route only when server and gateway are both v4; it leads
   * to the gateway and covers the server's address and no other.
   */
  lemma HostRouteCovers(server: IpAddress, gw: IpAddress, a: bv32)
    ensures var r := HostRoute(server, gw);
            && |r| <= 1 && (r != [] <==> server.V4? && gw.V4?)
            && (r != [] ==> r[0].nextHop == gw.bits && (Covers(r[0], a) <==> a == server.bits))
  {
    var r := HostRoute(server, gw);
    if r != [] {
      assert PrefixMask(32) == 0xFFFF_FFFF;
    }
  }

  /**
   * The RIB after `AddRemoteEndPointToIPList`: what it held, the default
   * routes to the TAP gateway and the host route to the server.
   */
  function ServerTable(rib: Option<seq<RibEntry>>, tap: Option<Tap>, server: IpAddress, gw: IpAddress): seq<RibEntry> {
    (if rib.Some? then rib.value else [])
    + (if tap.Some? then DefaultRoutes(tap.value.gateway) else [])
    + HostRoute(server, gw)
  }

  /**
   * The table keeps what the RIB held as its prefix, then the default routes
   * when there is a TAP device, then the host route.
   */
  lemma ServerTableLayout(rib: Option<seq<RibEntry>>, tap: Option<Tap>, server: IpAddress, gw: IpAddress)
    ensures var held := if rib.Some? then rib.value else [];
            var r := ServerTable(rib, tap, server, gw);
            var n := if tap.Some? then 3 else 0;
            && |r| == |held| + n + |HostRoute(server, gw)|
            && r[..|held|] == held
            && (tap.Some? ==> r[|held|..|held| + 3] == DefaultRoutes(tap.value.gateway))
            && r[|held| + n..] == HostRoute(server, gw)
  {
  }

  // ------------------------------------------------------------ lifecycle specification

  /** The physical gateway's default route that `FixUnderlyingNgw` re-adds when the gateway is usable (lines 986-1008). */
  function GatewayFix(p: Platform, ni: Option<NetworkInterface>): (r: seq<Effect>)
    ensures forall e :: e in r ==> e.FixGatewayRoute?
  {
    if ni.Some? && ni.value.gateway.V4? && !p.isInvalid(ni.value.gateway) && !IsLoopback(ni.value.gateway)
    then [FixGatewayRoute(ni.value.gateway.bits)]
    else []
  }

  /**
   * What `AddRoute` asks of the system (lines 1036-1061); `bound` says that
   * the physical, tunnel and TAP interfaces are all known, and `servers` are
   * the DNS servers it routes.
   */
  function RouteInstalls(bound: bool, tap: Option<Tap>, rib: Option<seq<RibEntry>>, servers: set<bv32>): seq<Effect>
    requires bound ==> tap.Some?
  {
    RibInstalls(bound, tap, rib) + DnsInstalls(tap, servers)
  }

  /** The RIB part of `AddRoute`: the default routes go first unless the TAP is promiscuous. */
  function RibInstalls(bound: bool, tap: Option<Tap>, rib: Option<seq<RibEntry>>): seq<Effect>
    requires bound ==> tap.Some?
  {
    (if bound && !tap.value.promiscuous then [DeleteDefaultRoutes(tap.value.gateway)] else [])
    + (if bound then [AddAllRoutes(rib)] else [])
  }

  /** The DNS part of `AddRoute`, made by `AddRouteWithDnsServers` (lines 1276-1356). */
  function DnsInstalls(tap: Option<Tap>, servers: set<bv32>): seq<Effect> {
    if tap.Some? then [AddDnsRoutes(servers, tap.value.gateway)] else []
  }

  /**
   * What `DeleteRoute` asks of the system (lines 1096-1117); `saved` says
   * that default routes were taken away and `fix` is the gateway repair.
   */
  function RouteRemovals(bound: bool, tap: Option<Tap>, rib: Option<seq<RibEntry>>, saved: bool,
                         fix: seq<Effect>, servers: set<bv32>): seq<Effect>
  {
    (if bound then [DeleteAllRoutes(rib)] else [])
    + (if bound && saved then [RestoreDefaultRoutes] else [])
    + fix
    + (if tap.Some? then [DeleteDnsRoutes(servers, tap.value.gateway)] else [])
  }

  /**
   * Removing the routes undoes installing them: the default routes come back
   * exactly when they were taken away, the RIB that was added is deleted, and
   * the DNS routes that were added are deleted.
   */
  lemma {:induction false} RemovalsUndoInstalls(bound: bool, tap: Option<Tap>, rib: Option<seq<RibEntry>>,
                                                servers: set<bv32>, fix: seq<Effect>)
    requires bound ==> tap.Some?
    requires forall e :: e in fix ==> e.FixGatewayRoute?
    ensures var installs := RouteInstalls(bound, tap, rib, servers);
            var removals := RouteRemovals(bound, tap, rib, bound && !tap.value.promiscuous, fix, servers);
            && (RestoreDefaultRoutes in removals <==> exists g :: DeleteDefaultRoutes(g) in installs)
            && (AddAllRoutes(rib) in installs <==> DeleteAllRoutes(rib) in removals)
            && (tap.Some? ==> AddDnsRoutes(servers, tap.value.gateway) in installs
                              && DeleteDnsRoutes(servers, tap.value.gateway) in removals)
  {
    var installs := RouteInstalls(bound, tap, rib, servers);
    var removals := RouteRemovals(bound, tap, rib, bound && !tap.value.promiscuous, fix, servers);
    if bound {
      assert removals[0] == DeleteAllRoutes(rib);
      assert installs[|installs| - 2] == AddAllRoutes(rib);
    } else {
      assert forall e :: e in installs ==> e.AddDnsRoutes?;
      assert forall e :: e in removals ==> e.FixGatewayRoute? || e.DeleteDnsRoutes?;
    }
    if !bound || tap.value.promiscuous {
      assert forall e :: e in installs ==> !e.DeleteDefaultRoutes?;
      assert forall e :: e in removals ==> !e.RestoreDefaultRoutes?;
    } else {
      assert installs[0] == DeleteDefaultRoutes(tap.value.gateway);
      assert removals[1] == RestoreDefaultRoutes;
    }
    if tap.Some? {
      assert installs[|installs| - 1] == AddDnsRoutes(servers, tap.value.gateway);
      assert removals[|removals| - 1] == DeleteDnsRoutes(servers, tap.value.gateway);
    }
  }

  /** The disposals `ReleaseAllObjects` makes, in its order (lines 1444-1460). */
  function Disposals(httpProxy: bool, exchanger: bool, qos: bool): (r: seq<Effect>)
    ensures forall e :: e in r ==> e.DisposeHttpProxy? || e.DisposeExchanger? || e.DisposeQos?
  {
    (if httpProxy then [DisposeHttpProxy] else [])
    + (if exchanger then [DisposeExchanger] else [])
    + (if qos then [DisposeQos] else [])
  }

  /**
   * What `ReleaseAllObjects` asks of the outside world (lines 1443-1494):
   * the disposals, then, only when routes were installed, their removal and
   * the restored DNS configuration.
   */
  function ReleaseEffects(httpProxy: bool, exchanger: bool, qos: bool, routeAdded: bool, removals: seq<Effect>): seq<Effect> {
    Disposals(httpProxy, exchanger, qos) + Restoration(routeAdded, removals)
  }

  /** The route half of a release (lines 1471-1486): the removals and the restored DNS configuration, if routes were installed. */
  function Restoration(routeAdded: bool, removals: seq<Effect>): seq<Effect> {
    if routeAdded then removals + [RestoreDnsConfiguration] else []
  }

  /**
   * A release restores the DNS configuration exactly when routes were
   * installed, and a release with nothing open and nothing installed does
   * nothing: releasing twice removes no route a second time.
   */
  lemma {:induction false} ReleaseRestoresOnlyInstalled(httpProxy: bool, exchanger: bool, qos: bool, routeAdded: bool,
                                                        bound: bool, tap: Option<Tap>, rib: Option<seq<RibEntry>>,
                                                        saved: bool, fix: seq<Effect>, servers: set<bv32>)
    requires forall e :: e in fix ==> e.FixGatewayRoute?
    ensures var effects := ReleaseEffects(httpProxy, exchanger, qos, routeAdded,
                                          RouteRemovals(bound, tap, rib, saved, fix, servers));
            RestoreDnsConfiguration in effects <==> routeAdded
    ensures ReleaseEffects(false, false, false, false, RouteRemovals(bound, tap, rib, saved, fix, servers)) == []
  {
    var removals := RouteRemovals(bound, tap, rib, saved, fix, servers);
    var effects := ReleaseEffects(httpProxy, exchanger, qos, routeAdded, removals);
    if routeAdded {
      assert effects[|effects| - 1] == RestoreDnsConfiguration;
    } else {
      assert effects == Disposals(httpProxy, exchanger, qos);
    }
  }

  class Switcher {
    const platform: Platform
    /** `InternetControlMessageProtocol::MAX_ICMP_TIMEOUT`. */
    const icmpTimeout: nat

    var icmpPackets: Table
    var icmpAid: Int32
    var blockQuic: bool
    var routeAdded: bool
    /** Whether `default_routes_` holds the default routes taken away from the system. */
    var defaultRoutesSaved: bool
    var rib: Option<seq<RibEntry>>
    var fib: Option<seq<RibEntry>>
    var ribs: Option<set<string>>
    var dnsServers: set<bv32>
    var serverRu: string
    var serverEp: Option<Endpoint>
    var tap: Option<Tap>
    var tunNi: Option<NetworkInterface>
    var underlyingNi: Option<NetworkInterface>
    var exchanger: bool
    /** The QoS module and its bandwidth, when present. */
    var qos: Option<int>
    var httpProxy: bool
    var log: seq<Effect>

    /** Pending ids are in range, and a FIB is only ever kept when it is available. */
    ghost predicate Valid()
      reads this`icmpPackets, this`fib
    {
      IdsInRange(icmpPackets) && (fib.Some? ==> platform.fibAvailable(fib.value))
    }

    /** The physical, tunnel and TAP interfaces are all known. */
    predicate Bound()
      reads this`underlyingNi, this`tunNi, this`tap
    {
      underlyingNi.Some? && tunNi.Some? && tap.Some?
    }

    /** Lines 56-62: the counter starts at a random value, QUIC is not blocked, nothing is open. */
    constructor (platform: Platform, icmpTimeout: nat, seed: Int32)
      ensures Valid() && this.platform == platform && this.icmpTimeout == icmpTimeout
      ensures icmpPackets == map[] && icmpAid == seed && !blockQuic && !routeAdded && !defaultRoutesSaved
      ensures rib.None? && fib.None? && ribs.None? && dnsServers == {} && serverRu == [] && serverEp.None?
      ensures tap.None? && tunNi.None? && underlyingNi.None? && !exchanger && qos.None? && !httpProxy && log == []
    {
      this.platform := platform;
      this.icmpTimeout := icmpTimeout;
      icmpPackets := map[];
      icmpAid := seed;
      blockQuic := false;
      routeAdded := false;
      defaultRoutesSaved := false;
      rib := None;
      fib := None;
      ribs := None;
      dnsServers := {};
      serverRu := "";
      serverEp := None;
      tap := None;
      tunNi := None;
      underlyingNi := None;
      exchanger := false;
      qos := None;
      httpProxy := false;
      log := [];
    }

    // ------------------------------------------------------------ ticks

    /**
     * `OnTick` (lines 78-112): updates the QoS module and the exchanger, then
     * drops every pending echo that has expired by `now`. `baseTicks` is what
     * the base class's tick returns.
     */
    method OnTick(now: nat, baseTicks: bool) returns (ok: bool)
      requires Valid()
      modifies this`icmpPackets, this`log
      ensures Valid() && ok == baseTicks
      ensures icmpPackets == if baseTicks then Swept(old(icmpPackets), now) else old(icmpPackets)
      ensures log == if baseTicks then old(log) + (if qos.Some? then [UpdateQos(now)] else [])
                                                + (if exchanger then [UpdateExchanger(now)] else [])
                     else old(log)
    {
      if !baseTicks {
        return false;
      }
      if qos.Some? {
        log := log + [UpdateQos(now)];
      }
      if exchanger {
        log := log + [UpdateExchanger(now)];
      }
      var releases := ExpiredIds(now);
      RemovedExpired(icmpPackets, now, releases);
      RemoveIds(releases);
      SweptKeepsRange(old(icmpPackets), now);
      return true;
    }

    /** Lines 93-101: the ids of the pending echoes that have expired by `now`. */
    method ExpiredIds(now: nat) returns (releases: seq<int>)
      ensures forall id :: id in releases <==> id in icmpPackets && icmpPackets[id].datetime <= now
    {
      releases := [];
      var keys := icmpPackets.Keys;
      while keys != {}
        invariant keys <= icmpPackets.Keys
        invariant forall id :: id in releases <==> id in icmpPackets && id !in keys && icmpPackets[id].datetime <= now
        decreases |keys|
      {
        var id := AnyId(keys);
        if icmpPackets[id].datetime <= now {
          releases := releases + [id];
        }
        keys := keys - {id};
      }
    }

    /** Lines 103-105: removes every id of `releases` from the table, one at a time. */
    method RemoveIds(releases: seq<int>)
      modifies this`icmpPackets
      ensures icmpPackets == Removed(old(icmpPackets), releases)
    {
      var i := 0;
      while i < |releases|
        invariant 0 <= i <= |releases|
        invariant icmpPackets == Removed(old(icmpPackets), releases[..i])
      {
        icmpPackets := icmpPackets - {releases[i]};
        assert releases[..i + 1] == releases[..i] + [releases[i]];
        assert icmpPackets.Keys == Removed(old(icmpPackets), releases[..i + 1]).Keys;
        i := i + 1;
      }
      assert releases[..i] == releases;
    }

    // ------------------------------------------------------------ packets

    /**
     * `OnPacketInput` on a native header (lines 114-152): hands the datagram
     * to the exchanger's NAT exactly when it is TCP, UDP or ICMP, arrives on a
     * virtual network, and is for another host of the TAP subnet that is not
     * the gateway.
     */
    method OnNativePacketInput(packet: IpFrame, vnet: bool) returns (ok: bool)
      modifies this`log
      ensures ok <==> && vnet
                      && packet.protocol in {IpProtoTcp, IpProtoUdp, IpProtoIcmp}
                      && exchanger && tap.Some?
                      && packet.destination != tap.value.ip
                      && !platform.isGatewayServer(packet.destination, tap.value.gateway, tap.value.mask)
                      && SameSubnet(packet.destination, tap.value.gateway, tap.value.mask)
      ensures log == old(log) + if ok then [Nat(packet)] else []
    {
      if !vnet {
        return false;
      }
      if packet.protocol != IpProtoTcp && packet.protocol != IpProtoUdp && packet.protocol != IpProtoIcmp {
        return false;
      }
      if !exchanger {
        return false;
      }
      if tap.None? {
        return false;
      }
      var destination := packet.destination;
      if tap.value.ip == destination {
        return false;
      }
      var gw := tap.value.gateway;
      var mask := tap.value.mask;
      if platform.isGatewayServer(destination, gw, mask) {
        return false;
      }
      if !SameSubnet(destination, gw, mask) {
        return false;
      }
      log := log + [Nat(packet)];
      return true;
    }

    /** `OnPacketInput` on a parsed frame (lines 154-164): UDP and ICMP are handled, the rest refused. */
    method OnPacketInput(packet: IpFrame, now: nat, answered: bool) returns (ok: bool)
      requires Valid() && (packet.protocol == IpProtoIcmp && IcmpPathOf(packet) == Park ==> |icmpPackets| < MaxAckId)
      modifies this`icmpPackets, this`icmpAid, this`log
      ensures Valid()
      ensures packet.protocol != IpProtoUdp && packet.protocol != IpProtoIcmp ==>
                !ok && log == old(log) && icmpPackets == old(icmpPackets) && icmpAid == old(icmpAid)
      ensures packet.protocol == IpProtoUdp ==> icmpPackets == old(icmpPackets) && icmpAid == old(icmpAid)
    {
      if packet.protocol == IpProtoUdp {
        ok := OnUdpPacketInput(packet, answered);
      } else if packet.protocol == IpProtoIcmp {
        ok := OnIcmpPacketInput(packet, now, answered);
      } else {
        ok := false;
      }
    }

    /** Whether `OnUdpPacketInput` hands `frame` to the exchanger (lines 166-191). */
    predicate UdpSends(frame: Option<UdpFrame>)
      reads this
    {
      && frame.Some? && frame.value.payload.Some? && exchanger
      && !(blockQuic && (frame.value.destination.port == 443 || frame.value.destination.port == 80))
    }

    /**
     * `OnUdpPacketInput` (lines 166-196): a parsed datagram with a payload goes
     * to the exchanger unless QUIC is blocked and it is for port 80 or 443.
     */
    method OnUdpPacketInput(packet: IpFrame, sent: bool) returns (ok: bool)
      modifies this`log
      ensures var frame := platform.udpParse(packet);
              && ok == (UdpSends(frame) && sent)
              && log == old(log) + if UdpSends(frame) then
                   [SendTo(frame.value.source, frame.value.destination, frame.value.payload.value)] else []
      ensures blockQuic && platform.udpParse(packet).Some? && platform.udpParse(packet).value.destination.port == 443 ==>
                !ok && log == old(log)
    {
      var frame := platform.udpParse(packet);
      if frame.None? {
        return false;
      }
      var messages := frame.value.payload;
      if messages.None? {
        return false;
      }
      if !exchanger {
        return false;
      }
      if blockQuic {
        var destinationPort := frame.value.destination.port;
        if destinationPort == 443 || destinationPort == 80 {
          return false;
        }
      }
      log := log + [SendTo(frame.value.source, frame.value.destination, messages.value)];
      return sent;
    }

    /** Where `OnIcmpPacketInput` sends `packet` (lines 284-317). */
    function IcmpPathOf(packet: IpFrame): (p: IcmpPath)
      reads this
      ensures p == Drop <==> !exchanger || tap.None? || platform.icmpHeader(packet).None? || packet.ttl == 0
      ensures p == Forward ==> packet.ttl >= 2
      ensures p == Park <==>
                p != Drop && (packet.ttl == 1 || platform.isGatewayServer(packet.destination, tap.value.gateway, tap.value.mask))
    {
      var frame := IcmpOf(packet, platform.icmpHeader(packet));
      if !exchanger || tap.None? then Drop
      else if frame.None? || frame.value.ttl == 0 then Drop
      else if platform.isGatewayServer(frame.value.destination, tap.value.gateway, tap.value.mask) then Park
      else if frame.value.ttl == 1 then Park
      else Forward
    }

    /**
     * `OnIcmpPacketInput` (lines 284-317): echoes for the gateway and echoes
     * whose TTL runs out here are parked to be answered; others go to the
     * exchanger with their TTL one lower.
     */
    method OnIcmpPacketInput(packet: IpFrame, now: nat, echoed: bool) returns (ok: bool)
      requires Valid() && (IcmpPathOf(packet) == Park ==> |icmpPackets| < MaxAckId)
      modifies this`icmpPackets, this`icmpAid, this`log
      ensures Valid()
      ensures IcmpPathOf(packet) == Drop ==>
        !ok && icmpPackets == old(icmpPackets) && icmpAid == old(icmpAid) && log == old(log)
      ensures IcmpPathOf(packet) == Park ==>
        var id := NextAckId(old(icmpPackets), old(icmpAid));
        && ok == echoed && icmpAid == id && log == old(log) + [EchoAck(id)]
        && icmpPackets == if echoed then old(icmpPackets)[id := PendingPacket(now + icmpTimeout, packet)]
                          else old(icmpPackets)
      ensures IcmpPathOf(packet) == Forward ==>
        && ok == echoed && packet.ttl - 1 >= 1
        && icmpPackets == old(icmpPackets) && icmpAid == old(icmpAid)
        && log == old(log) + [EchoPacket(platform.toBytes(packet.(ttl := packet.ttl - 1)))]
    {
      if !exchanger {
        return false;
      }
      if tap.None? {
        return false;
      }
      var frame := IcmpOf(packet, platform.icmpHeader(packet));
      if frame.None? || frame.value.ttl == 0 {
        return false;
      } else if platform.isGatewayServer(frame.value.destination, tap.value.gateway, tap.value.mask) {
        ok := EchoGatewayServer(packet, now, echoed);
      } else if frame.value.ttl == 1 {
        ok := EchoGatewayServer(packet, now, echoed);
      } else {
        var forwarded := packet.(ttl := packet.ttl - 1);
        ok := EchoOtherServer(forwarded, echoed);
      }
    }

    /** `EchoOtherServer` (lines 319-330): the datagram's bytes go to the exchanger. */
    method EchoOtherServer(packet: IpFrame, echoed: bool) returns (ok: bool)
      modifies this`log
      ensures ok == (exchanger && echoed)
      ensures log == old(log) + if exchanger then [EchoPacket(platform.toBytes(packet))] else []
    {
      if !exchanger {
        return false;
      }
      log := log + [EchoPacket(platform.toBytes(packet))];
      return echoed;
    }

    /**
     * `EchoGatewayServer` (lines 332-374): parks the echo under the next free
     * ack id and asks the exchanger to echo that id; when the exchanger
     * refuses, the entry is taken out again. The counter keeps the id either way.
     */
    method EchoGatewayServer(packet: IpFrame, now: nat, echoed: bool) returns (ok: bool)
      requires Valid() && |icmpPackets| < MaxAckId
      modifies this`icmpPackets, this`icmpAid, this`log
      ensures Valid()
      ensures ok == (exchanger && echoed)
      ensures !exchanger ==> icmpPackets == old(icmpPackets) && icmpAid == old(icmpAid) && log == old(log)
      ensures exchanger ==>
        var id := NextAckId(old(icmpPackets), old(icmpAid));
        && icmpAid == id && log == old(log) + [EchoAck(id)]
        && icmpPackets == if echoed then old(icmpPackets)[id := PendingPacket(now + icmpTimeout, packet)]
                          else old(icmpPackets)
    {
      if !exchanger {
        return false;
      }
      var e := PendingPacket(now + icmpTimeout, packet);
      ghost var target := NextAckId(icmpPackets, icmpAid);
      NextAckIdByDistance(icmpPackets, icmpAid, target);
      ParkKeepsRange(icmpPackets, icmpAid, e);
      ghost var start := WalkDistance(icmpAid, target);
      var aid := icmpAid;
      var ackId: Int32 := aid;
      while true
        invariant icmpPackets == old(icmpPackets) && icmpAid == old(icmpAid) && log == old(log)
        invariant WalkDistance(aid, target) <= start
        decreases WalkDistance(aid, target)
      {
        ghost var prev := aid;
        AdvanceNears(aid, target);
        ackId := Increment(aid);
        aid := ackId;
        if ackId < 1 {
          aid := 0;
          continue;
        }
        if ackId > MaxAckId {
          aid := 0;
          continue;
        }
        if ackId in icmpPackets {
          continue;
        }
        assert ackId == Advance(prev);
        if ackId != target {
          assert false;
        }
        break;
      }
      icmpAid := aid;
      icmpPackets := icmpPackets[ackId := e];
      log := log + [EchoAck(ackId)];
      if echoed {
        return true;
      }
      icmpPackets := icmpPackets - {ackId};
      assert icmpPackets.Keys == old(icmpPackets).Keys;
      return false;
    }

    /**
     * The message `ERORTE` sends back for a parked datagram (lines 264-281):
     * an Echo Reply when it was for the gateway, a Time Exceeded message from
     * the gateway otherwise; nothing without a TAP device or an ICMP header.
     */
    function ReplyFor(packet: IpFrame): (r: Option<IcmpFrame>)
      reads this
      ensures r.Some? <==> tap.Some? && platform.icmpHeader(packet).Some?
      ensures r.Some? ==>
        var frame := IcmpOf(packet, platform.icmpHeader(packet)).value;
        if platform.isGatewayServer(frame.destination, tap.value.gateway, tap.value.mask)
        then AnswersEcho(r.value, frame) && r.value.ttl == ReplyTtl(frame.ttl) && r.value.ttl >= 1
        else ReportsTimeExceeded(r.value, frame, platform.toBytes(packet), tap.value.gateway) && r.value.ttl == MaxTtl
    {
      if tap.None? then None
      else
        match IcmpOf(packet, platform.icmpHeader(packet))
        case None => None
        case Some(frame) =>
          if platform.isGatewayServer(frame.destination, tap.value.gateway, tap.value.mask)
          then Some(EchoReply(frame, ReplyTtl(frame.ttl)))
          else Some(TimeExceeded(frame, platform.toBytes(packet), tap.value.gateway))
    }

    /**
     * `ERORTE` (lines 248-282): takes the datagram parked under `ackId` out of
     * the table and sends the reply for it, unless the reply cannot be built
     * into an IP datagram (lines 214-216, 239-241). Id 0 and unknown ids
     * change nothing.
     */
    method ERORTE(ackId: int, output: bool) returns (ok: bool)
      requires Valid()
      modifies this`icmpPackets, this`log
      ensures Valid()
      ensures Take(old(icmpPackets), ackId).None? ==> !ok && icmpPackets == old(icmpPackets) && log == old(log)
      ensures Take(old(icmpPackets), ackId).Some? ==>
        var reply := ReplyFor(Take(old(icmpPackets), ackId).value.0);
        && ok == (reply.Some? && platform.icmpToIp(reply.value) && output)
        && icmpPackets == Take(old(icmpPackets), ackId).value.1
        && log == old(log) + if reply.Some? && platform.icmpToIp(reply.value) then [OutputIcmp(reply.value)] else []
    {
      var taken := Take(icmpPackets, ackId);
      if taken.None? {
        return false;
      }
      var packet := taken.value.0;
      icmpPackets := taken.value.1;
      if tap.None? {
        return false;
      }
      var frame := IcmpOf(packet, platform.icmpHeader(packet));
      if frame.None? {
        return false;
      }
      var reply: IcmpFrame;
      if platform.isGatewayServer(frame.value.destination, tap.value.gateway, tap.value.mask) {
        var ttl := ReplyTtl(frame.value.ttl);
        reply := EchoReply(frame.value, ttl);
      } else {
        reply := TimeExceeded(frame.value, platform.toBytes(packet), tap.value.gateway);
      }
      if !platform.icmpToIp(reply) {
        return false;
      }
      log := log + [OutputIcmp(reply)];
      return output;
    }

    /**
     * `DatagramOutput` (lines 443-470): a datagram from the exchanger goes out
     * on the TAP device, from the (v4-mapped) remote end to the local one.
     */
    method DatagramOutput(source: Endpoint, destination: Endpoint, payload: seq<Byte>, output: bool) returns (ok: bool)
      modifies this`log
      ensures var remote := platform.v6ToV4(destination);
              && ok == (remote.address.V4? && output)
              && log == old(log) + if remote.address.V4? then [OutputUdp(UdpFrame(remote, source, Some(payload)))] else []
    {
      var remoteEP := platform.v6ToV4(destination);
      if remoteEP.address.V4? {
        var frame := UdpFrame(remoteEP, source, Some(payload));
        log := log + [OutputUdp(frame)];
        return output;
      }
      return false;
    }

    // ------------------------------------------------------------ settings

    /** `BlockQUIC` (lines 776-785). */
    method BlockQUIC(value: bool) returns (ok: bool)
      modifies this`blockQuic
      ensures ok && blockQuic == value
    {
      blockQuic := value;
      return true;
    }

    /**
     * `OnInformation` (lines 472-496): the QoS bandwidth becomes the server's
     * figure in Kbps (times 128 bytes); an invalid account disposes the transmission.
     */
    method OnInformation(info: Information, hasTransmission: bool) returns (ok: bool)
      modifies this`qos, this`log
      ensures ok == (exchanger && info.valid)
      ensures qos == if exchanger && old(qos).Some? then Some(info.bandwidthQoS * 128) else old(qos)
      ensures log == old(log) + if exchanger && !info.valid && hasTransmission then [DisposeTransmission] else []
    {
      if !exchanger {
        return false;
      }
      if qos.Some? {
        var bandwidth := info.bandwidthQoS * (1024 / 8);
        qos := Some(bandwidth);
      }
      if info.valid {
        return true;
      }
      if hasTransmission {
        log := log + [DisposeTransmission];
      }
      return false;
    }

    /**
     * `IsBypassIpAddress`, Linux branch (lines 1387-1439): a routable v4
     * address bypasses the tunnel when the TAP is promiscuous and the FIB's
     * next hop for it is not the TAP gateway.
     */
    function IsBypassIpAddress(ip: IpAddress): (r: bool)
      reads this
      ensures r <==> && ip.V4? && !IsUnspecified(ip) && !IsMulticast(ip) && !platform.isInvalid(ip)
                     && tap.Some? && tap.value.promiscuous && fib.Some?
                     && platform.fibNextHop(fib.value, ip.bits) != tap.value.gateway
    {
      if !ip.V4? then false
      else if IsUnspecified(ip) then false
      else if IsMulticast(ip) then false
      else if platform.isInvalid(ip) then false
      else if tap.None? then false
      else if tap.value.promiscuous && fib.Some? then platform.fibNextHop(fib.value, ip.bits) != tap.value.gateway
      else false
    }

    // ------------------------------------------------------------ route tables

    /**
     * `AddLoadIPList` (lines 1209-1242): queues an IP-list file by its full
     * path; true only when the file exists and was not queued yet.
     */
    method AddLoadIPList(path: string) returns (ok: bool)
      modifies this`ribs
      ensures var full := platform.fullPath(path);
              var accepted := path != [] && platform.rewritePath(path) != [] && full != [] && platform.fileExists(full);
              var queued := if old(ribs).Some? then old(ribs).value else {};
              && ok == (accepted && full !in queued)
              && ribs == if accepted then Some(queued + {full}) else old(ribs)
    {
      if path == [] {
        return false;
      }
      var fullpath := platform.rewritePath(path);
      if fullpath == [] {
        return false;
      }
      fullpath := platform.fullPath(path);
      if fullpath == [] {
        return false;
      }
      if !platform.fileExists(fullpath) {
        return false;
      }
      if ribs.None? {
        ribs := Some({});
      }
      ok := fullpath !in ribs.value;
      ribs := Some(ribs.value + {fullpath});
    }

    /**
     * Lines 1256-1262: one RIB addition per queued file, each with `nextHop`;
     * `any` tells whether some file loaded.
     */
    method LoadIpLists(paths: set<string>, nextHop: bv32) returns (entries: seq<RibEntry>, any: bool)
      ensures |entries| == |paths|
      ensures forall e :: e in entries <==> e.IpList? && e.path in paths && e.nextHop == nextHop
      ensures any <==> exists p :: p in paths && platform.ipListLoads(p, nextHop)
    {
      entries := [];
      any := false;
      var rest := paths;
      ghost var done: set<string> := {};
      while rest != {}
        invariant rest <= paths && done == paths - rest
        invariant |entries| == |done|
        invariant forall e :: e in entries <==> e.IpList? && e.path in done && e.nextHop == nextHop
        invariant any <==> exists p :: p in done && platform.ipListLoads(p, nextHop)
        decreases |rest|
      {
        var path :| path in rest;
        var loaded := platform.ipListLoads(path, nextHop);
        any := any || loaded;
        entries := entries + [IpList(path, nextHop)];
        rest := rest - {path};
        done := done + {path};
      }
    }

    /**
     * `LoadAllIPListWithFilePaths` (lines 1244-1274): builds a fresh RIB from
     * the queued IP-list files with `gw` as next hop, keeps it only when some
     * file loaded, and empties the queue whatever happens.
     */
    method LoadAllIPListWithFilePaths(gw: IpAddress) returns (any: bool)
      requires Valid()
      modifies this`rib, this`fib, this`ribs
      ensures Valid()
      ensures any <==> && gw.V4? && !platform.isInvalid(gw) && old(ribs).Some?
                       && exists p :: p in old(ribs).value && platform.ipListLoads(p, gw.bits)
      ensures rib.Some? <==> any
      ensures any ==> && |rib.value| == |old(ribs).value|
                      && forall e :: e in rib.value <==> e.IpList? && e.path in old(ribs).value && e.nextHop == gw.bits
      ensures fib.None? && ribs.None?
    {
      rib := None;
      fib := None;
      any := false;
      if gw.V4? && !platform.isInvalid(gw) {
        var queued := ribs;
        ribs := None;
        if queued.Some? {
          var entries;
          entries, any := LoadIpLists(queued.value, gw.bits);
          if any {
            rib := Some(entries);
          }
        }
      }
      ribs := None;
    }

    /**
     * `AddRemoteEndPointToIPList` (lines 1128-1203): records the server's URI,
     * adds the default routes to the TAP gateway and, for a v4 server, a host
     * route to it through the physical gateway `gw`.
     */
    method AddRemoteEndPointToIPList(gw: IpAddress, remote: Option<RemoteEndPoint>) returns (ok: bool)
      modifies this`serverEp, this`serverRu, this`rib
      ensures !exchanger || remote.None? ==>
                !ok && serverEp == old(serverEp) && serverRu == old(serverRu) && rib == old(rib)
      ensures exchanger && remote.Some? ==>
        var server := remote.value.endpoint.address;
        && ok == (!server.V4? || (gw.V4? && platform.ribAddRoute(HostRoute(server, gw)[0])))
        && serverEp == Some(remote.value.endpoint) && serverRu == RemoteUri(remote.value)
        && rib == Some(ServerTable(old(rib), tap, server, gw))
    {
      if !exchanger {
        return false;
      }
      if remote.None? {
        return false;
      }
      var r := remote.value;
      serverEp := Some(r.endpoint);
      var transport: string;
      if r.protocol == UriAuxiliary.Http || r.protocol == UriAuxiliary.WebSocket {
        transport := "ppp+ws";
      } else if r.protocol == UriAuxiliary.HttpSSL || r.protocol == UriAuxiliary.WebSocketSSL {
        transport := "ppp+wss";
      } else {
        transport := "ppp+tcp";
      }
      assert transport == TransportSuffix(r.protocol);
      serverRu := r.hostname + ":" + IntToString(r.port) + "/" + transport;
      var table := if rib.Some? then rib.value else [];
      ghost var held := table;
      if tap.Some? {
        var gateway := tap.value.gateway;
        table := table + [Route(AnyAddress, 1, gateway)];
        table := table + [Route(0x8000_0000, 1, gateway)];
        table := table + [Route(AnyAddress, 0, gateway)];
        assert table == held + DefaultRoutes(gateway);
      } else {
        assert table == held + [];
      }
      ghost var withDefaults := table;
      ok := true;
      if r.endpoint.address.V4? {
        ok := false;
        if gw.V4? {
          var route := Route(r.endpoint.address.bits, 32, gw.bits);
          table := table + [route];
          ok := platform.ribAddRoute(route);
        }
      }
      assert table == withDefaults + HostRoute(r.endpoint.address, gw);
      rib := Some(table);
    }

    // ------------------------------------------------------------ DNS routes

    /** Lines 1282-1328: the admissible DNS servers of the interfaces `nis`. */
    method CollectDnsServers(nis: seq<NetworkInterface>) returns (servers: set<bv32>)
      ensures servers == DnsServersOf(nis, platform.isInvalid)
    {
      servers := {};
      var i := 0;
      while i < |nis|
        invariant 0 <= i <= |nis|
        invariant servers == DnsServersOf(nis[..i], platform.isInvalid)
      {
        var ni := nis[i];
        var j := 0;
        while j < |ni.dns|
          invariant 0 <= j <= |ni.dns|
          invariant servers == DnsServersOf(nis[..i], platform.isInvalid) + AdmittedOf(ni, ni.dns[..j], platform.isInvalid)
        {
          var ip := ni.dns[j];
          assert ni.dns[..j + 1][..j] == ni.dns[..j];
          j := j + 1;
          if ip.V6? {
            continue;
          }
          if IsMulticast(ip) || IsLoopback(ip) || IsUnspecified(ip) || platform.isInvalid(ip) {
            continue;
          }
          if SameSubnet(ip.bits, V4OrAny(ni.ip), V4OrAny(ni.mask)) {
            continue;
          }
          servers := servers + {ip.bits};
        }
        assert ni.dns[..j] == ni.dns;
        assert nis[..i + 1][..i] == nis[..i];
        i := i + 1;
      }
      assert nis[..i] == nis;
    }

    /**
     * `AddRouteWithDnsServers` (lines 1276-1356): collects the admissible DNS
     * servers of the tunnel and physical interfaces and routes them through
     * the TAP gateway.
     */
    method AddRouteWithDnsServers()
      modifies this`dnsServers, this`log
      ensures dnsServers == DnsServersOf(Present(tunNi, underlyingNi), platform.isInvalid)
      ensures log == old(log) + DnsInstalls(tap, dnsServers)
    {
      dnsServers := CollectDnsServers(Present(tunNi, underlyingNi));
      if tap.Some? {
        log := log + [AddDnsRoutes(dnsServers, tap.value.gateway)];
      }
    }

    /** `DeleteRouteWithDnsServers` (lines 1358-1385): removes those routes and forgets the servers. */
    method DeleteRouteWithDnsServers()
      modifies this`dnsServers, this`log
      ensures dnsServers == {}
      ensures log == old(log) + if tap.Some? then [DeleteDnsRoutes(old(dnsServers), tap.value.gateway)] else []
    {
      if tap.Some? {
        log := log + [DeleteDnsRoutes(dnsServers, tap.value.gateway)];
      }
      dnsServers := {};
    }

    // ------------------------------------------------------------ lifecycle

    /**
     * `FixUnderlyingNgw` (lines 986-1008): re-adds the physical interface's
     * default route when its gateway is a usable v4 address.
     */
    method FixUnderlyingNgw() returns (ok: bool)
      modifies this`log
      ensures ok <==> && underlyingNi.Some? && underlyingNi.value.gateway.V4?
                      && !platform.isInvalid(underlyingNi.value.gateway) && !IsLoopback(underlyingNi.value.gateway)
      ensures log == old(log) + GatewayFix(platform, underlyingNi)
    {
      if underlyingNi.None? {
        return false;
      }
      var gw := underlyingNi.value.gateway;
      if gw.V4? && !platform.isInvalid(gw) && !IsLoopback(gw) {
        log := log + [FixGatewayRoute(gw.bits)];
        return true;
      }
      return false;
    }

    /**
     * `AddRoute`, Linux branch (lines 1036-1061): removes the system's default
     * routes unless the TAP is promiscuous, installs the RIB, then the DNS routes.
     */
    method AddRoute()
      modifies this`defaultRoutesSaved, this`dnsServers, this`log
      ensures defaultRoutesSaved == (old(defaultRoutesSaved) || (Bound() && !tap.value.promiscuous))
      ensures dnsServers == DnsServersOf(Present(tunNi, underlyingNi), platform.isInvalid)
      ensures log == old(log) + RouteInstalls(Bound(), tap, rib, dnsServers)
    {
      if underlyingNi.Some? && tunNi.Some? && tap.Some? {
        if !tap.value.promiscuous {
          defaultRoutesSaved := true;
          log := log + [DeleteDefaultRoutes(tap.value.gateway)];
        }
        log := log + [AddAllRoutes(rib)];
      }
      ghost var ribPart := RibInstalls(Bound(), tap, rib);
      assert log == old(log) + ribPart;
      AddRouteWithDnsServers();
      ghost var dnsPart := DnsInstalls(tap, dnsServers);
      assert log == old(log) + ribPart + dnsPart;
      assert RouteInstalls(Bound(), tap, rib, dnsServers) == ribPart + dnsPart;
    }

    /**
     * `DeleteRoute`, Linux branch (lines 1096-1117): removes the RIB, puts
     * back the saved default routes, repairs the physical gateway route and
     * removes the DNS routes.
     */
    method DeleteRoute()
      modifies this`dnsServers, this`log
      ensures dnsServers == {}
      ensures log == old(log) + RouteRemovals(Bound(), tap, rib, defaultRoutesSaved,
                                              GatewayFix(platform, underlyingNi), old(dnsServers))
    {
      if underlyingNi.Some? && tunNi.Some? && tap.Some? {
        log := log + [DeleteAllRoutes(rib)];
        if defaultRoutesSaved {
          log := log + [RestoreDefaultRoutes];
        }
      }
      var _ := FixUnderlyingNgw();
      DeleteRouteWithDnsServers();
    }

    /**
     * The first half of `ReleaseAllObjects` (lines 1446-1470): disposes
     * whichever of the HTTP proxy, the exchanger and the QoS module is open.
     */
    method DisposeObjects()
      modifies this`httpProxy, this`exchanger, this`qos, this`log
      ensures !httpProxy && !exchanger && qos.None?
      ensures log == old(log) + Disposals(old(httpProxy), old(exchanger), old(qos).Some?)
    {
      if httpProxy {
        httpProxy := false;
        log := log + [DisposeHttpProxy];
      }
      if exchanger {
        exchanger := false;
        log := log + [DisposeExchanger];
      }
      if qos.Some? {
        qos := None;
        log := log + [DisposeQos];
      }
    }

    /**
     * The route half of `ReleaseAllObjects` (lines 1471-1486): when routes
     * were installed, clears the flag, removes them and restores the
     * system's DNS configuration.
     */
    method RemoveInstalledRoutes()
      modifies this`routeAdded, this`dnsServers, this`log
      ensures !routeAdded
      ensures dnsServers == if old(routeAdded) then {} else old(dnsServers)
      ensures log == old(log) + Restoration(old(routeAdded), RouteRemovals(Bound(), tap, rib, defaultRoutesSaved,
                                                                          GatewayFix(platform, underlyingNi), old(dnsServers)))
    {
      var added := routeAdded;
      routeAdded := false;
      if added {
        DeleteRoute();
        log := log + [RestoreDnsConfiguration];
      }
    }

    /**
     * `ReleaseAllObjects` (lines 1443-1501): disposes the HTTP proxy, the
     * exchanger and the QoS module; removes what was installed in the system
     * only when `routeAdded` was set, and clears that flag; outside the
     * constructor also reloads the route tables with no next hop.
     */
    method ReleaseAllObjects(ctor: bool)
      requires Valid()
      modifies this`httpProxy, this`exchanger, this`qos, this`routeAdded, this`defaultRoutesSaved
      modifies this`dnsServers, this`log, this`rib, this`fib, this`ribs
      ensures Valid()
      ensures !httpProxy && !exchanger && qos.None? && !routeAdded && !defaultRoutesSaved
      ensures dnsServers == if old(routeAdded) then {} else old(dnsServers)
      ensures log == old(log + ReleaseEffects(httpProxy, exchanger, qos.Some?, routeAdded,
                                              RouteRemovals(Bound(), tap, rib, defaultRoutesSaved,
                                                            GatewayFix(platform, underlyingNi), dnsServers)))
      ensures ctor ==> rib == old(rib) && fib == old(fib) && ribs == old(ribs)
      ensures !ctor ==> fib.None? && ribs.None? && (rib.Some? ==> old(ribs).Some? && !platform.isInvalid(V4(AnyAddress)))
    {
      ghost var disposals := Disposals(httpProxy, exchanger, qos.Some?);
      ghost var removals := RouteRemovals(Bound(), tap, rib, defaultRoutesSaved, GatewayFix(platform, underlyingNi), dnsServers);
      ghost var restoration := Restoration(routeAdded, removals);
      ghost var effects := ReleaseEffects(httpProxy, exchanger, qos.Some?, routeAdded, removals);
      DisposeObjects();
      ghost var disposed := log;
      RemoveInstalledRoutes();
      assert log == disposed + restoration;
      Regroup(old(log), disposals, restoration);
      assert log == old(log) + effects;
      defaultRoutesSaved := false;
      if !ctor {
        var _ := LoadAllIPListWithFilePaths(V4(AnyAddress));
      }
    }

    /**
     * Lines 928-955 of `Constructor`: on a hosted network whose routes are not
     * yet installed, sets the flag, installs them and hands the tunnel's DNS
     * servers to the system.
     */
    method InstallRoutes()
      requires Bound()
      modifies this`routeAdded, this`defaultRoutesSaved, this`dnsServers, this`log
      ensures routeAdded == (old(routeAdded) || tap.value.hostedNetwork)
      ensures tap.value.hostedNetwork && !old(routeAdded) ==>
                log == old(log) + RouteInstalls(true, tap, rib, dnsServers) + [SetDnsAddresses(tunNi.value.dns)]
      ensures !tap.value.hostedNetwork || old(routeAdded) ==>
                log == old(log) && dnsServers == old(dnsServers) && defaultRoutesSaved == old(defaultRoutesSaved)
    {
      if tap.value.hostedNetwork && !routeAdded {
        var dns := tunNi.value.dns;
        routeAdded := true;
        AddRoute();
        log := log + [SetDnsAddresses(dns)];
      }
    }

    /**
     * The last part of `Constructor` (lines 908-957): loads the IP lists with
     * the physical gateway as next hop, adds the server's routes, keeps the
     * FIB built from the RIB when it is available and, on a hosted network
     * whose routes are not yet installed, installs them and hands the tunnel's
     * DNS servers to the system.
     */
    method MountRoutes(remote: Option<RemoteEndPoint>) returns (ok: bool)
      requires Valid() && Bound()
      modifies this`rib, this`fib, this`ribs, this`serverEp, this`serverRu
      modifies this`routeAdded, this`defaultRoutesSaved, this`dnsServers, this`log
      ensures Valid() && ribs.None?
      ensures !ok ==> routeAdded == old(routeAdded) && log == old(log)
      ensures ok ==> && routeAdded == (old(routeAdded) || tap.value.hostedNetwork)
                     && remote.Some? && serverEp == Some(remote.value.endpoint) && serverRu == RemoteUri(remote.value)
                     && rib.Some? && (platform.fibAvailable(rib.value) ==> fib == rib)
                     && (fib.Some? ==> fib == rib)
      ensures ok && tap.value.hostedNetwork && !old(routeAdded) ==>
                log == old(log) + RouteInstalls(true, tap, rib, dnsServers) + [SetDnsAddresses(tunNi.value.dns)]
      ensures ok && (!tap.value.hostedNetwork || old(routeAdded)) ==> log == old(log)
    {
      var gateway := underlyingNi.value.gateway;
      var _ := LoadAllIPListWithFilePaths(gateway);
      ok := AddRemoteEndPointToIPList(gateway, remote);
      if !ok {
        return;
      }
      if rib.Some? {
        if platform.fibAvailable(rib.value) {
          fib := rib;
        }
      }
      InstallRoutes();
    }

    /**
     * `Constructor` (lines 826-958): releases what an earlier run left, opens
     * the QoS module, the exchanger and the HTTP proxy, loads the route tables
     * and, on a hosted network, installs routes and DNS servers.
     */
    method Constructor(device: Tap, env: Startup) returns (ok: bool)
      requires Valid()
      modifies this
      ensures Valid()
      ensures ok ==> && exchanger && httpProxy && qos == Some(QosBandwidth(env.bandwidth))
                     && tap == Some(device) && underlyingNi == env.underlying && tunNi == env.tunNi
                     && routeAdded == device.hostedNetwork && ribs.None?
                     && env.remote.Some? && serverRu == RemoteUri(env.remote.value)
                     && rib.Some? && (platform.fibAvailable(rib.value) ==> fib == rib)
                     && (fib.Some? ==> fib == rib)
      ensures !ok ==> !routeAdded
    {
      ReleaseAllObjects(true);
      ok := OpenServices(device, env);
      if ok {
        ok := MountRoutes(env.remote);
      }
    }

    /**
     * The first part of `Constructor` (lines 830-906): finds the physical
     * interface and repairs its gateway route, opens the TAP and finds the
     * tunnel interface, then opens the QoS module, the exchanger and the HTTP
     * proxy, disposing of those already opened when a later one fails.
     */
    method OpenServices(device: Tap, env: Startup) returns (ok: bool)
      modifies this`underlyingNi, this`tap, this`tunNi, this`qos, this`exchanger, this`httpProxy, this`log
      ensures underlyingNi == env.underlying
      ensures ok <==> && env.underlying.Some? && env.baseOpens && env.tunNi.Some? && env.guidNonZero
                      && env.exchangerOpens && env.httpProxyOpens
      ensures ok ==> && Bound() && exchanger && httpProxy && qos == Some(QosBandwidth(env.bandwidth))
                     && tap == Some(device) && tunNi == env.tunNi
      ensures !ok ==> exchanger == old(exchanger) && httpProxy == old(httpProxy) && qos == old(qos)
      ensures env.underlying.None? ==> log == old(log)
      ensures env.underlying.Some? && !ok ==>
                log == old(log) + GatewayFix(platform, underlyingNi)
                       + if !(env.baseOpens && env.tunNi.Some? && env.guidNonZero) then []
                         else if !env.exchangerOpens then [DisposeQos, DisposeExchanger]
                         else [DisposeQos, DisposeExchanger, DisposeHttpProxy]
      ensures ok ==> log == old(log) + GatewayFix(platform, underlyingNi)
    {
      underlyingNi := env.underlying;
      if underlyingNi.None? {
        return false;
      }
      var _ := FixUnderlyingNgw();
      if !env.baseOpens {
        return false;
      }
      tap := Some(device);
      tunNi := env.tunNi;
      if tunNi.None? {
        return false;
      }
      var bandwidth := QosBandwidth(env.bandwidth);
      if !env.guidNonZero {
        return false;
      }
      if !env.exchangerOpens {
        log := log + [DisposeQos, DisposeExchanger];
        return false;
      }
      if !env.httpProxyOpens {
        log := log + [DisposeQos, DisposeExchanger, DisposeHttpProxy];
        return false;
      }
      qos := Some(bandwidth);
      exchanger := true;
      httpProxy := true;
      return true;
    }

    /** `Finalize` (lines 394-398): forgets every pending echo and releases everything. */
    method Finalize()
      requires Valid()
      modifies this`icmpPackets, this`httpProxy, this`exchanger, this`qos, this`routeAdded, this`defaultRoutesSaved
      modifies this`dnsServers, this`log, this`rib, this`fib, this`ribs
      ensures Valid()
      ensures icmpPackets == map[] && !routeAdded && !exchanger && !httpProxy && qos.None?
      ensures fib.None? && ribs.None?
    {
      icmpPackets := map[];
      ReleaseAllObjects(false);
    }
  }

  /** A bypass decision is only ever taken on a FIB that is available (lines 923-926 with 1423-1439). */
  lemma BypassNeedsAvailableFib(s: Switcher, ip: IpAddress)
    requires s.Valid() && s.IsBypassIpAddress(ip)
    ensures s.fib.Some? && s.platform.fibAvailable(s.fib.value)
  {
  }
}
