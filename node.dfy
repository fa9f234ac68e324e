/** The five events of p2p/events.py that a node and its connections report. */
module Events {
  datatype P2PEvent = Started | Connected | MessageReceived | Disconnected | Shutdown
}

/**
  The peer registry of p2p/node.py: the list of connections a node holds, the
  `host:port` strings peers exchange in the handshake, and the operations that
  add to, stop and send over that list. Sockets are replaced by what they
  report: the handshake reply `connect` receives, and whether each `sendall`
  of a broadcast succeeded. The event handler is a log of notifications.
 */
module Node {
  import opened Wrappers
  import opened Text
  import opened Events
  import opened Connection

  // ---------------------------------------------------------------------------
  // Address strings

  /** `P2PNode.to_url(host, port)` */
  function ToUrl(host: string, port: int): (url: string)
    ensures |url| > |host| && url[..|host|] == host && url[|host|] == ':'
    ensures ':' !in host ==> IndexOf(url, ':') == |host|
  {
    var url := host + ":" + Show(port);
    assert url[|host|] == ':';
    url
  }

  /**
    `P2PNode.from_url(url)`: the piece before the first ':' and the integer
    value of the piece after it; None where indexing the split raises
    IndexError (no ':') or `int` raises ValueError.
   */
  function FromUrl(url: string): (r: Option<(string, int)>)
    ensures r.Some? ==> ':' in url && ':' !in r.value.0
    ensures r.Some? ==> r.value.0 == url[..IndexOf(url, ':')]
    ensures r.Some? ==> |Split(url, ':')| >= 2 && ParseInt(Split(url, ':')[1]) == Some(r.value.1)
    ensures r.None? <==> |Split(url, ':')| < 2 || ParseInt(Split(url, ':')[1]).None?
    ensures ':' !in url ==> r.None?
  {
    var split := Split(url, ':');
    if |split| < 2 then None
    else match ParseInt(split[1])
      case None => None
      case Some(port) => Some((split[0], port))
  }

  /** `str(port)` holds no ':'. */
  lemma NoColonInShow(port: int)
    ensures ':' !in Show(port)
  {
  }

  /**
    The handshake string round-trips exactly when the host holds no ':':
    `from_url(to_url(h, p)) == (h, p)` for every port, negative ones included,
    and an IPv6-style host such as "::1" comes back different.
   */
  lemma UrlRoundTrip(host: string, port: int)
    ensures FromUrl(ToUrl(host, port)) == Some((host, port)) <==> ':' !in host
  {
    if ':' !in host {
      NoColonInShow(port);
      SplitAtFirst(host, ':', Show(port));
      assert ToUrl(host, port) == host + [':'] + Show(port);
      assert Split(Show(port), ':') == [Show(port)];
      ParseShow(port);
    }
  }

  // ---------------------------------------------------------------------------
  // The registry, as values

  /** What the event handler was called with. */
  datatype Notification = Notification(event: P2PEvent, host: string, port: int)

  /** The test of both dedup loops in `connect`: by address, or by announced address. */
  predicate Matches(c: P2PConnection, host: string, port: int)
  {
    (host == c.host && port == c.port) || (Some(host) == c.originalHost && Some(port) == c.originalPort)
  }

  predicate AlreadyConnected(connections: seq<P2PConnection>, host: string, port: int)
  {
    exists i :: 0 <= i < |connections| && Matches(connections[i], host, port)
  }

  /** `connect` rewrites the wildcard address to "localhost" before anything else. */
  function Target(host: string): (target: string)
    ensures host == "0.0.0.0" ==> target == "localhost"
    ensures host != "0.0.0.0" ==> target == host
  {
    if host == "0.0.0.0" then "localhost" else host
  }

  /** What `connect` decides. */
  datatype Outcome =
    | ToSelf                          // the target is the node itself: False
    | Known                           // a registered connection matches: True, nothing added
    | Unreachable                     // the socket or the handshake failed: False
    | Added(originalHost: string, originalPort: int)  // a new connection: True

  /**
    The decision of `connect(host, port)` for a node at (`selfHost`, `selfPort`)
    holding `connections`, when the handshake reply was `reply` (None where
    connecting, sending or receiving raised).
   */
  function ConnectOutcome(selfHost: string, selfPort: int, connections: seq<P2PConnection>,
                          host: string, port: int, reply: Option<string>): (outcome: Outcome)
    ensures outcome == ToSelf <==> Target(host) == selfHost && port == selfPort
    ensures outcome == Unreachable ==> reply.None? || FromUrl(reply.value).None?
    ensures (!(Target(host) == selfHost && port == selfPort) && AlreadyConnected(connections, Target(host), port))
              ==> outcome == Known
    ensures (!(Target(host) == selfHost && port == selfPort) && reply.Some? && FromUrl(reply.value).Some?
             && AlreadyConnected(connections, FromUrl(reply.value).value.0, FromUrl(reply.value).value.1))
              ==> outcome == Known
    ensures outcome == Known ==> AlreadyConnected(connections, Target(host), port)
                                 || (reply.Some? && FromUrl(reply.value).Some?
                                     && AlreadyConnected(connections, FromUrl(reply.value).value.0, FromUrl(reply.value).value.1))
  {
    var target := Target(host);
    if target == selfHost && port == selfPort then ToSelf
    else if AlreadyConnected(connections, target, port) then Known
    else if reply.None? || FromUrl(reply.value).None? then Unreachable
    else
      var (peerHost, peerPort) := FromUrl(reply.value).value;
      if AlreadyConnected(connections, peerHost, peerPort) then Known
      else Added(peerHost, peerPort)
  }

  /** `connect` answers True exactly when it finds or adds a connection. */
  function Answer(outcome: Outcome): bool
  {
    outcome.Known? || outcome.Added?
  }

  /**
    `connect` never registers a second connection to a peer it already holds,
    whether that peer is recognised by its address or by the address it
    announces, and never connects the node to itself.
   */
  lemma AddedOnlyWhenNew(selfHost: string, selfPort: int, connections: seq<P2PConnection>,
                         host: string, port: int, reply: Option<string>)
    requires ConnectOutcome(selfHost, selfPort, connections, host, port, reply).Added?
    ensures var outcome := ConnectOutcome(selfHost, selfPort, connections, host, port, reply);
            && !(Target(host) == selfHost && port == selfPort)
            && !AlreadyConnected(connections, Target(host), port)
            && !AlreadyConnected(connections, outcome.originalHost, outcome.originalPort)
            && reply.Some? && FromUrl(reply.value) == Some((outcome.originalHost, outcome.originalPort))
  {
  }

  /**
    Connecting again to a target `connect` has just added answers True and adds
    nothing, whatever the second handshake would have said.
   */
  lemma ConnectIsIdempotent(selfHost: string, selfPort: int, connections: seq<P2PConnection>,
                            host: string, port: int, reply: Option<string>,
                            added: P2PConnection, reply2: Option<string>)
    requires ConnectOutcome(selfHost, selfPort, connections, host, port, reply).Added?
    requires added.host == Target(host) && added.port == port
    ensures ConnectOutcome(selfHost, selfPort, connections + [added], host, port, reply2) == Known
  {
    var extended := connections + [added];
    assert Matches(extended[|connections|], Target(host), port);
  }

  /** The announcements of the connections, as `connection_urls` reads them. */
  function Urls(connections: seq<P2PConnection>): (urls: seq<string>)
    requires Announced(connections)
    ensures |urls| == |connections|
    ensures forall i :: 0 <= i < |connections| ==>
              urls[i] == ToUrl(connections[i].originalHost.value, connections[i].originalPort.value)
  {
    if connections == [] then []
    else
      var c := connections[0];
      [ToUrl(c.originalHost.value, c.originalPort.value)] + Urls(connections[1..])
  }

  /**
    Each of `connection_urls` names, in registry order, the address the peer
    announced; parsing it back gives that address when the host holds no ':'.
   */
  lemma {:induction false} UrlsRecoverAnnouncements(connections: seq<P2PConnection>)
    requires Announced(connections)
    ensures forall i :: 0 <= i < |connections| ==>
              Urls(connections)[i] == ToUrl(connections[i].originalHost.value, connections[i].originalPort.value)
    ensures forall i :: 0 <= i < |connections| && ':' !in connections[i].originalHost.value ==>
              FromUrl(Urls(connections)[i]) == Some((connections[i].originalHost.value, connections[i].originalPort.value))
  {
    if connections != [] {
      var c := connections[0];
      UrlRoundTrip(c.originalHost.value, c.originalPort.value);
      UrlsRecoverAnnouncements(connections[1..]);
      forall i | 1 <= i < |connections| ensures Urls(connections)[i] == Urls(connections[1..])[i - 1] {
      }
    }
  }

  /** The notifications `disconnect(host, port)` sends: one per matching connection, in order. */
  function DisconnectNotices(connections: seq<P2PConnection>, host: string, port: int): seq<Notification>
  {
    if connections == [] then []
    else
      var c := connections[|connections| - 1];
      DisconnectNotices(connections[..|connections| - 1], host, port)
      + (if c.host == host && c.port == port then [Notification(Disconnected, c.host, c.port)] else [])
  }

  /**
    `disconnect` reports (host, port) as Disconnected once per registered
    connection at that address, and stays silent when there is none.
   */
  lemma {:induction false} DisconnectNoticesMeaning(connections: seq<P2PConnection>, host: string, port: int)
    ensures var notices := DisconnectNotices(connections, host, port);
            && |notices| <= |connections|
            && (forall n :: n in notices ==> n == Notification(Disconnected, host, port))
            && (notices == [] <==> forall i :: 0 <= i < |connections| ==> !(connections[i].host == host && connections[i].port == port))
  {
    if connections != [] {
      var init := connections[..|connections| - 1];
      DisconnectNoticesMeaning(init, host, port);
      assert forall i :: 0 <= i < |init| ==> init[i] == connections[i];
    }
  }

  /** No connection object is registered twice. */
  ghost predicate Distinct(connections: seq<P2PConnection>)
  {
    forall i, j :: 0 <= i < j < |connections| ==> connections[i] != connections[j]
  }

  /** Every connection carries the address its peer announced. */
  predicate Announced(connections: seq<P2PConnection>)
  {
    forall i :: 0 <= i < |connections| ==> connections[i].originalHost.Some? && connections[i].originalPort.Some?
  }

  /** The index of the first connection whose `send` raises, or the number of connections. */
  function FirstRaise(data: Payload, delivered: seq<bool>): (k: nat)
    ensures k <= |delivered|
    ensures k < |delivered| ==> Raises(data, delivered[k])
    ensures forall i :: 0 <= i < k ==> !Raises(data, delivered[i])
  {
    if delivered == [] then 0
    else if Raises(data, delivered[0]) then 0
    else 1 + FirstRaise(data, delivered[1..])
  }

  // ---------------------------------------------------------------------------
  // The node object

  class P2PNode {
    var host: string
    var port: int
    var connections: seq<P2PConnection>
    var messagesSent: int
    /** `terminate_flag` */
    var terminated: bool
    /** Every call of the event handler, in order. */
    var notifications: seq<Notification>

    /**
      Every connection is a different object, and each carries the address its
      peer announced: `connect` and the accept loop both create connections
      with the parsed handshake.
     */
    ghost predicate Valid()
      reads this
    {
      Distinct(connections) && Announced(connections)
    }

    ghost function Peers(): set<P2PConnection>
      reads this
    {
      set c | c in connections
    }

    /** `P2PNode()`: listening address "0.0.0.0" port 0, no connection, nothing sent. */
    constructor ()
      ensures Valid()
      ensures host == "0.0.0.0" && port == 0 && connections == [] && messagesSent == 0
      ensures !terminated && notifications == []
    {
      host := "0.0.0.0";
      port := 0;
      connections := [];
      messagesSent := 0;
      terminated := false;
      notifications := [];
    }

    /** `init(host, port)`: the address the node listens on. */
    method Init(host: string, port: int)
      requires Valid()
      modifies this
      ensures Valid()
      ensures this.host == host && this.port == port
      ensures connections == old(connections) && messagesSent == old(messagesSent)
      ensures terminated == old(terminated) && notifications == old(notifications)
    {
      this.host := host;
      this.port := port;
    }

    /** `stop()`: set the terminate flag. */
    method Stop()
      requires Valid()
      modifies this
      ensures Valid() && terminated
      ensures host == old(host) && port == old(port) && connections == old(connections)
      ensures messagesSent == old(messagesSent) && notifications == old(notifications)
    {
      terminated := true;
    }

    /** One of the dedup loops of `connect`. */
    method IsConnected(host: string, port: int) returns (found: bool)
      ensures found == AlreadyConnected(connections, host, port)
    {
      found := false;
      var i := 0;
      while i < |connections|
        invariant 0 <= i <= |connections|
        invariant forall j :: 0 <= j < i ==> !Matches(connections[j], host, port)
      {
        if Matches(connections[i], host, port) {
          return true;
        }
        i := i + 1;
      }
    }

    /**
      `connect(host, port)`, where `reply` is the handshake the peer answered
      with (None where the socket raised). A new connection is appended, with
      the peer's announced address, and reported as Connected; otherwise
      nothing changes.
     */
    method Connect(host: string, port: int, reply: Option<string>) returns (ok: bool)
      requires Valid()
      modifies this
      ensures Valid()
      ensures var outcome := ConnectOutcome(old(this.host), old(this.port), old(connections), host, port, reply);
              && ok == Answer(outcome)
              && (!outcome.Added? ==> connections == old(connections) && notifications == old(notifications))
              && (outcome.Added? ==>
                    && |connections| == |old(connections)| + 1
                    && connections[..|old(connections)|] == old(connections)
                    && var c := connections[|connections| - 1];
                       && fresh(c) && c.host == Target(host) && c.port == port
                       && c.originalHost == Some(outcome.originalHost) && c.originalPort == Some(outcome.originalPort)
                       && !c.terminated && c.written == []
                       && notifications == old(notifications) + [Notification(Connected, Target(host), port)])
      ensures this.host == old(this.host) && this.port == old(this.port)
      ensures messagesSent == old(messagesSent) && terminated == old(terminated)
    {
      var target := host;
      if target == "0.0.0.0" {
        target := "localhost";
      }
      if target == this.host && port == this.port {
        return false;
      }
      var known := IsConnected(target, port);
      if known {
        return true;
      }
      if reply.None? {
        return false;
      }
      var peer := FromUrl(reply.value);
      if peer.None? {
        return false;
      }
      var (peerHost, peerPort) := peer.value;
      known := IsConnected(peerHost, peerPort);
      if known {
        return true;
      }
      var client := new P2PConnection(target, port, Some(peerHost), Some(peerPort));
      connections := connections + [client];
      notifications := notifications + [Notification(Connected, target, port)];
      return true;
    }

    /**
      `disconnect(host, port)`: stop every connection registered at exactly
      (host, port) and report each as Disconnected, in registry order. No
      connection is removed; the others are left as they were.
     */
    method Disconnect(host: string, port: int)
      requires Valid()
      modifies this, Peers()
      ensures Valid()
      ensures connections == old(connections)
      ensures forall i :: 0 <= i < |connections| ==>
                && connections[i].terminated == (old(connections[i].terminated) || (connections[i].host == host && connections[i].port == port))
                && connections[i].written == old(connections[i].written)
      ensures notifications == old(notifications) + DisconnectNotices(connections, host, port)
      ensures this.host == old(this.host) && this.port == old(this.port)
      ensures messagesSent == old(messagesSent) && terminated == old(terminated)
    {
      var i := 0;
      while i < |connections|
        invariant 0 <= i <= |connections|
        invariant connections == old(connections)
        invariant this.host == old(this.host) && this.port == old(this.port)
        invariant messagesSent == old(messagesSent) && terminated == old(terminated)
        invariant forall j :: 0 <= j < i ==>
                    && connections[j].terminated == (old(connections[j].terminated) || (connections[j].host == host && connections[j].port == port))
                    && connections[j].written == old(connections[j].written)
        invariant forall j :: i <= j < |connections| ==>
                    connections[j].terminated == old(connections[j].terminated) && connections[j].written == old(connections[j].written)
        invariant notifications == old(notifications) + DisconnectNotices(connections[..i], host, port)
      {
        var c := connections[i];
        assert connections[..i + 1][..i] == connections[..i];
        if c.host == host && c.port == port {
          assert forall j :: 0 <= j < |connections| && j != i ==> connections[j] != c;
          c.Stop();
          notifications := notifications + [Notification(Disconnected, c.host, c.port)];
        }
        i := i + 1;
      }
      assert connections[..i] == connections;
    }

    /**
      `broadcast(data)`, where `delivered[i]` tells whether `sendall` succeeded
      on the i-th connection: count one message sent, then send `data` to each
      connection in registry order. A bytes payload whose `sendall` fails
      raises out of the loop, so the connections after it are not sent to.
     */
    method Broadcast(data: Payload, delivered: seq<bool>) returns (raised: bool)
      requires Valid() && |delivered| == |connections|
      modifies this, Peers()
      ensures Valid()
      ensures messagesSent == old(messagesSent) + 1
      ensures raised <==> FirstRaise(data, delivered) < |delivered|
      ensures connections == old(connections)
      ensures forall i :: 0 <= i < |connections| ==>
                if i <= FirstRaise(data, delivered) then
                  && connections[i].written == WrittenAfter(old(connections[i].written), data, delivered[i])
                  && connections[i].terminated == (old(connections[i].terminated) || StopsOnFailure(data, delivered[i]))
                else
                  connections[i].written == old(connections[i].written) && connections[i].terminated == old(connections[i].terminated)
      ensures this.host == old(this.host) && this.port == old(this.port)
      ensures terminated == old(terminated) && notifications == old(notifications)
    {
      messagesSent := messagesSent + 1;
      raised := false;
      var i := 0;
      while i < |connections|
        invariant 0 <= i <= |connections| && i <= FirstRaise(data, delivered)
        invariant connections == old(connections)
        invariant messagesSent == old(messagesSent) + 1
        invariant this.host == old(this.host) && this.port == old(this.port)
        invariant terminated == old(terminated) && notifications == old(notifications)
        invariant forall j :: 0 <= j < i ==>
                    && connections[j].written == WrittenAfter(old(connections[j].written), data, delivered[j])
                    && connections[j].terminated == (old(connections[j].terminated) || StopsOnFailure(data, delivered[j]))
        invariant forall j :: i <= j < |connections| ==>
                    connections[j].written == old(connections[j].written) && connections[j].terminated == old(connections[j].terminated)
      {
        assert forall j :: 0 <= j < |connections| && j != i ==> connections[j] != connections[i];
        raised := connections[i].Send(data, delivered[i]);
        if raised {
          return;
        }
        i := i + 1;
      }
    }

    /** `connection_urls`: the announced address of each connection, in registry order. */
    function ConnectionUrls(): (urls: seq<string>)
      reads this
      requires Valid()
      ensures |urls| == |connections|
      ensures forall i :: 0 <= i < |connections| ==>
                urls[i] == ToUrl(connections[i].originalHost.value, connections[i].originalPort.value)
      ensures forall i :: 0 <= i < |connections| && ':' !in connections[i].originalHost.value ==>
                FromUrl(urls[i]) == Some((connections[i].originalHost.value, connections[i].originalPort.value))
    {
      UrlsRecoverAnnouncements(connections);
      Urls(connections)
    }
  }
}
