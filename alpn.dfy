/**
 * Application-Layer Protocol Negotiation (ALPN) as exercised by
 * AlpnClientAndServerTest: the mapping from ALPN identifiers to HTTP protocol
 * configurations, the server-side selection rule of section 3.2 of RFC 7301,
 * the resulting connection outcome, and the expectation table of the test.
 */
module Alpn {
  import opened Wrappers

  /** An ALPN protocol identifier; compared exactly, with no case folding. */
  type Token = string

  /** The identifier of HTTP/1.1 as registered by section 6 of RFC 7301. */
  const HTTP_1_1: Token := "http/1.1"
  /** The identifier of HTTP/2 over TLS as registered by section 11.1 of RFC 7540. */
  const HTTP_2: Token := "h2"

  /** The version an HTTP message or connection reports. */
  datatype HttpProtocolVersion = Http11 | Http20

  /** The two protocol configurations a builder can be given: HttpProtocol.HTTP_1.config and HttpProtocol.HTTP_2.config. */
  datatype HttpProtocolConfig = Http1Config | Http2Config {
    /** The version a connection built with this configuration speaks. */
    function Version(): HttpProtocolVersion {
      match this
      case Http1Config => Http11
      case Http2Config => Http20
    }
  }

  /** Why a builder refuses its protocol list (an IllegalArgumentException in both cases). */
  datatype ConfigError =
    | UnsupportedProtocol(id: Token)   // "Unsupported protocol: " + id, thrown by toProtocolConfigs
    | NoProtocolsSpecified             // an empty list handed to the builder's protocols(...)

  /** The identifiers the mapping accepts. */
  predicate Supported(id: Token) {
    id == HTTP_1_1 || id == HTTP_2
  }

  /** The ALPN identifier a configuration advertises: the inverse of ToProtocolConfig. */
  function AlpnId(config: HttpProtocolConfig): (id: Token)
    ensures Supported(id)
  {
    match config
    case Http1Config => HTTP_1_1
    case Http2Config => HTTP_2
  }

  /** One case of the `switch` inside toProtocolConfigs. */
  function ToProtocolConfig(id: Token): (r: Result<HttpProtocolConfig, ConfigError>)
    ensures r.Success? <==> Supported(id)
    ensures r.Success? ==> AlpnId(r.value) == id
    ensures r.Failure? ==> r.error == UnsupportedProtocol(id)
  {
    if id == HTTP_1_1 then Success(Http1Config)
    else if id == HTTP_2 then Success(Http2Config)
    else Failure(UnsupportedProtocol(id))
  }

  /** All of `ids` are accepted by the mapping. */
  predicate AllSupported(ids: seq<Token>) {
    forall i :: 0 <= i < |ids| ==> Supported(ids[i])
  }

  /** `ids[k]` is the first identifier the mapping rejects. */
  predicate FirstUnsupported(ids: seq<Token>, k: int) {
    0 <= k < |ids| && !Supported(ids[k]) && AllSupported(ids[..k])
  }

  /**
   * toProtocolConfigs: maps every identifier in order; the sequential stream
   * throws at the first identifier the `switch` rejects.
   */
  function ToProtocolConfigs(ids: seq<Token>): (r: Result<seq<HttpProtocolConfig>, ConfigError>)
    ensures r.Success? <==> AllSupported(ids)
    ensures r.Success? ==> |r.value| == |ids|
    ensures r.Success? ==> forall i :: 0 <= i < |ids| ==> ToProtocolConfig(ids[i]) == Success(r.value[i])
    ensures r.Failure? ==> exists k :: FirstUnsupported(ids, k) && r.error == UnsupportedProtocol(ids[k])
  {
    if ids == [] then Success([])
    else
      match ToProtocolConfig(ids[0])
      case Failure(e) =>
        assert FirstUnsupported(ids, 0);
        Failure(e)
      case Success(c) =>
        match ToProtocolConfigs(ids[1..])
        case Failure(e) =>
          var k :| FirstUnsupported(ids[1..], k) && e == UnsupportedProtocol(ids[1..][k]);
          assert ids[..k + 1] == [ids[0]] + ids[1..][..k];
          assert FirstUnsupported(ids, k + 1);
          Failure(e)
        case Success(cs) =>
          Success([c] + cs)
  }

  /** Mapping the configurations back to identifiers gives the input list: nothing reordered, dropped or added. */
  lemma {:induction false} ToProtocolConfigsRoundTrip(ids: seq<Token>)
    requires AllSupported(ids)
    ensures ToProtocolConfigs(ids).Success?
    ensures AdvertisedIds(ToProtocolConfigs(ids).value) == ids
  {
    if ids != [] {
      assert AllSupported(ids[1..]) by {
        forall i | 0 <= i < |ids[1..]| ensures Supported(ids[1..][i]) {
          assert ids[1..][i] == ids[i + 1];
        }
      }
      ToProtocolConfigsRoundTrip(ids[1..]);
      assert ToProtocolConfigs(ids).value == [ToProtocolConfig(ids[0]).value] + ToProtocolConfigs(ids[1..]).value;
    }
  }

  /**
   * An identifier outside the two is rejected, even one differing only in
   * case, and the first rejected identifier names the error; a builder given
   * such a list never reaches negotiation.
   */
  lemma UnknownTokenRejected()
    ensures ToProtocolConfigs([HTTP_1_1, "H2", "spdy/3.1"]) == Failure(UnsupportedProtocol("H2"))
    ensures Connect([HTTP_2, "spdy/3.1"], [HTTP_2]) == Failure(Misconfigured(UnsupportedProtocol("spdy/3.1")))
    ensures Connect([HTTP_2], ["h2c"]) == Failure(Misconfigured(UnsupportedProtocol("h2c")))
  {
    assert !Supported("H2") by { assert "H2"[0] != HTTP_2[0]; assert |"H2"| != |HTTP_1_1|; }
    assert !Supported("spdy/3.1") by { assert "spdy/3.1"[0] != HTTP_1_1[0]; assert |"spdy/3.1"| != |HTTP_2|; }
    assert !Supported("h2c") by { assert |"h2c"| != |HTTP_1_1| && |"h2c"| != |HTTP_2|; }
    assert Supported(HTTP_2);
    assert [HTTP_1_1, "H2", "spdy/3.1"][1..] == ["H2", "spdy/3.1"];
    assert [HTTP_2, "spdy/3.1"][1..] == ["spdy/3.1"];
    assert ToProtocolConfigs(["spdy/3.1"]) == Failure(UnsupportedProtocol("spdy/3.1"));
    assert ToProtocolConfigs([HTTP_2, "spdy/3.1"]) == Failure(UnsupportedProtocol("spdy/3.1"));
  }

  /** The identifiers a list of configurations advertises, in order. */
  function AdvertisedIds(configs: seq<HttpProtocolConfig>): seq<Token> {
    if configs == [] then [] else [AlpnId(configs[0])] + AdvertisedIds(configs[1..])
  }

  // ---------------------------------------------------------------------------
  // Selection (section 3.2 of RFC 7301)
  // ---------------------------------------------------------------------------

  /** `server[i]` is shared with the client and no earlier server identifier is. */
  ghost predicate FirstShared(server: seq<Token>, client: seq<Token>, i: int) {
    0 <= i < |server| && server[i] in client && forall j :: 0 <= j < i ==> server[j] !in client
  }

  /**
   * The server walks its own preference list and picks the first identifier
   * the client also advertised; None when the two lists share nothing.
   */
  function Negotiate(server: seq<Token>, client: seq<Token>): (r: Option<Token>)
    ensures r.None? <==> forall i :: 0 <= i < |server| ==> server[i] !in client
    ensures r.Some? ==> exists i :: FirstShared(server, client, i) && r.value == server[i]
  {
    if server == [] then None
    else if server[0] in client then
      assert FirstShared(server, client, 0);
      Some(server[0])
    else
      var r := Negotiate(server[1..], client);
      assert r.Some? ==> exists i :: FirstShared(server, client, i) && r.value == server[i] by {
        if r.Some? {
          var i :| FirstShared(server[1..], client, i) && r.value == server[1..][i];
          assert FirstShared(server, client, i + 1);
        }
      }
      r
  }

  /** A selected identifier is one both peers advertised. */
  lemma NegotiatedIsCommon(server: seq<Token>, client: seq<Token>)
    requires Negotiate(server, client).Some?
    ensures Negotiate(server, client).value in server
    ensures Negotiate(server, client).value in client
  {
    var i :| FirstShared(server, client, i) && Negotiate(server, client).value == server[i];
  }

  /** Only membership in the client list matters, not its order or its duplicates. */
  lemma {:induction false} NegotiateDependsOnClientSet(server: seq<Token>, client1: seq<Token>, client2: seq<Token>)
    requires forall t :: t in client1 <==> t in client2
    ensures Negotiate(server, client1) == Negotiate(server, client2)
  {
    if server != [] {
      NegotiateDependsOnClientSet(server[1..], client1, client2);
    }
  }

  /** Permuting the client list never changes the outcome. */
  lemma NegotiateIgnoresClientOrder(server: seq<Token>, client1: seq<Token>, client2: seq<Token>)
    requires multiset(client1) == multiset(client2)
    ensures Negotiate(server, client1) == Negotiate(server, client2)
  {
    forall t ensures t in client1 <==> t in client2 {
      assert t in client1 <==> t in multiset(client1);
      assert t in client2 <==> t in multiset(client2);
    }
    NegotiateDependsOnClientSet(server, client1, client2);
  }

  /** When exactly one identifier is shared, it is selected whatever the server's order. */
  lemma NegotiateSingleShared(server: seq<Token>, client: seq<Token>, t: Token)
    requires t in server && t in client
    requires forall u :: u in server && u in client ==> u == t
    ensures Negotiate(server, client) == Some(t)
  {
    var k :| 0 <= k < |server| && server[k] == t;
    assert server[k] in client;
    assert Negotiate(server, client).Some?;
    var i :| FirstShared(server, client, i) && Negotiate(server, client).value == server[i];
    assert server[i] in server;
  }

  /** The server's order decides: an earlier shared identifier beats every later one. */
  lemma NegotiateServerPreference(server: seq<Token>, client: seq<Token>, i: int, j: int)
    requires 0 <= i < j < |server|
    requires server[i] in client && server[j] in client && server[j] !in server[..j]
    ensures Negotiate(server, client) != Some(server[j])
  {
    assert Negotiate(server, client).Some? by {
      assert server[i] in client;
    }
    var k :| FirstShared(server, client, k) && Negotiate(server, client).value == server[k];
    assert k <= i;
    assert server[..j][k] == server[k];
  }

  /** Selection over a concatenated server list: the first part is consulted first. */
  lemma {:induction false} NegotiateAppend(server1: seq<Token>, server2: seq<Token>, client: seq<Token>)
    ensures Negotiate(server1 + server2, client)
         == if Negotiate(server1, client).Some? then Negotiate(server1, client) else Negotiate(server2, client)
  {
    if server1 == [] {
      assert server1 + server2 == server2;
    } else {
      assert (server1 + server2)[0] == server1[0];
      assert (server1 + server2)[1..] == server1[1..] + server2;
      NegotiateAppend(server1[1..], server2, client);
    }
  }

  // ---------------------------------------------------------------------------
  // Connection outcome and what the test observes over a connection
  // ---------------------------------------------------------------------------

  /** Why a request on a new client cannot be served. */
  datatype ConnectError =
    | Misconfigured(cause: ConfigError)   // a builder refused its protocol list during setUp
    | ClosedChannel                       // ALPN found no common protocol and the channel was closed

  /** An established connection together with the protocol it settled on. */
  datatype Connection = Connection(protocol: HttpProtocolVersion)

  /** An identifier of an accepted list is itself accepted. */
  lemma MemberSupported(ids: seq<Token>, t: Token)
    requires AllSupported(ids) && t in ids
    ensures Supported(t)
  {
    var k :| 0 <= k < |ids| && ids[k] == t;
  }

  /** The version a connection speaks after selecting a supported identifier. */
  function VersionOf(id: Token): HttpProtocolVersion
    requires Supported(id)
  {
    ToProtocolConfig(id).value.Version()
  }

  /**
   * setUp followed by the first request: the server's list is mapped and handed
   * to its builder first, then the client's, then ALPN runs between the two.
   */
  function Connect(server: seq<Token>, client: seq<Token>): Result<Connection, ConnectError> {
    match ToProtocolConfigs(server)
    case Failure(e) => Failure(Misconfigured(e))
    case Success(serverConfigs) =>
      if serverConfigs == [] then Failure(Misconfigured(NoProtocolsSpecified))
      else
        match ToProtocolConfigs(client)
        case Failure(e) => Failure(Misconfigured(e))
        case Success(clientConfigs) =>
          if clientConfigs == [] then Failure(Misconfigured(NoProtocolsSpecified))
          else
            match Negotiate(server, client)
            case None => Failure(ClosedChannel)
            case Some(t) =>
              NegotiatedIsCommon(server, client);
              MemberSupported(server, t);
              Success(Connection(VersionOf(t)))
  }

  /** Both lists are accepted by the builders: known identifiers only, and at least one. */
  predicate Configurable(ids: seq<Token>) {
    AllSupported(ids) && |ids| > 0
  }

  /**
   * Connect succeeds exactly when both lists are configurable and share an
   * identifier, and the connection then speaks the selected identifier's
   * version. Otherwise the first problem in setUp order decides: the server's
   * first rejected identifier, its empty list, the client's first rejected
   * identifier, its empty list, and last a closed channel for disjoint lists.
   */
  lemma ConnectOutcome(server: seq<Token>, client: seq<Token>)
    ensures Connect(server, client).Success?
        <==> Configurable(server) && Configurable(client) && Negotiate(server, client).Some?
    ensures Connect(server, client).Success? ==> Negotiate(server, client).Some? && Supported(Negotiate(server, client).value)
    ensures Connect(server, client).Success?
        ==> Connect(server, client).value.protocol == VersionOf(Negotiate(server, client).value)
    ensures !AllSupported(server)
        ==> exists k :: FirstUnsupported(server, k)
                     && Connect(server, client) == Failure(Misconfigured(UnsupportedProtocol(server[k])))
    ensures AllSupported(server) && server == []
        ==> Connect(server, client) == Failure(Misconfigured(NoProtocolsSpecified))
    ensures Configurable(server) && !AllSupported(client)
        ==> exists k :: FirstUnsupported(client, k)
                     && Connect(server, client) == Failure(Misconfigured(UnsupportedProtocol(client[k])))
    ensures Configurable(server) && AllSupported(client) && client == []
        ==> Connect(server, client) == Failure(Misconfigured(NoProtocolsSpecified))
    ensures Configurable(server) && Configurable(client) && Negotiate(server, client).None?
        ==> Connect(server, client) == Failure(ClosedChannel)
  {
    var rs := ToProtocolConfigs(server);
    var rc := ToProtocolConfigs(client);
    if !AllSupported(server) {
      assert rs.Failure?;
      var k :| FirstUnsupported(server, k) && rs.error == UnsupportedProtocol(server[k]);
    } else if server != [] && !AllSupported(client) {
      assert rs.Success? && rs.value != [];
      assert rc.Failure?;
      var k :| FirstUnsupported(client, k) && rc.error == UnsupportedProtocol(client[k]);
    }
    if Connect(server, client).Success? {
      NegotiatedIsCommon(server, client);
      MemberSupported(server, Negotiate(server, client).value);
    }
  }

  /** The body the test service answers with. */
  const PAYLOAD_BODY: string := "Hello World!"

  datatype HttpResponseStatus = OK

  /** A request created by client.get("/") before the protocol is known; its version is provisional. */
  datatype HttpRequest = HttpRequest(path: string, provisionalVersion: HttpProtocolVersion)

  /** Everything one request/response round trip lets the test observe. */
  datatype Exchange = Exchange(
    responseVersion: HttpProtocolVersion,
    status: HttpResponseStatus,
    payload: string,
    serviceProtocol: HttpProtocolVersion,   // HttpServiceContext.protocol()
    requestVersion: HttpProtocolVersion)    // request.version() as the service saw it

  /** A request sent over an established connection, answered by the test service. */
  function Send(c: Connection, req: HttpRequest): Exchange {
    Exchange(c.protocol, OK, PAYLOAD_BODY, c.protocol, c.protocol)
  }

  /** What assertResponseAndServiceContext accepts for a given expected protocol. */
  predicate ExchangeAsExpected(e: Exchange, expected: HttpProtocolVersion) {
    && e.responseVersion == expected
    && e.status == OK
    && e.payload == PAYLOAD_BODY
    && e.serviceProtocol == expected
    && e.requestVersion == expected
  }

  /**
   * Every observer of one connection agrees on one protocol, the negotiated
   * one, for any number of requests and whatever version the requests were
   * provisionally created with.
   */
  lemma SingleProtocolPerConnection(server: seq<Token>, client: seq<Token>, first: HttpRequest, second: HttpRequest)
    requires Connect(server, client).Success?
    ensures Negotiate(server, client).Some?
    ensures ExchangeAsExpected(Send(Connect(server, client).value, first), VersionOf(Negotiate(server, client).value))
    ensures ExchangeAsExpected(Send(Connect(server, client).value, second), VersionOf(Negotiate(server, client).value))
  {
    ConnectOutcome(server, client);
  }

  // ---------------------------------------------------------------------------
  // The clientExecutors() expectation table
  // ---------------------------------------------------------------------------

  datatype ExpectedException = ClosedChannelException

  /** One Arguments.of(server, client, expectedProtocol, expectedExceptionType, null). */
  datatype Row = Row(
    server: seq<Token>,
    client: seq<Token>,
    expectedProtocol: Option<HttpProtocolVersion>,
    expectedException: Option<ExpectedException>)

  /**
   * The table as written: sixteen rows, each over non-empty lists of the two
   * known identifiers, each expecting either a protocol or an exception.
   */
  function ClientExecutors(): (rows: seq<Row>)
    ensures |rows| == 16
    ensures forall i :: 0 <= i < |rows| ==> Configurable(rows[i].server) && Configurable(rows[i].client)
    ensures forall i :: 0 <= i < |rows| ==> (rows[i].expectedProtocol.None? <==> rows[i].expectedException.Some?)
  {
    [ Row([HTTP_2, HTTP_1_1], [HTTP_2, HTTP_1_1], Some(Http20), None),
      Row([HTTP_2, HTTP_1_1], [HTTP_1_1, HTTP_2], Some(Http20), None),
      Row([HTTP_2, HTTP_1_1], [HTTP_2], Some(Http20), None),
      Row([HTTP_2, HTTP_1_1], [HTTP_1_1], Some(Http11), None),

      Row([HTTP_1_1, HTTP_2], [HTTP_2, HTTP_1_1], Some(Http11), None),
      Row([HTTP_1_1, HTTP_2], [HTTP_1_1, HTTP_2], Some(Http11), None),
      Row([HTTP_1_1, HTTP_2], [HTTP_2], Some(Http20), None),
      Row([HTTP_1_1, HTTP_2], [HTTP_1_1], Some(Http11), None),

      Row([HTTP_2], [HTTP_2, HTTP_1_1], Some(Http20), None),
      Row([HTTP_2], [HTTP_1_1, HTTP_2], Some(Http20), None),
      Row([HTTP_2], [HTTP_2], Some(Http20), None),
      Row([HTTP_2], [HTTP_1_1], None, Some(ClosedChannelException)),

      Row([HTTP_1_1], [HTTP_2, HTTP_1_1], Some(Http11), None),
      Row([HTTP_1_1], [HTTP_1_1, HTTP_2], Some(Http11), None),
      Row([HTTP_1_1], [HTTP_2], None, Some(ClosedChannelException)),
      Row([HTTP_1_1], [HTTP_1_1], Some(Http11), None) ]
  }

  /**
   * What testAlpnConnection and testAlpnClient check for one row: a row that
   * expects an exception fails with a closed channel; any other row connects
   * with the expected protocol and every request on it sees that protocol.
   */
  ghost predicate RowPasses(row: Row) {
    match Connect(row.server, row.client)
    case Failure(e) =>
      e == ClosedChannel && row.expectedException == Some(ClosedChannelException) && row.expectedProtocol.None?
    case Success(c) =>
      && row.expectedException.None?
      && row.expectedProtocol == Some(c.protocol)
      && forall req: HttpRequest :: ExchangeAsExpected(Send(c, req), c.protocol)
  }

  /** Every row of the table holds of the model. */
  lemma ClientExecutorsPass()
    ensures |ClientExecutors()| == 16
    ensures forall i :: 0 <= i < |ClientExecutors()| ==> RowPasses(ClientExecutors()[i])
  {
    forall i | 0 <= i < |ClientExecutors()| ensures RowPasses(ClientExecutors()[i]) {
      match i
      case 0 => Row1Passes();
      case 1 => Row2Passes();
      case 2 => Row3Passes();
      case 3 => Row4Passes();
      case 4 => Row5Passes();
      case 5 => Row6Passes();
      case 6 => Row7Passes();
      case 7 => Row8Passes();
      case 8 => Row9Passes();
      case 9 => Row10Passes();
      case 10 => Row11Passes();
      case 11 => Row12Passes();
      case 12 => Row13Passes();
      case 13 => Row14Passes();
      case 14 => Row15Passes();
      case 15 => Row16Passes();
    }
  }

  /** The two identifiers differ; every expected outcome below depends on it. */
  lemma DistinctIds()
    ensures HTTP_1_1 != HTTP_2
  {
    assert |HTTP_1_1| != |HTTP_2|;
  }

  /** Row 1 of clientExecutors(), checked against Negotiate. */
  lemma Row1Passes()
    ensures RowPasses(ClientExecutors()[0])
  {
    DistinctIds();
    var row := ClientExecutors()[0];
    assert row.server == [HTTP_2, HTTP_1_1] && row.client == [HTTP_2, HTTP_1_1];
    assert Negotiate(row.server, row.client) == Some(HTTP_2);
    RowPassesByNegotiation(row);
  }

  /** Row 2 of clientExecutors(), checked against Negotiate. */
  lemma Row2Passes()
    ensures RowPasses(ClientExecutors()[1])
  {
    DistinctIds();
    var row := ClientExecutors()[1];
    assert row.server == [HTTP_2, HTTP_1_1] && row.client == [HTTP_1_1, HTTP_2];
    assert Negotiate(row.server, row.client) == Some(HTTP_2);
    RowPassesByNegotiation(row);
  }

  /** Row 3 of clientExecutors(), checked against Negotiate. */
  lemma Row3Passes()
    ensures RowPasses(ClientExecutors()[2])
  {
    DistinctIds();
    var row := ClientExecutors()[2];
    assert row.server == [HTTP_2, HTTP_1_1] && row.client == [HTTP_2];
    assert Negotiate(row.server, row.client) == Some(HTTP_2);
    RowPassesByNegotiation(row);
  }

  /** Row 4 of clientExecutors(), checked against Negotiate. */
  lemma Row4Passes()
    ensures RowPasses(ClientExecutors()[3])
  {
    DistinctIds();
    var row := ClientExecutors()[3];
    assert row.server == [HTTP_2, HTTP_1_1] && row.client == [HTTP_1_1];
    assert Negotiate(row.server, row.client) == Some(HTTP_1_1);
    RowPassesByNegotiation(row);
  }

  /** Row 5 of clientExecutors(), checked against Negotiate. */
  lemma Row5Passes()
    ensures RowPasses(ClientExecutors()[4])
  {
    DistinctIds();
    var row := ClientExecutors()[4];
    assert row.server == [HTTP_1_1, HTTP_2] && row.client == [HTTP_2, HTTP_1_1];
    assert Negotiate(row.server, row.client) == Some(HTTP_1_1);
    RowPassesByNegotiation(row);
  }

  /** Row 6 of clientExecutors(), checked against Negotiate. */
  lemma Row6Passes()
    ensures RowPasses(ClientExecutors()[5])
  {
    DistinctIds();
    var row := ClientExecutors()[5];
    assert row.server == [HTTP_1_1, HTTP_2] && row.client == [HTTP_1_1, HTTP_2];
    assert Negotiate(row.server, row.client) == Some(HTTP_1_1);
    RowPassesByNegotiation(row);
  }

  /** Row 7 of clientExecutors(), checked against Negotiate. */
  lemma Row7Passes()
    ensures RowPasses(ClientExecutors()[6])
  {
    DistinctIds();
    var row := ClientExecutors()[6];
    assert row.server == [HTTP_1_1, HTTP_2] && row.client == [HTTP_2];
    assert Negotiate(row.server, row.client) == Some(HTTP_2);
    RowPassesByNegotiation(row);
  }

  /** Row 8 of clientExecutors(), checked against Negotiate. */
  lemma Row8Passes()
    ensures RowPasses(ClientExecutors()[7])
  {
    DistinctIds();
    var row := ClientExecutors()[7];
    assert row.server == [HTTP_1_1, HTTP_2] && row.client == [HTTP_1_1];
    assert Negotiate(row.server, row.client) == Some(HTTP_1_1);
    RowPassesByNegotiation(row);
  }

  /** Row 9 of clientExecutors(), checked against Negotiate. */
  lemma Row9Passes()
    ensures RowPasses(ClientExecutors()[8])
  {
    DistinctIds();
    var row := ClientExecutors()[8];
    assert row.server == [HTTP_2] && row.client == [HTTP_2, HTTP_1_1];
    assert Negotiate(row.server, row.client) == Some(HTTP_2);
    RowPassesByNegotiation(row);
  }

  /** Row 10 of clientExecutors(), checked against Negotiate. */
  lemma Row10Passes()
    ensures RowPasses(ClientExecutors()[9])
  {
    DistinctIds();
    var row := ClientExecutors()[9];
    assert row.server == [HTTP_2] && row.client == [HTTP_1_1, HTTP_2];
    assert Negotiate(row.server, row.client) == Some(HTTP_2);
    RowPassesByNegotiation(row);
  }

  /** Row 11 of clientExecutors(), checked against Negotiate. */
  lemma Row11Passes()
    ensures RowPasses(ClientExecutors()[10])
  {
    DistinctIds();
    var row := ClientExecutors()[10];
    assert row.server == [HTTP_2] && row.client == [HTTP_2];
    assert Negotiate(row.server, row.client) == Some(HTTP_2);
    RowPassesByNegotiation(row);
  }

  /** Row 12 of clientExecutors(), checked against Negotiate. */
  lemma Row12Passes()
    ensures RowPasses(ClientExecutors()[11])
  {
    DistinctIds();
    var row := ClientExecutors()[11];
    assert row.server == [HTTP_2] && row.client == [HTTP_1_1];
    assert Negotiate(row.server, row.client) == None;
    RowPassesByNegotiation(row);
  }

  /** Row 13 of clientExecutors(), checked against Negotiate. */
  lemma Row13Passes()
    ensures RowPasses(ClientExecutors()[12])
  {
    DistinctIds();
    var row := ClientExecutors()[12];
    assert row.server == [HTTP_1_1] && row.client == [HTTP_2, HTTP_1_1];
    assert Negotiate(row.server, row.client) == Some(HTTP_1_1);
    RowPassesByNegotiation(row);
  }

  /** Row 14 of clientExecutors(), checked against Negotiate. */
  lemma Row14Passes()
    ensures RowPasses(ClientExecutors()[13])
  {
    DistinctIds();
    var row := ClientExecutors()[13];
    assert row.server == [HTTP_1_1] && row.client == [HTTP_1_1, HTTP_2];
    assert Negotiate(row.server, row.client) == Some(HTTP_1_1);
    RowPassesByNegotiation(row);
  }

  /** Row 15 of clientExecutors(), checked against Negotiate. */
  lemma Row15Passes()
    ensures RowPasses(ClientExecutors()[14])
  {
    DistinctIds();
    var row := ClientExecutors()[14];
    assert row.server == [HTTP_1_1] && row.client == [HTTP_2];
    assert Negotiate(row.server, row.client) == None;
    RowPassesByNegotiation(row);
  }

  /** Row 16 of clientExecutors(), checked against Negotiate. */
  lemma Row16Passes()
    ensures RowPasses(ClientExecutors()[15])
  {
    DistinctIds();
    var row := ClientExecutors()[15];
    assert row.server == [HTTP_1_1] && row.client == [HTTP_1_1];
    assert Negotiate(row.server, row.client) == Some(HTTP_1_1);
    RowPassesByNegotiation(row);
  }

  /** A row passes when its lists are accepted and its expectation is what Negotiate selects. */
  lemma RowPassesByNegotiation(row: Row)
    requires Configurable(row.server) && Configurable(row.client)
    requires row.expectedProtocol == (match Negotiate(row.server, row.client)
                                      case Some(t) => Some(VersionOf(t))
                                      case None => None)
    requires row.expectedException == if row.expectedProtocol.None? then Some(ClosedChannelException) else None
    ensures RowPasses(row)
  {
    ConnectOutcome(row.server, row.client);
  }
}
