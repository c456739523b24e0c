# ALPN protocol selection and the read-only TCP configuration

A Dafny model of two small pieces of ServiceTalk.

1. **ALPN selection** (module `Alpn`, `alpn.dfy`). `AlpnClientAndServerTest` starts a TLS server and a TLS client. Each side is given a list of ALPN identifiers (`http/1.1`, `h2`). `toProtocolConfigs` turns each list into HTTP protocol configurations. The test then checks which protocol a connection settles on. The rule it checks is the server-side rule of section 3.2 of RFC 7301: the server picks the first identifier in its own preference order that the client also advertised. When the two share nothing, the channel is closed. The model holds:
   - `ToProtocolConfigs`, the mapping;
   - `Negotiate`, the selection;
   - `Connect`, set-up followed by the first request;
   - `Send`, what the test observes on one request;
   - `ClientExecutors`, the 16-row expectation table as data, with one lemma per row.
2. **Read-only TCP configuration** (module `TcpConfig`, `tcp_config.dfy`). `AbstractReadOnlyTcpConfig` is an immutable snapshot taken from a mutable builder. Its socket-option map is copied defensively, and a null map becomes empty. The idle timeout, flush strategy and optional wire-logger config are carried over as they are. A second constructor copies another snapshot. The snapshot is the datatype `ReadOnlyTcpConfig`, whose destructors are the four accessors. The builder is the class `TcpConfigBuilder`, with a mutable `options` field. It stands in for `AbstractTcpConfig`, which is not part of this model. `SnapshotThenSetOption` states that changing the builder later is invisible to an existing snapshot.

`wrappers.dfy` holds the `Option` and `Result` datatypes. `Option` stands for a nullable Java reference; `Result` stands for a call that may throw.

The selection routine itself lives in Netty and OpenSSL, not in the files modelled here. `Negotiate` is therefore defined by the RFC 7301 rule that the expectation table fixes, and `ClientExecutorsPass` proves that every row of the table agrees with it. The two identifier constants come from `AlpnIds`, which is not part of this model. They take the registered strings (`http/1.1` from section 6 of RFC 7301, `h2` from section 11.1 of RFC 7540). The proofs use only the fact that the two differ, except `UnknownTokenRejected`, whose concrete examples rely on the registered strings.

## Model

| member | source | states |
|---|---|---|
| Alpn.AlpnId | servicetalk-http-netty/src/test/java/io/servicetalk/http/netty/AlpnClientAndServerTest.java:158-161 | each configuration advertises one of the two accepted identifiers |
| Alpn.ToProtocolConfig | servicetalk-http-netty/src/test/java/io/servicetalk/http/netty/AlpnClientAndServerTest.java:156-164 | an identifier is accepted exactly when it is `http/1.1` or `h2`; an accepted one maps to the configuration that advertises it back (HTTP_1_1 to the HTTP/1 config, HTTP_2 to the HTTP/2 config); any other is rejected with UnsupportedProtocol naming it |
| Alpn.ToProtocolConfigs | servicetalk-http-netty/src/test/java/io/servicetalk/http/netty/AlpnClientAndServerTest.java:154-166 | the list maps successfully exactly when every identifier is accepted; the result then has the same length and element i is the configuration of identifier i; otherwise the error names the first rejected identifier, all earlier ones being accepted |
| Alpn.ToProtocolConfigsRoundTrip | servicetalk-http-netty/src/test/java/io/servicetalk/http/netty/AlpnClientAndServerTest.java:154-166 | for an accepted list, reading the configurations' identifiers back gives the input list: order and length are kept |
| Alpn.UnknownTokenRejected | servicetalk-http-netty/src/test/java/io/servicetalk/http/netty/AlpnClientAndServerTest.java:162-163 | concrete cases of the rejection path: `H2` (differing from `h2` only in case) is rejected and, being the first unknown token, names the error; a server list or a client list holding an unknown token makes setup fail with that token before negotiation (the all-inputs statement is in ConnectOutcome) |
| Alpn.Negotiate | servicetalk-http-netty/src/test/java/io/servicetalk/http/netty/AlpnClientAndServerTest.java:94-131 | None exactly when no server identifier is in the client list; otherwise the result is the server identifier at the first server position whose identifier the client also advertised |
| Alpn.NegotiatedIsCommon | servicetalk-http-netty/src/test/java/io/servicetalk/http/netty/AlpnClientAndServerTest.java:94-131 | a selected identifier is in both the server list and the client list |
| Alpn.NegotiateDependsOnClientSet | servicetalk-http-netty/src/test/java/io/servicetalk/http/netty/AlpnClientAndServerTest.java:96-126 | two client lists with the same members give the same selection for any server list |
| Alpn.NegotiateIgnoresClientOrder | servicetalk-http-netty/src/test/java/io/servicetalk/http/netty/AlpnClientAndServerTest.java:96-126 | permuting the client list never changes the selection |
| Alpn.NegotiateSingleShared | servicetalk-http-netty/src/test/java/io/servicetalk/http/netty/AlpnClientAndServerTest.java:100-112 | when exactly one identifier is shared, that identifier is selected whatever the server's order |
| Alpn.NegotiateServerPreference | servicetalk-http-netty/src/test/java/io/servicetalk/http/netty/AlpnClientAndServerTest.java:96-108 | a later server identifier is never selected while an earlier server identifier is also advertised by the client |
| Alpn.NegotiateAppend | servicetalk-http-netty/src/test/java/io/servicetalk/http/netty/AlpnClientAndServerTest.java:96-130 | selecting over a concatenated server list consults the first part and falls back to the second only when the first shares nothing |
| Alpn.ConnectOutcome | servicetalk-http-netty/src/test/java/io/servicetalk/http/netty/AlpnClientAndServerTest.java:185-192 | setting up both sides and making a request succeeds exactly when both lists hold only known identifiers, are non-empty and share an identifier; the connection then reports the version of the selected identifier. Otherwise the first problem in setup order is reported: the server list's first unknown identifier, an empty server list, the client list's first unknown identifier, an empty client list; with configurable, disjoint lists the request fails with a closed channel |
| Alpn.SingleProtocolPerConnection | servicetalk-http-netty/src/test/java/io/servicetalk/http/netty/AlpnClientAndServerTest.java:191-200 | on a connection, the response version, the service context's protocol and the request version seen by the service all equal the negotiated protocol, for two successive requests and whatever version each request was provisionally created with, and both return OK with the payload |
| Alpn.RowPassesByNegotiation | servicetalk-http-netty/src/test/java/io/servicetalk/http/netty/AlpnClientAndServerTest.java:180-218 | a row whose lists are non-empty and hold only known identifiers passes both parameterized tests when its expected protocol is the version of Negotiate's result and it expects a closed channel exactly when Negotiate finds nothing |
| Alpn.Connect | servicetalk-http-netty/src/test/java/io/servicetalk/http/netty/AlpnClientAndServerTest.java:79-85 | setUp followed by the first request (also lines 185-192); no contract of its own: ConnectOutcome states every outcome |
| Alpn.Send | servicetalk-http-netty/src/test/java/io/servicetalk/http/netty/AlpnClientAndServerTest.java:138-142 | the test service answering a request on a connection; no contract of its own: SingleProtocolPerConnection states what every request observes |
| Alpn.ExchangeAsExpected | servicetalk-http-netty/src/test/java/io/servicetalk/http/netty/AlpnClientAndServerTest.java:220-233 | the checks of assertResponseAndServiceContext as a predicate; no contract of its own: it is the property SingleProtocolPerConnection and RowPasses establish |
| Alpn.RowPasses | servicetalk-http-netty/src/test/java/io/servicetalk/http/netty/AlpnClientAndServerTest.java:180-218 | the checks testAlpnConnection and testAlpnClient make for one row, as a predicate; no contract of its own: RowPassesByNegotiation and ClientExecutorsPass establish it |
| Alpn.ClientExecutors | servicetalk-http-netty/src/test/java/io/servicetalk/http/netty/AlpnClientAndServerTest.java:94-131 | the table has sixteen rows; every row's server and client lists are non-empty and hold only the two known identifiers; a row expects an exception exactly when it expects no protocol |
| Alpn.ClientExecutorsPass | servicetalk-http-netty/src/test/java/io/servicetalk/http/netty/AlpnClientAndServerTest.java:94-131 | the table has 16 rows and every one of them holds of the model |
| Alpn.DistinctIds | servicetalk-http-netty/src/test/java/io/servicetalk/http/netty/AlpnClientAndServerTest.java:47-48 | HTTP_1_1 and HTTP_2 are distinct identifiers |
| Alpn.Row1Passes | servicetalk-http-netty/src/test/java/io/servicetalk/http/netty/AlpnClientAndServerTest.java:96-97 | row 1: server [h2, http/1.1], client [h2, http/1.1] connects with HTTP/2 |
| Alpn.Row2Passes | servicetalk-http-netty/src/test/java/io/servicetalk/http/netty/AlpnClientAndServerTest.java:98-99 | row 2: server [h2, http/1.1], client [http/1.1, h2] connects with HTTP/2 |
| Alpn.Row3Passes | servicetalk-http-netty/src/test/java/io/servicetalk/http/netty/AlpnClientAndServerTest.java:100-101 | row 3: server [h2, http/1.1], client [h2] connects with HTTP/2 |
| Alpn.Row4Passes | servicetalk-http-netty/src/test/java/io/servicetalk/http/netty/AlpnClientAndServerTest.java:102-103 | row 4: server [h2, http/1.1], client [http/1.1] connects with HTTP/1.1 |
| Alpn.Row5Passes | servicetalk-http-netty/src/test/java/io/servicetalk/http/netty/AlpnClientAndServerTest.java:105-106 | row 5: server [http/1.1, h2], client [h2, http/1.1] connects with HTTP/1.1 |
| Alpn.Row6Passes | servicetalk-http-netty/src/test/java/io/servicetalk/http/netty/AlpnClientAndServerTest.java:107-108 | row 6: server [http/1.1, h2], client [http/1.1, h2] connects with HTTP/1.1 |
| Alpn.Row7Passes | servicetalk-http-netty/src/test/java/io/servicetalk/http/netty/AlpnClientAndServerTest.java:109-110 | row 7: server [http/1.1, h2], client [h2] connects with HTTP/2 |
| Alpn.Row8Passes | servicetalk-http-netty/src/test/java/io/servicetalk/http/netty/AlpnClientAndServerTest.java:111-112 | row 8: server [http/1.1, h2], client [http/1.1] connects with HTTP/1.1 |
| Alpn.Row9Passes | servicetalk-http-netty/src/test/java/io/servicetalk/http/netty/AlpnClientAndServerTest.java:114-115 | row 9: server [h2], client [h2, http/1.1] connects with HTTP/2 |
| Alpn.Row10Passes | servicetalk-http-netty/src/test/java/io/servicetalk/http/netty/AlpnClientAndServerTest.java:116-117 | row 10: server [h2], client [http/1.1, h2] connects with HTTP/2 |
| Alpn.Row11Passes | servicetalk-http-netty/src/test/java/io/servicetalk/http/netty/AlpnClientAndServerTest.java:118-119 | row 11: server [h2], client [h2] connects with HTTP/2 |
| Alpn.Row12Passes | servicetalk-http-netty/src/test/java/io/servicetalk/http/netty/AlpnClientAndServerTest.java:120-121 | row 12: server [h2], client [http/1.1] fails with a closed channel |
| Alpn.Row13Passes | servicetalk-http-netty/src/test/java/io/servicetalk/http/netty/AlpnClientAndServerTest.java:123-124 | row 13: server [http/1.1], client [h2, http/1.1] connects with HTTP/1.1 |
| Alpn.Row14Passes | servicetalk-http-netty/src/test/java/io/servicetalk/http/netty/AlpnClientAndServerTest.java:125-126 | row 14: server [http/1.1], client [http/1.1, h2] connects with HTTP/1.1 |
| Alpn.Row15Passes | servicetalk-http-netty/src/test/java/io/servicetalk/http/netty/AlpnClientAndServerTest.java:127-128 | row 15: server [http/1.1], client [h2] fails with a closed channel |
| Alpn.Row16Passes | servicetalk-http-netty/src/test/java/io/servicetalk/http/netty/AlpnClientAndServerTest.java:129-130 | row 16: server [http/1.1], client [http/1.1] connects with HTTP/1.1 |
| TcpConfig.NonNullOptions | servicetalk-tcp-netty-internal/src/main/java/io/servicetalk/tcp/netty/internal/AbstractReadOnlyTcpConfig.java:61-63 | a null map gives the empty map; a present map gives a map with exactly its keys and, for each key, the same value |
| TcpConfig.FromBuilder | servicetalk-tcp-netty-internal/src/main/java/io/servicetalk/tcp/netty/internal/AbstractReadOnlyTcpConfig.java:46-51 | the snapshot's options hold exactly the builder's entries (none when the builder's map is null); idle timeout, flush strategy and the optional wire-logger config are the builder's, an absent logger config staying absent; the accessors at lines 71-101 return these stored values |
| TcpConfig.CopyOf | servicetalk-tcp-netty-internal/src/main/java/io/servicetalk/tcp/netty/internal/AbstractReadOnlyTcpConfig.java:53-58 | the copy equals its source in all four fields, the option map included |
| TcpConfig.SnapshotThenSetOption | servicetalk-tcp-netty-internal/src/main/java/io/servicetalk/tcp/netty/internal/AbstractReadOnlyTcpConfig.java:46-62 | after a snapshot is taken, setting an option on the builder changes only the builder's option map: a new key does not appear in the snapshot and an overwritten key keeps its old value there; a snapshot taken afterwards equals the earlier one with just that entry set |

## Left out

- TLS handshake, certificates, keys, the OpenSSL provider, `sslContext()` and `sslConfig()`: cryptography and foreign Netty types, implemented in subclasses that are not part of this model.
- Server and client start-up, listening sockets, blocking clients and `reserveConnection`: network I/O. `Connect` stands for setting up both sides and making the first request; it keeps their order (the server's list is mapped and checked first, then the client's).
- The execution-context thread pools and the blocking queues between the service handler and the test thread: concurrency and test harness. `Send` returns what the handler would have put on the queues.
- Deferred request-factory selection (the comment at lines 197-199 of the test): it is asynchronous and its implementation is not shown. The model only states that every observer of one connection sees the single negotiated protocol. `Send` does not read the request's provisional version, so "whatever version a request was created with" in SingleProtocolPerConnection holds by `Send`'s definition, not by a proof about the deferred mechanism.
- Keep-alive and connection closing after a request: the model's connection is a value, so a second request on it is a second `Send` on the same value.
- Empty protocol lists: nothing in the test uses them, and the builders' `protocols(...)` is not part of this model. The model treats an empty server or client list as a configuration error (`NoProtocolsSpecified`) raised during setup, so it never reaches negotiation. On its own, `Negotiate` returns `None` for an empty list; that follows from its contract.
- Internals of `FlushStrategy`, `UserDataLoggerConfig`, `ChannelOption` and the option values: opaque handles that are only carried.
- What the idle timeout means (zero or negative disabling it): the snapshot only stores the `long`.
- TcpConfig.CopyOf: the copy constructor shares the source's option map rather than copying it again. Maps are values in Dafny, so sharing and copying cannot be told apart; the contract states equality of all fields.
- TcpConfig.TcpConfigBuilder.SocketOption: the Java builder mutates a live `HashMap` in place, whereas the model reassigns a `map` value. Aliasing between the builder and a snapshot therefore cannot arise in the model; the snapshot-isolation property is stated over the builder's state before and after.
- `TcpConfigBuilder` keeps only the state the snapshot reads; the rest of `AbstractTcpConfig`'s API is not part of this model.
