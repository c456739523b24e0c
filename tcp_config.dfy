/**
 * The read-only snapshot of a TCP configuration (AbstractReadOnlyTcpConfig):
 * an immutable value taken from a mutable builder, whose socket-option map is
 * copied defensively so that later changes to the builder stay invisible.
 */
module TcpConfig {
  import opened Wrappers

  /** Java's `long`: the type of the idle timeout, copied without conversion. */
  newtype Long = x: int | -0x8000_0000_0000_0000 <= x < 0x8000_0000_0000_0000

  /** A Netty ChannelOption key, identified by its name. */
  datatype ChannelOption = ChannelOption(name: string)

  /** The Object stored for an option; only carried, never interpreted. */
  datatype OptionValue = OptionValue(handle: nat)

  /** A FlushStrategy; shared, not owned, so only its identity is kept. */
  datatype FlushStrategy = FlushStrategy(handle: nat)

  /** A UserDataLoggerConfig for wire logging; only carried. */
  datatype UserDataLoggerConfig = UserDataLoggerConfig(handle: nat)

  type Options = map<ChannelOption, OptionValue>

  /**
   * nonNullOptions: a null map becomes the empty map; any other map is copied
   * into a new unmodifiable map with exactly the same entries.
   */
  function NonNullOptions(options: Option<Options>): (r: Options)
    ensures options.None? ==> r == map[]
    ensures options.Some? ==> r.Keys == options.value.Keys
    ensures options.Some? ==> forall k :: k in r ==> r[k] == options.value[k]
  {
    match options
    case None => map[]
    case Some(m) => map k | k in m :: m[k]
  }

  /**
   * The mutable builder the snapshot is taken from. Only the state the
   * snapshot reads is kept; the option map may be absent (null).
   */
  class TcpConfigBuilder {
    var options: Option<Options>
    var idleTimeoutMs: Long
    var flushStrategy: FlushStrategy
    var wireLoggerConfig: Option<UserDataLoggerConfig>

    constructor (idleTimeoutMs: Long, flushStrategy: FlushStrategy, wireLoggerConfig: Option<UserDataLoggerConfig>)
      ensures this.options == None
      ensures this.idleTimeoutMs == idleTimeoutMs
      ensures this.flushStrategy == flushStrategy
      ensures this.wireLoggerConfig == wireLoggerConfig
    {
      this.options := None;
      this.idleTimeoutMs := idleTimeoutMs;
      this.flushStrategy := flushStrategy;
      this.wireLoggerConfig := wireLoggerConfig;
    }

    /** Sets one socket option in the builder's live map, creating the map if needed. */
    method SocketOption(key: ChannelOption, value: OptionValue)
      modifies this`options
      ensures options.Some?
      ensures options.value == NonNullOptions(old(options))[key := value]
    {
      options := Some(NonNullOptions(options)[key := value]);
    }
  }

  /** AbstractReadOnlyTcpConfig: all fields final; the datatype's destructors are its accessors. */
  datatype ReadOnlyTcpConfig = ReadOnlyTcpConfig(
    options: Options,
    idleTimeoutMs: Long,
    flushStrategy: FlushStrategy,
    wireLoggerConfig: Option<UserDataLoggerConfig>)

  /** The constructor taking a builder: options copied, the other three fields taken as they are. */
  function FromBuilder(from: TcpConfigBuilder): (r: ReadOnlyTcpConfig)
    reads from
    ensures from.options.None? ==> r.options == map[]
    ensures from.options.Some? ==> r.options.Keys == from.options.value.Keys
    ensures from.options.Some? ==> forall k :: k in r.options ==> r.options[k] == from.options.value[k]
    ensures r.idleTimeoutMs == from.idleTimeoutMs
    ensures r.flushStrategy == from.flushStrategy
    ensures r.wireLoggerConfig == from.wireLoggerConfig
  {
    ReadOnlyTcpConfig(NonNullOptions(from.options), from.idleTimeoutMs, from.flushStrategy, from.wireLoggerConfig)
  }

  /** The copy constructor: the new snapshot holds the very same four values. */
  function CopyOf(from: ReadOnlyTcpConfig): (r: ReadOnlyTcpConfig)
    ensures r == from
  {
    ReadOnlyTcpConfig(from.options, from.idleTimeoutMs, from.flushStrategy, from.wireLoggerConfig)
  }

  /**
   * Changing the builder after a snapshot was taken leaves the snapshot as it
   * was: a key added afterwards does not appear in it, and an overwritten
   * value keeps its old value there.
   */
  method SnapshotThenSetOption(b: TcpConfigBuilder, key: ChannelOption, value: OptionValue)
    returns (snapshot: ReadOnlyTcpConfig)
    modifies b`options
    ensures snapshot == old(FromBuilder(b))
    ensures b.options.Some? && key in b.options.value && b.options.value[key] == value
    ensures old(b.options).None? ==> key !in snapshot.options
    ensures old(b.options).Some? ==> snapshot.options == old(b.options.value)
    ensures FromBuilder(b) == snapshot.(options := snapshot.options[key := value])
  {
    snapshot := FromBuilder(b);
    b.SocketOption(key, value);
  }
}
