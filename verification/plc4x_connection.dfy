/** The connection to one PLC through the PLC4X driver manager: lazy or eager connect,
    the capability checks on read and subscribe, and the fail-safe disconnect.
    The lock and `volatile` field are modelled as atomic sequential steps. */
module Plc4x {
  import opened Common
  import opened Plc4xAddress

  /** The exceptions the connection throws. */
  datatype ConnectionError =
    | InvalidConfiguration   // "invalid connection configuration, unable to initialize"
    | ConnectFailed          // "Error connecting", wrapping a PlcConnectionException
    | CannotRead             // "connection type cannot read-blocking"
    | CannotSubscribe        // "connection type cannot subscribe"
    | CloseFailed            // whatever the driver's close() threw

  /** One tag of the adapter configuration. */
  datatype Subscription = Subscription(tagName: string)

  /** What the connection asks of the driver, in order. A read or subscription request
      lists its items as (name, query) pairs. */
  datatype DriverCall =
    | GetConnection(address: string)
    | Connect(address: string)
    | Close(address: string)
    | ReadRequest(items: seq<(string, string)>)
    | SubscriptionRequest(fields: seq<(string, string)>)
    | RegisterConsumer(field: string)

  /** The driver's `PlcConnection` as the connection sees it: the address it was opened
      for, whether it reports itself connected, and its metadata. */
  datatype Handle = Handle(address: string, connected: bool, canRead: bool, canSubscribe: bool)

  /** How the foreign driver answers one connect attempt: whether `getConnection` and
      `connect()` throw, and what the metadata of the handle it returns says. */
  datatype DriverBehaviour = DriverBehaviour(
    getConnectionFails: bool, connectFails: bool, canRead: bool, canSubscribe: bool)

  /** What a subscription request completes with. */
  datatype SubscriptionResponse = SubscriptionError | SubscriptionGranted(fieldNames: seq<string>)

  /** `initializeQueryForSubscription`: the query defaults to the tag name. */
  function InitializeQueryForSubscription(subscription: Subscription): string
  {
    subscription.tagName
  }

  /** What `initConnection` leaves behind: the handle, the driver log and its outcome. */
  datatype InitEffect = InitEffect(handle: Option<Handle>, calls: seq<DriverCall>, outcome: Outcome<ConnectionError>)

  /** `initConnection` on a connection holding `handle` whose driver log is `calls`. The
      handle is stored before `connect()` runs, so a failed `connect()` leaves a handle
      that is present but not connected. The driver log only grows, by at most the two
      connect calls; a present handle is kept; a new one is for `address`; and a normal
      return always leaves a handle. */
  function InitConnectionEffect(handle: Option<Handle>, calls: seq<DriverCall>, address: string,
                                driver: DriverBehaviour): (e: InitEffect)
    ensures |calls| <= |e.calls| <= |calls| + 2 && e.calls[..|calls|] == calls
    ensures handle.Some? ==> e.handle == handle
    ensures handle.None? && e.handle.Some? ==> e.handle.value.address == address
    ensures e.outcome.Pass? ==> e.handle.Some?
  {
    if handle.Some? then InitEffect(handle, calls, Pass)
    else if driver.getConnectionFails then
      InitEffect(None, calls + [GetConnection(address)], Fail(ConnectFailed))
    else
      InitEffect(Some(Handle(address, !driver.connectFails, driver.canRead, driver.canSubscribe)),
                 calls + [GetConnection(address), Connect(address)],
                 if driver.connectFails then Fail(ConnectFailed) else Pass)
  }

  /** With a handle present, `initConnection` asks nothing of the driver and keeps the
      handle; without one it asks for exactly one connection to `address`, and calls
      `connect()` on it once unless `getConnection` threw. */
  lemma InitConnectionIsIdempotent(handle: Option<Handle>, calls: seq<DriverCall>, address: string,
                                   driver: DriverBehaviour)
    ensures var e := InitConnectionEffect(handle, calls, address, driver);
      && (handle.Some? ==> e == InitEffect(handle, calls, Pass))
      && (handle.None? ==>
            e.calls == calls + [GetConnection(address)] + (if driver.getConnectionFails then [] else [Connect(address)]))
  {
  }

  /** A normal return leaves a handle behind; a connected handle is only ever left by a
      normal return; a PlcConnectionException surfaces as `ConnectFailed`. */
  lemma InitConnectionOutcome(handle: Option<Handle>, calls: seq<DriverCall>, address: string,
                              driver: DriverBehaviour)
    requires handle.None?
    ensures var e := InitConnectionEffect(handle, calls, address, driver);
      && (e.outcome.Pass? <==> e.handle.Some? && e.handle.value.connected)
      && (e.outcome.Fail? ==> e.outcome.error == ConnectFailed)
      && (e.outcome.Fail? <==> driver.getConnectionFails || driver.connectFails)
  {
  }

  /** Once `connect()` has failed, the unconnected handle stays stored: the next
      `initConnection` returns normally, asks the driver for nothing, and the connection
      stays unconnected. */
  lemma FailedConnectIsNotRetried(calls: seq<DriverCall>, address: string,
                                  first: DriverBehaviour, second: DriverBehaviour)
    requires !first.getConnectionFails && first.connectFails
    ensures var e1 := InitConnectionEffect(None, calls, address, first);
      var e2 := InitConnectionEffect(e1.handle, e1.calls, address, second);
      && e1.outcome == Fail(ConnectFailed)
      && e2.outcome == Pass && e2.calls == e1.calls && e2.handle == e1.handle
      && !e2.handle.value.connected
  {
  }

  class Plc4xConnection {
    /** `getProtocol()` of the concrete connection, e.g. "s7". */
    const protocol: string
    const config: AdapterConfig
    /** `HiveMQEdgeConstants.MAX_UINT16`. */
    const maxUint16: int
    /** `plcConnection`: the driver handle, null until a connect attempt stores one. */
    var plcConnection: Option<Handle>
    /** Everything asked of the driver so far. */
    var driverCalls: seq<DriverCall>

    /** The address this connection connects to. */
    function Address(): string
      requires ValidConfiguration(config, maxUint16)
    {
      ConnectionString(protocol, config)
    }

    /** `isConnected()`: the handle is present and reports itself connected. */
    function IsConnected(): bool
      reads this
    {
      plcConnection.Some? && plcConnection.value.connected
    }

    /** The part of the Java constructor after its configuration check has passed; `Create`
        models the check and its throw. */
    constructor (protocol: string, config: AdapterConfig, maxUint16: int)
      requires ValidConfiguration(config, maxUint16)
      ensures this.protocol == protocol && this.config == config && this.maxUint16 == maxUint16
      ensures plcConnection == None && driverCalls == []
    {
      this.protocol := protocol;
      this.config := config;
      this.maxUint16 := maxUint16;
      plcConnection := None;
      driverCalls := [];
    }

    /** The Java constructor: an invalid configuration throws before any driver call;
        a lazy connection starts without a handle; an eager one runs `initConnection`
        and throws what it throws. */
    static method Create(protocol: string, config: AdapterConfig, maxUint16: int, lazy: bool,
                         driver: DriverBehaviour)
      returns (r: Result<Plc4xConnection, ConnectionError>)
      ensures !ValidConfiguration(config, maxUint16) ==> r == Failure(InvalidConfiguration)
      ensures ValidConfiguration(config, maxUint16) && lazy ==>
        && r.Success? && fresh(r.value)
        && r.value.protocol == protocol && r.value.config == config && r.value.maxUint16 == maxUint16
        && r.value.plcConnection == None && r.value.driverCalls == []
      ensures ValidConfiguration(config, maxUint16) && !lazy ==>
        var e := InitConnectionEffect(None, [], ConnectionString(protocol, config), driver);
        && (e.outcome.Fail? ==> r == Failure(e.outcome.error))
        && (e.outcome.Pass? ==>
              && r.Success? && fresh(r.value)
              && r.value.protocol == protocol && r.value.config == config && r.value.maxUint16 == maxUint16
              && r.value.plcConnection == e.handle && r.value.driverCalls == e.calls)
    {
      if !ValidConfiguration(config, maxUint16) {
        return Failure(InvalidConfiguration);
      }
      var c := new Plc4xConnection(protocol, config, maxUint16);
      if !lazy {
        var init := c.InitConnection(driver);
        if init.Fail? {
          return Failure(init.error);
        }
      }
      r := Success(c);
    }

    /** `initConnection`: connect if no handle is stored yet (the double-checked null
        test under the lock is one atomic step here). */
    method InitConnection(driver: DriverBehaviour) returns (r: Outcome<ConnectionError>)
      requires ValidConfiguration(config, maxUint16)
      modifies this
      ensures InitEffect(plcConnection, driverCalls, r)
        == InitConnectionEffect(old(plcConnection), old(driverCalls), Address(), driver)
    {
      r := Pass;
      if plcConnection.None? {
        var address := Address();
        driverCalls := driverCalls + [GetConnection(address)];
        if driver.getConnectionFails {
          return Fail(ConnectFailed);
        }
        plcConnection := Some(Handle(address, false, driver.canRead, driver.canSubscribe));
        driverCalls := driverCalls + [Connect(address)];
        assert driverCalls == old(driverCalls) + [GetConnection(address), Connect(address)];
        if driver.connectFails {
          return Fail(ConnectFailed);
        }
        plcConnection := Some(Handle(address, true, driver.canRead, driver.canSubscribe));
      }
    }

    /** `disconnect`: close the handle if it is present and connected; whatever `close()`
        does, the handle is cleared afterwards. */
    method Disconnect(closeFails: bool) returns (r: Outcome<ConnectionError>)
      modifies this
      ensures plcConnection == None && !IsConnected()
      ensures var wasConnected := old(plcConnection).Some? && old(plcConnection).value.connected;
        && driverCalls == old(driverCalls) + (if wasConnected then [Close(old(plcConnection).value.address)] else [])
        && r == (if wasConnected && closeFails then Fail(CloseFailed) else Pass)
    {
      r := Pass;
      if plcConnection.Some? && plcConnection.value.connected {
        driverCalls := driverCalls + [Close(plcConnection.value.address)];
        if closeFails {
          r := Fail(CloseFailed);
        }
      }
      plcConnection := None;
    }

    /** `read`: connect if needed, refuse when the metadata says the connection cannot
        read, otherwise issue a read request with one item, keyed by the tag name, whose
        query is `initializeQueryForSubscription`. The response arrives asynchronously. */
    method Read(subscription: Subscription, driver: DriverBehaviour) returns (r: Outcome<ConnectionError>)
      requires ValidConfiguration(config, maxUint16)
      modifies this
      ensures var e := InitConnectionEffect(old(plcConnection), old(driverCalls), Address(), driver);
        && plcConnection == e.handle
        && (e.outcome.Fail? ==> r == e.outcome && driverCalls == e.calls)
        && (e.outcome.Pass? && !e.handle.value.canRead ==> r == Fail(CannotRead) && driverCalls == e.calls)
        && (e.outcome.Pass? && e.handle.value.canRead ==>
              r == Pass
              && driverCalls == e.calls + [ReadRequest([(subscription.tagName, InitializeQueryForSubscription(subscription))])])
    {
      r := InitConnection(driver);
      if r.Fail? {
        return;
      }
      if !plcConnection.value.canRead {
        return Fail(CannotRead);
      }
      var query := InitializeQueryForSubscription(subscription);
      driverCalls := driverCalls + [ReadRequest([(subscription.tagName, query)])];
    }

    /** `subscribe`: as `read`, but refused when the connection cannot subscribe, and it
        issues a change-of-state subscription for the tag. */
    method Subscribe(subscription: Subscription, driver: DriverBehaviour) returns (r: Outcome<ConnectionError>)
      requires ValidConfiguration(config, maxUint16)
      modifies this
      ensures var e := InitConnectionEffect(old(plcConnection), old(driverCalls), Address(), driver);
        && plcConnection == e.handle
        && (e.outcome.Fail? ==> r == e.outcome && driverCalls == e.calls)
        && (e.outcome.Pass? && !e.handle.value.canSubscribe ==> r == Fail(CannotSubscribe) && driverCalls == e.calls)
        && (e.outcome.Pass? && e.handle.value.canSubscribe ==>
              r == Pass
              && driverCalls == e.calls + [SubscriptionRequest([(subscription.tagName, InitializeQueryForSubscription(subscription))])])
    {
      r := InitConnection(driver);
      if r.Fail? {
        return;
      }
      if !plcConnection.value.canSubscribe {
        return Fail(CannotSubscribe);
      }
      var query := InitializeQueryForSubscription(subscription);
      driverCalls := driverCalls + [SubscriptionRequest([(subscription.tagName, query)])];
    }

    /** The completion of a subscription request: on success the consumer is registered
        with the handle of every field name of the response, in order; on error only a
        warning is logged. */
    method OnSubscriptionResponse(response: SubscriptionResponse)
      modifies this`driverCalls
      ensures response.SubscriptionError? ==> driverCalls == old(driverCalls)
      ensures response.SubscriptionGranted? ==>
        && |driverCalls| == |old(driverCalls)| + |response.fieldNames|
        && driverCalls[..|old(driverCalls)|] == old(driverCalls)
        && forall i :: 0 <= i < |response.fieldNames| ==>
             driverCalls[|old(driverCalls)| + i] == RegisterConsumer(response.fieldNames[i])
    {
      if response.SubscriptionGranted? {
        var names := response.fieldNames;
        var i := 0;
        while i < |names|
          invariant 0 <= i <= |names|
          invariant |driverCalls| == |old(driverCalls)| + i
          invariant driverCalls[..|old(driverCalls)|] == old(driverCalls)
          invariant forall j :: 0 <= j < i ==> driverCalls[|old(driverCalls)| + j] == RegisterConsumer(names[j])
        {
          driverCalls := driverCalls + [RegisterConsumer(names[i])];
          i := i + 1;
        }
      }
    }
  }
}
