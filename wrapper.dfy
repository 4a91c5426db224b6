/**
 * The device object: its identity, the command-handler registry, the two
 * optional callbacks, the connection flag, and the state the BLE stack hands
 * back (server, tx characteristic, live advertisement). The stack's events
 * (a peer connects, disconnects, writes the rx characteristic) arrive as
 * methods on the same object. What the radio does is recorded in a ghost
 * trace of events; handler and callback functions are opaque identities
 * whose invocations are recorded rather than run.
 */
module BleWrapper {
  import opened Options
  import opened DeviceIdentity
  import opened Advertising
  import opened CommandCodec

  /** A registered command-handler function, identified but not run. */
  datatype Handler = Handler(id: nat)

  /** A receive or disconnect callback function, identified but not run. */
  datatype Callback = Callback(id: nat)

  /** What the device does that a peer or the application can observe. */
  datatype Event =
    | AdvertisingStopped
    | AdvertisingStarted(ad: Advertisement)
    | Notified(payload: string)
    | HandlerInvoked(handler: Handler, owner: JSBLEWrapper, code: string, value: string)
    | ReceiveInvoked(callback: Callback, code: string, value: string)
    | DisconnectInvoked(callback: Callback)

  /** The handler a code dispatches to: None when the code is absent or registered as null. */
  function Lookup(handlers: map<string, Option<Handler>>, code: string): Option<Handler>
  {
    if code in handlers then handlers[code] else None
  }

  /**
   * What one write of `buf` to the rx characteristic causes: nothing for a
   * malformed buffer; the registered handler, called with the owner, the code
   * and the value, when the code has one; otherwise the receive callback, if set.
   */
  function WriteEvents(owner: JSBLEWrapper, handlers: map<string, Option<Handler>>,
                       onReceive: Option<Callback>, buf: string): seq<Event>
  {
    match Decode(buf)
    case None => []
    case Some(Command(code, value)) =>
      match Lookup(handlers, code)
      case Some(h) => [HandlerInvoked(h, owner, code, value)]
      case None => if onReceive.Some? then [ReceiveInvoked(onReceive.value, code, value)] else []
  }

  /** At most one invocation per write, and never both a handler and the receive callback. */
  lemma WriteInvokesAtMostOne(owner: JSBLEWrapper, handlers: map<string, Option<Handler>>,
                              onReceive: Option<Callback>, buf: string)
    ensures |WriteEvents(owner, handlers, onReceive, buf)| <= 1
  {
  }

  /** A buffer that is not a frame invokes nothing. */
  lemma MalformedWriteIgnored(owner: JSBLEWrapper, handlers: map<string, Option<Handler>>,
                              onReceive: Option<Callback>, buf: string)
    requires |buf| < 4 || buf[0] != 'A' || buf[1] != 'T'
    ensures WriteEvents(owner, handlers, onReceive, buf) == []
  {
  }

  /** A frame whose code has a handler runs exactly that handler and not the receive callback. */
  lemma RegisteredCodeDispatches(owner: JSBLEWrapper, handlers: map<string, Option<Handler>>,
                                 onReceive: Option<Callback>, code: string, value: string, h: Handler)
    requires |code| == 2 && code in handlers && handlers[code] == Some(h)
    ensures WriteEvents(owner, handlers, onReceive, Encode(code, value))
         == [HandlerInvoked(h, owner, code, value)]
  {
  }

  /** A frame whose code has no (non-null) handler goes to the receive callback, if set, and to no handler. */
  lemma UnregisteredCodeFallsBack(owner: JSBLEWrapper, handlers: map<string, Option<Handler>>,
                                  onReceive: Option<Callback>, code: string, value: string)
    requires |code| == 2 && (code !in handlers || handlers[code].None?)
    ensures WriteEvents(owner, handlers, onReceive, Encode(code, value))
         == if onReceive.Some? then [ReceiveInvoked(onReceive.value, code, value)] else []
  {
  }

  class JSBLEWrapper {
    const deviceName: string
    const serviceUuid: string
    const txUuid: string
    const rxUuid: string

    /** Whether the stack provides an advertising object at all. */
    const advertiserPresent: bool

    /** The hardware id the identity was derived from. */
    ghost const efuseMac: u64

    /** The 8-byte identity, filled once by the constructor. */
    const deviceId: array<byte>

    var connected: bool

    /** Server, service, rx characteristic and their callbacks exist (set together by Start). */
    var serverCreated: bool

    /** The notify (tx) characteristic exists. */
    var txAvailable: bool

    /** The value last set on the tx characteristic. */
    var txValue: string

    var handlers: map<string, Option<Handler>>
    var onReceive: Option<Callback>
    var onDisconnected: Option<Callback>

    /** The advertisement the radio is broadcasting, None while stopped. */
    var broadcast: Option<Advertisement>

    /** Everything observable the object has done, oldest first. */
    ghost var trace: seq<Event>

    ghost predicate Valid()
      reads this, deviceId
    {
      && deviceId.Length == 8
      && deviceId[..] == DeviceIdOf(efuseMac)
      && (forall code :: code in handlers ==> |code| == 2)
      && txAvailable == serverCreated
    }

    /** The advertisement this device broadcasts whenever advertising (re)starts. */
    ghost function OwnAdvertisement(): Advertisement
      reads this
    {
      AdvertisementOf(deviceName, serviceUuid, DeviceIdOf(efuseMac))
    }

    /** The events of one StartAdvertising: stop, then start with the rebuilt payload. */
    ghost function AdvertisingRestart(): seq<Event>
      reads this
    {
      if advertiserPresent then [AdvertisingStopped, AdvertisingStarted(OwnAdvertisement())] else []
    }

    /**
     * Derives the identity from the hardware id (the buffer starts zeroed).
     * Before Start and before any event: disconnected, no characteristics,
     * no handlers, no callbacks, nothing broadcast.
     */
    constructor (deviceName: string, serviceUuid: string, txUuid: string, rxUuid: string,
                 efuseMac: u64, advertiserPresent: bool)
      ensures Valid() && fresh(deviceId)
      ensures this.deviceName == deviceName && this.serviceUuid == serviceUuid
      ensures this.txUuid == txUuid && this.rxUuid == rxUuid
      ensures this.efuseMac == efuseMac && this.advertiserPresent == advertiserPresent
      ensures !connected && !serverCreated && !txAvailable && txValue == ""
      ensures handlers == map[] && onReceive == None && onDisconnected == None
      ensures broadcast == None && trace == []
    {
      var id := new byte[8](_ => 0);
      BuildDeviceId(id, efuseMac);
      this.deviceName := deviceName;
      this.serviceUuid := serviceUuid;
      this.txUuid := txUuid;
      this.rxUuid := rxUuid;
      this.advertiserPresent := advertiserPresent;
      this.efuseMac := efuseMac;
      this.deviceId := id;
      connected := false;
      serverCreated := false;
      txAvailable := false;
      txValue := "";
      handlers := map[];
      onReceive := None;
      onDisconnected := None;
      broadcast := None;
      trace := [];
    }

    /** The identity as 16 upper-case hex digits. */
    method GetDeviceIdHex() returns (hex: string)
      requires Valid()
      ensures hex == Hex(DeviceIdOf(efuseMac))
      ensures |hex| == 16 && forall i :: 0 <= i < 16 ==> IsHexDigit(hex[i])
      ensures ParseHex(hex) == Some(DeviceIdOf(efuseMac))
    {
      hex := BytesToHex(deviceId, 8);
      assert deviceId[..8] == deviceId[..];
      HexAlphabet(deviceId[..]);
      HexRoundTrip(deviceId[..]);
    }

    /**
     * Stops any advertisement and starts it again with the payload rebuilt
     * from the identity; does nothing when the stack has no advertiser.
     */
    method StartAdvertising()
      requires Valid()
      modifies this`broadcast, this`trace
      ensures Valid()
      ensures broadcast == if advertiserPresent then Some(OwnAdvertisement()) else old(broadcast)
      ensures trace == old(trace) + AdvertisingRestart()
    {
      if !advertiserPresent {
        return;
      }
      broadcast := None;
      trace := trace + [AdvertisingStopped];
      var ad := AdvertisementOf(deviceName, serviceUuid, deviceId[..]);
      broadcast := Some(ad);
      trace := trace + [AdvertisingStarted(ad)];
    }

    /** Creates the server and its characteristics the first time only, then (re)starts advertising. */
    method Start()
      requires Valid()
      modifies this`serverCreated, this`txAvailable, this`broadcast, this`trace
      ensures Valid()
      ensures serverCreated && txAvailable
      ensures broadcast == if advertiserPresent then Some(OwnAdvertisement()) else old(broadcast)
      ensures trace == old(trace) + AdvertisingRestart()
    {
      if !serverCreated {
        serverCreated := true;
        txAvailable := true;
      }
      StartAdvertising();
    }

    /** Stops advertising (when there is an advertiser) and marks the device disconnected. */
    method Stop()
      requires Valid()
      modifies this`connected, this`broadcast, this`trace
      ensures Valid()
      ensures !connected
      ensures broadcast == if advertiserPresent then None else old(broadcast)
      ensures trace == old(trace) + if advertiserPresent then [AdvertisingStopped] else []
    {
      if advertiserPresent {
        broadcast := None;
        trace := trace + [AdvertisingStopped];
      }
      connected := false;
    }

    /**
     * Notifies "AT" + command + value, but only while connected, with a tx
     * characteristic, and for a 2-character command; otherwise nothing happens.
     */
    method SendData(command: string, value: string)
      requires Valid()
      modifies this`txValue, this`trace
      ensures Valid()
      ensures connected && txAvailable && |command| == 2 ==>
                txValue == Encode(command, value) && trace == old(trace) + [Notified(Encode(command, value))]
      ensures !(connected && txAvailable && |command| == 2) ==>
                txValue == old(txValue) && trace == old(trace)
    {
      if !connected {
        return;
      }
      if !txAvailable {
        return;
      }
      if |command| != 2 {
        return;
      }
      var payload := Prefix + command + value;
      txValue := payload;
      trace := trace + [Notified(payload)];
    }

    method SetOnReceiveCallback(callback: Option<Callback>)
      requires Valid()
      modifies this`onReceive
      ensures Valid() && onReceive == callback
    {
      onReceive := callback;
    }

    method SetOnDisconnectedCallback(callback: Option<Callback>)
      requires Valid()
      modifies this`onDisconnected
      ensures Valid() && onDisconnected == callback
    {
      onDisconnected := callback;
    }

    /** Binds a 2-character code to a handler, replacing any earlier one; other codes are refused. */
    method RegisterCommandHandler(code: string, handler: Option<Handler>)
      requires Valid()
      modifies this`handlers
      ensures Valid()
      ensures |code| != 2 ==> handlers == old(handlers)
      ensures |code| == 2 ==> handlers == old(handlers)[code := handler]
    {
      if |code| != 2 {
        return;
      }
      handlers := handlers[code := handler];
    }

    /** Removes the binding of one code, if there is one. */
    method UnregisterCommandHandler(code: string)
      requires Valid()
      modifies this`handlers
      ensures Valid()
      ensures handlers == old(handlers) - {code}
    {
      handlers := handlers - {code};
    }

    method ClearCommandHandlers()
      requires Valid()
      modifies this`handlers
      ensures Valid() && handlers == map[]
    {
      handlers := map[];
    }

    /** Runs the handler bound to `code`, reporting whether there was one. */
    method TryDispatchCommand(code: string, value: string) returns (handled: bool)
      requires Valid()
      modifies this`trace
      ensures Valid()
      ensures handled <==> code in handlers && handlers[code].Some?
      ensures trace == old(trace) + if handled then [HandlerInvoked(handlers[code].value, this, code, value)] else []
    {
      if code !in handlers {
        return false;
      }
      var h := handlers[code];
      if h.None? {
        return false;
      }
      trace := trace + [HandlerInvoked(h.value, this, code, value)];
      return true;
    }

    /** A peer wrote `rxValue` to the rx characteristic. */
    method OnWrite(rxValue: string)
      requires Valid()
      modifies this`trace
      ensures Valid()
      ensures trace == old(trace) + WriteEvents(this, handlers, onReceive, rxValue)
    {
      if |rxValue| < 4 {
        return;
      }
      if rxValue[0] != 'A' || rxValue[1] != 'T' {
        return;
      }
      var code := rxValue[2..4];
      var value := if |rxValue| > 4 then rxValue[4..] else "";
      var handled := TryDispatchCommand(code, value);
      if handled {
        return;
      }
      if onReceive.Some? {
        trace := trace + [ReceiveInvoked(onReceive.value, code, value)];
      }
    }

    /** A peer connected. */
    method OnConnect()
      requires Valid()
      modifies this`connected
      ensures Valid() && connected
    {
      connected := true;
    }

    /**
     * A peer disconnected (the stack's reason code plays no part): mark the
     * device disconnected, call the disconnect callback if one is set, then
     * restart advertising, unconditionally and exactly once.
     */
    method OnDisconnect(reason: int)
      requires Valid()
      modifies this`connected, this`broadcast, this`trace
      ensures Valid()
      ensures !connected
      ensures broadcast == if advertiserPresent then Some(OwnAdvertisement()) else old(broadcast)
      ensures trace == old(trace)
                     + (if onDisconnected.Some? then [DisconnectInvoked(onDisconnected.value)] else [])
                     + AdvertisingRestart()
    {
      connected := false;
      if onDisconnected.Some? {
        trace := trace + [DisconnectInvoked(onDisconnected.value)];
      }
      StartAdvertising();
    }
  }

  /** The worked example: a device built with hardware id 0x0102030405060708 reports identity "0102030405060708". */
  method ExampleIdentity() returns (hex: string)
    ensures hex == "0102030405060708"
  {
    var w := new JSBLEWrapper("Dev", "svc", "tx", "rx", 0x0102030405060708, true);
    hex := w.GetDeviceIdHex();
    ExampleHex();
  }

  /**
   * The worked session, sending: "LV"/"1" sent while connected but before
   * Start emits nothing; after Start it notifies "ATLV1", while a
   * 3-character code emits nothing.
   */
  method ExampleSend(efuseMac: u64) returns (notified: string)
    ensures notified == "ATLV1"
  {
    var w := new JSBLEWrapper("Dev", "svc", "tx", "rx", efuseMac, true);
    ExampleFrame();

    w.OnConnect();
    w.SendData("LV", "1");
    assert w.trace == [];

    w.Start();
    ghost var started := w.trace;
    w.SendData("LVX", "1");
    assert w.trace == started;
    w.SendData("LV", "1");
    assert w.trace == started + [Notified("ATLV1")];
    notified := w.txValue;
  }

  /**
   * The worked session, receiving: "ATLV1" with no "LV" handler reaches the
   * receive callback as ("LV", "1"); once "LV" has a handler, the same frame
   * runs the handler instead; after ClearCommandHandlers it falls back again.
   */
  method ExampleReceive(efuseMac: u64) returns (w: JSBLEWrapper)
    ensures w.trace == [ReceiveInvoked(Callback(1), "LV", "1"),
                        HandlerInvoked(Handler(7), w, "LV", "1"),
                        ReceiveInvoked(Callback(1), "LV", "1")]
  {
    w := new JSBLEWrapper("Dev", "svc", "tx", "rx", efuseMac, true);
    ExampleFrame();
    var cb := Callback(1);
    w.SetOnReceiveCallback(Some(cb));
    UnregisteredCodeFallsBack(w, w.handlers, w.onReceive, "LV", "1");
    w.OnWrite("ATLV1");
    ghost var first := w.trace;

    var h := Handler(7);
    w.RegisterCommandHandler("LV", Some(h));
    RegisteredCodeDispatches(w, w.handlers, w.onReceive, "LV", "1", h);
    w.OnWrite("ATLV1");
    ghost var second := w.trace;
    assert second == first + [HandlerInvoked(h, w, "LV", "1")];

    w.ClearCommandHandlers();
    UnregisteredCodeFallsBack(w, w.handlers, w.onReceive, "LV", "1");
    w.OnWrite("ATLV1");
    assert w.trace == second + [ReceiveInvoked(cb, "LV", "1")];
  }

  /**
   * The worked session, disconnecting: with no callback set, a disconnect
   * after Start only re-advertises, once, and leaves the device disconnected.
   */
  method ExampleDisconnect(efuseMac: u64) returns (w: JSBLEWrapper)
    ensures !w.connected && w.broadcast == Some(w.OwnAdvertisement())
    ensures w.trace == [AdvertisingStopped, AdvertisingStarted(w.OwnAdvertisement()),
                        AdvertisingStopped, AdvertisingStarted(w.OwnAdvertisement())]
  {
    w := new JSBLEWrapper("Dev", "svc", "tx", "rx", efuseMac, true);
    w.Start();
    w.OnConnect();
    w.OnDisconnect(0);
  }
}
