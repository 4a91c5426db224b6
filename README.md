# JSBLEWrapper protocol core, modelled in Dafny

JSBLEWrapper is a Bluetooth Low Energy peripheral-side command channel for
ESP32 boards. It does four things:

- It derives an 8-byte device identity from the 64-bit hardware id.
- It advertises with a manufacturer-data block and a scan-response name built
  from that identity.
- It receives `"AT"` + 2-character code + value frames on a write
  characteristic. Each frame goes to a registered command handler or, failing
  that, to one generic receive callback.
- It sends frames in the same format as notifications on a second
  characteristic, and tracks connect and disconnect events. After every
  disconnect it starts advertising again.

The model has five modules:

- `Options` (options.dfy): the Option datatype, which stands in for null
  pointers and for "no frame".
- `DeviceIdentity` (identity.dfy):
  - `BuildDeviceId`, the loop that fills the 8-byte identity, proved against
    the big-endian specification `DeviceIdOf`.
  - `BytesToHex`, the loop that renders upper-case hex, proved against `Hex`.
  - The inverses of both: `BigEndian` and `ParseHex`, with round-trip lemmas.
- `Advertising` (advertising.dfy): the 13-byte manufacturer-data block, the
  advertised name `BaseName-XXXX`, and the advertisement installed on every
  (re)start.
- `CommandCodec` (codec.dfy): the `"AT"` frame encoder and decoder, with the
  round trip in both directions.
- `BleWrapper` (wrapper.dfy):
  - The class `JSBLEWrapper`. It holds the connected flag, the handler map,
    the identity array, the callbacks, and the characteristic and advertising
    state.
  - The stack's events, `OnWrite`, `OnConnect` and `OnDisconnect`, as methods
    of the class.
  - `WriteEvents`, the specification of what one received buffer causes.
  - Worked sessions that use the class as a client would.

Some effects cannot be executed in the model: notifications, advertising
stops and starts, and calls into handlers and callbacks. They are recorded in
a ghost `trace` of `Event`s. Every state-changing method states the exact
events it appends. Its frame (`modifies this`field`) says which fields it may
change, and no other field changes.

Bytes are integers 0..255, and the hardware id is an integer below 2^64. On
these unsigned values the source's `>> 8` is `/ 256`, `>> 4` is `/ 16`,
`& 0xFF` is `% 256` and `& 0xF` is `% 16`.

Every `string` (command codes, values, received buffers, names) stands for a
C++ `std::string` byte by byte: each character is one byte, so the length
checks `size() != 2` and `size() < 4` count bytes as the source's do.
Characters above 255 have no counterpart in the source.

Two notes on the code itself:

- Only the advertised-name policy in the code, base name + "-" + four hex
  digits (JSBLEWrapper.cpp:43-58), is modelled.
- The header declares the flag as `deviceConnected` (JSBLEWrapper.h:55), but
  the .cpp reads and writes `_deviceConnected`. The model has one field,
  `connected`, which starts false as the header says.

## Model

| member | source | states |
|---|---|---|
| `DeviceIdentity.Hex` | JSBLEWrapper.cpp:3-14 | the rendering of n bytes has exactly 2n characters |
| `DeviceIdentity.HexAt` | JSBLEWrapper.cpp:8-12 | byte i is rendered at characters 2i (high nibble) and 2i+1 (low nibble), in byte order |
| `DeviceIdentity.HexAlphabet` | JSBLEWrapper.cpp:5-11 | every rendered character is one of "0123456789ABCDEF" |
| `DeviceIdentity.HexDigitInTable` | JSBLEWrapper.cpp:5 | entry n of the digit table "0123456789ABCDEF" is the digit for nibble n |
| `DeviceIdentity.NibbleValue` | JSBLEWrapper.cpp:5 | a character has a value exactly when it is one of the 16 upper-case digits; that value v is in 0..15 and the table maps v back to the character |
| `DeviceIdentity.ByteOfDigits` | JSBLEWrapper.cpp:10-11 | two characters stand for a byte exactly when both are digits, and that byte renders as those two characters, high nibble first |
| `DeviceIdentity.ByteOfHexByte` | JSBLEWrapper.cpp:10-11 | the two digits rendered for any byte read back as that byte |
| `DeviceIdentity.ParseHex` | JSBLEWrapper.cpp:3-14 | inverse of the rendering: n parsed bytes come from 2n characters |
| `DeviceIdentity.HexRoundTrip` | JSBLEWrapper.cpp:3-14 | parsing the rendering of any byte string gives back the same bytes in the same order |
| `DeviceIdentity.ParseHexSound` | JSBLEWrapper.cpp:3-14 | every string the parser accepts is exactly the rendering of the bytes it returns |
| `DeviceIdentity.HexInjective` | JSBLEWrapper.cpp:3-14 | distinct byte strings never render to the same hex |
| `DeviceIdentity.BytesToHex` | JSBLEWrapper.cpp:3-14 | the appending loop produces exactly the rendering of data[0..len) |
| `DeviceIdentity.ShiftBytesDivides` | JSBLEWrapper.cpp:34 | shifting an unsigned id right by i whole bytes (`>>= 8` i times) is dividing it by 256^i |
| `DeviceIdentity.DeviceIdOf` | JSBLEWrapper.cpp:28-36 | the identity has 8 bytes; byte k is (id >> 8*(7-k)) & 0xFF |
| `DeviceIdentity.DeviceIdPrefix` | JSBLEWrapper.cpp:31-35 | the first n identity bytes, read big-endian, equal the id shifted right by 8-n bytes |
| `DeviceIdentity.DeviceIdRoundTrip` | JSBLEWrapper.cpp:28-36 | reading the 8 identity bytes big-endian gives back the 64-bit id |
| `DeviceIdentity.DeviceIdInjective` | JSBLEWrapper.cpp:28-36 | distinct hardware ids give distinct identities |
| `DeviceIdentity.BuildDeviceId` | JSBLEWrapper.cpp:28-36 | the shifting loop leaves the buffer equal to the big-endian decomposition of the id |
| `DeviceIdentity.ExampleDeviceId` | JSBLEWrapper.cpp:28-36 | id 0x0102030405060708 gives identity bytes 01 02 03 04 05 06 07 08 |
| `DeviceIdentity.HexOfCounting` | JSBLEWrapper.cpp:3-14 | the bytes 01 .. 08 render as "0102030405060708" |
| `DeviceIdentity.ExampleHex` | JSBLEWrapper.cpp:38-41 | that identity renders as "0102030405060708" |
| `Advertising.ManufacturerData` | JSBLEWrapper.cpp:71-84 | 13 bytes: company id 0xFFFF little-endian, 'J', 'S', version 1, then the 8 identity bytes |
| `Advertising.ManufacturerDataBytes` | JSBLEWrapper.cpp:73-82 | the block is FF FF 4A 53 01 followed by the identity in order |
| `Advertising.ParseManufacturerData` | JSBLEWrapper.cpp:71-84 | a scanner's inverse: an accepted block always yields an 8-byte identity |
| `Advertising.ManufacturerDataRoundTrip` | JSBLEWrapper.cpp:71-84 | a scanner recovers exactly the identity from the advertised block |
| `Advertising.ParseManufacturerDataSound` | JSBLEWrapper.cpp:71-84 | every block a scanner accepts is the block this device builds for that identity |
| `Advertising.AdvertisedName` | JSBLEWrapper.cpp:43-58 | the advertised name is 5 characters longer than the base name |
| `Advertising.AdvertisedNameSuffix` | JSBLEWrapper.cpp:43-58 | the name is base name + "-" + the last 4 characters of the identity's hex rendering |
| `Advertising.AdvertisementOf` | JSBLEWrapper.cpp:67-91 | the installed advertisement carries a block from which the identity is recovered |
| `Advertising.ExampleManufacturerData` | JSBLEWrapper.cpp:71-84 | id 0x0102030405060708 advertises FF FF 4A 53 01 01 02 03 04 05 06 07 08 |
| `CommandCodec.Encode` | JSBLEWrapper.cpp:151 | "AT"+code+value is 4+\|value\| long and decodes back to (code, value) |
| `CommandCodec.Decode` | JSBLEWrapper.cpp:211-215 | a frame exactly when the buffer has at least 4 characters and starts "AT"; its code is 2 characters |
| `CommandCodec.EncodeDecode` | JSBLEWrapper.cpp:211-215 | every accepted buffer is exactly "AT"+code+value of what it decodes to (the value is empty at length 4) |
| `CommandCodec.DecodeInjective` | JSBLEWrapper.cpp:211-215 | two accepted buffers that decode alike are equal |
| `CommandCodec.ExampleFrame` | JSBLEWrapper.cpp:151 | ("LV", "1") is sent as "ATLV1" and "ATLV1" decodes to ("LV", "1") |
| `BleWrapper.WriteInvokesAtMostOne` | JSBLEWrapper.cpp:205-222 | one received buffer causes at most one handler or callback invocation |
| `BleWrapper.MalformedWriteIgnored` | JSBLEWrapper.cpp:211-212 | a buffer shorter than 4 or not starting 'A','T' invokes nothing |
| `BleWrapper.RegisteredCodeDispatches` | JSBLEWrapper.cpp:188-196 | a frame whose code has a non-null handler runs exactly that handler with (owner, code, value) and not the receive callback |
| `BleWrapper.UnregisteredCodeFallsBack` | JSBLEWrapper.cpp:217-221 | a frame whose code is absent or registered as null runs the receive callback with (code, value) if one is set, otherwise nothing |
| `BleWrapper.JSBLEWrapper.constructor` | JSBLEWrapper.h:55-75 | identity derived from the hardware id; disconnected, no characteristics, empty registry, null callbacks, nothing broadcast |
| `BleWrapper.JSBLEWrapper.GetDeviceIdHex` | JSBLEWrapper.cpp:38-41 | 16 upper-case hex digits that render the identity and parse back to it |
| `BleWrapper.JSBLEWrapper.StartAdvertising` | JSBLEWrapper.cpp:60-94 | with an advertiser: stop, then broadcast the rebuilt advertisement; without one: nothing changes |
| `BleWrapper.JSBLEWrapper.Start` | JSBLEWrapper.cpp:96-132 | server and characteristics exist afterwards (created only the first time); advertising restarts |
| `BleWrapper.JSBLEWrapper.Stop` | JSBLEWrapper.cpp:134-143 | advertising stops if there is an advertiser, and the device is marked disconnected |
| `BleWrapper.JSBLEWrapper.SendData` | JSBLEWrapper.cpp:145-156 | notifies exactly "AT"+command+value iff connected, tx present and \|command\| = 2; otherwise nothing changes |
| `BleWrapper.JSBLEWrapper.SetOnReceiveCallback` | JSBLEWrapper.cpp:158-161 | replaces the receive callback |
| `BleWrapper.JSBLEWrapper.SetOnDisconnectedCallback` | JSBLEWrapper.cpp:163-166 | replaces the disconnect callback |
| `BleWrapper.JSBLEWrapper.RegisterCommandHandler` | JSBLEWrapper.cpp:168-176 | a 2-character code is bound to the handler, overwriting the old entry, other codes untouched; any other code leaves the map unchanged |
| `BleWrapper.JSBLEWrapper.UnregisterCommandHandler` | JSBLEWrapper.cpp:178-181 | removes only that code; no-op when absent |
| `BleWrapper.JSBLEWrapper.ClearCommandHandlers` | JSBLEWrapper.cpp:183-186 | the registry is empty afterwards |
| `BleWrapper.JSBLEWrapper.TryDispatchCommand` | JSBLEWrapper.cpp:188-196 | reports handled iff the code maps to a non-null handler, and then runs exactly that handler once with (this, code, value) |
| `BleWrapper.JSBLEWrapper.OnWrite` | JSBLEWrapper.cpp:205-222 | a received buffer causes exactly the invocations WriteEvents specifies and changes nothing else |
| `BleWrapper.JSBLEWrapper.OnConnect` | JSBLEWrapper.cpp:229-233 | the device is connected afterwards |
| `BleWrapper.JSBLEWrapper.OnDisconnect` | JSBLEWrapper.cpp:235-246 | disconnected; the disconnect callback runs once if set; then advertising restarts exactly once |
| `BleWrapper.ExampleIdentity` | JSBLEWrapper.cpp:16-41 | a device built from id 0x0102030405060708 reports "0102030405060708" |
| `BleWrapper.ExampleSend` | JSBLEWrapper.cpp:145-156 | nothing is sent before Start; after Start and a connection, ("LV","1") notifies "ATLV1" and a 3-character code sends nothing |
| `BleWrapper.ExampleReceive` | JSBLEWrapper.cpp:205-222 | "ATLV1" reaches the receive callback as ("LV","1"); after registering "LV" it runs that handler instead; after clearing the registry it reaches the callback again |
| `BleWrapper.ExampleDisconnect` | JSBLEWrapper.cpp:235-246 | with no disconnect callback, a disconnect after Start and a connection leaves the device disconnected and re-advertises exactly once |

## Left out

- NimBLE stack calls (`NimBLEDevice::init`, `setPower`, server, service and
  characteristic creation, `setCallbacks`, `service->start`, and
  advertisement `setFlags`, `addServiceUUID`, `setAdvertisementData`,
  `setScanResponseData`, `start`, `stop`): foreign library code. Their effects
  appear as abstract state instead: `serverCreated`, `txAvailable`,
  `txValue`, `broadcast`, and the events in `trace`. Whether
  `NimBLEDevice::getAdvertising()` returns an object is the constructor
  parameter `advertiserPresent`.
- `ESP.getEfuseMac()`: hardware access. The hardware id is a constructor
  parameter.
- Serial logging and `delay(10)` after a notification: output and timing
  only.
- The FreeRTOS task declarations and fields in the header: they are never
  defined, and they concern concurrency, which is not modelled. Every event
  is a sequential method call.
- Heap allocation of the two callback objects and their `_owner` null checks:
  the callbacks are methods of the wrapper object itself, so there is always
  an owner.
- Handler and callback functions: they are opaque identities (`Handler`,
  `Callback`), and a null pointer is `None`. Their invocations are recorded,
  not run, so a handler that calls back into the wrapper is not modelled.
- The tx/rx characteristic UUID strings are kept as fields but play no part
  in any behaviour. The rx characteristic's existence is folded into
  `serverCreated`.
- The disconnect reason code is accepted by `OnDisconnect` and ignored, as in
  the source.
- Strings are not restricted to characters 0..255: a character above 255
  stands for no single byte of a `std::string`, and the model's length checks
  agree with the source's only on strings whose every character is a byte.
