# mixpanel-micro in Dafny

A model of the core of mixpanel-micro, a small browser client for the
Mixpanel tracking API, with proofs about it. In that library:

- `track`, `identify` and `setPeople` build *payloads*. A payload is an event
  (a name and a property bag) or an engage update (a `$set` bag).
- `send` puts each payload on a module-level queue.
- `_flushQueue` drains the queue, one payload at a time.
- `_flushPayload` delivers one payload. It merges the payload with the
  identity state that `init` built and `register` changed. It serialises the
  result with a replacer that drops `null`, `undefined` and `""`. It turns
  the text into base 64 of its UTF-8 bytes and percent-encodes that into the
  `data` parameter of a GET-style URL. It offers the URL to `sendBeacon`,
  then to at most three `fetch` attempts.
- `mute` and `unmute` switch the pipeline off and on; muting can lapse
  when a drain already under way ends (see below).
- The identity state is seeded from user-agent classifiers (device, OS,
  browser) and a user-agent hash inside `makeUUID`.

Modules, one per file:

| module | file | what it holds |
|---|---|---|
| `JsValue` | js_value.dfy | JavaScript values, truthiness, property bags as ordered key lists, `String(v)` |
| `Agent` | agent.dfy | `getDevice`, `getOS`, `getBrowser` as first-match decision lists; `getReferringDomain`; `getDoNotTrack` |
| `State` | state.dfy | `register`, `hasState`, `init` |
| `Utf8`, `Base64`, `Percent` | utf8.dfy, base64.dfy, percent.dfy | the three encodings behind `base64()` and `encodeURIComponent`, each with its decoder |
| `Json`, `JsonParse` | json.dfy, json_parse.dfy | `JSON.stringify` with the library's replacer, and a JSON reader used as its inverse |
| `Send` | send.dfy | endpoints, `_assemblePayload`, the request URL, `_flushPayload`'s beacon-then-retry delivery |
| `SendVectors` | send_vectors.dfy | the request URLs the library's own tests expect, derived from the model |
| `Queue` | queue.dfy | `send`, `mute`, `unmute`, the `online`/`visibilitychange` handlers, `_flushQueue` |
| `Tracking` | tracking.dfy | `track`, `getProperty`, `identify`, `setPeople` |
| `Uuid` | uuid.dfy | the user-agent XOR fold of `makeUUID` and its hexadecimal printing |

JavaScript objects are ordered lists of `Field(key, value)`. This keeps key
order, which decides the JSON text. Assignment keeps an existing key in
place and appends a new one, which is JavaScript's order for every key that
is not an array index (see "## Left out"). Lookup finds the first match;
`NoDupKeys` says the list is a proper object. The environment is a set of parameters:
`navigator.onLine`, `sendBeacon`'s answer, each `fetch` response,
`Date.now()`, the random `$insert_id`, the page's user agent, screen,
referrer, URL and `doNotTrack`, and the identifier `makeUUID` returns.

Behaviour the model follows from the code, where a plain description of the
library could suggest otherwise:

- A payload whose delivery fails is put back at the head of the queue with
  `unshift`, and the loop goes on to retry it at once. The loop does not stop
  at the first failure. If every pass fails, the drain never ends
  (`Queue.FailuresNeverEnd`).
- `send` while muted drops the payload; it is not queued
  (`Queue.MutedIsQuiet`).
- The drain shifts the head before it checks `isOnline()`, so going offline
  mid-drain loses that payload (`Queue.OfflinePassDropsHead`).
- Without state, `_flushQueue` does nothing and leaves `task` set. No later
  trigger starts a drain until `unmute` (`Queue.NoStateWedges`).
- `unmute` clears `task` even while a drain is in flight, so a second drain
  can start beside it (`Queue.UnmuteDuringDrain`).
- The `online` and `visibilitychange` handlers do not look at `muted`. A
  drain already under way when `mute` is called clears `task` when it ends,
  so a handler can then start a new drain while still muted
  (`Queue.MutedDrainRestarts`).
- The comment above `UA()` in src/uuid.ts says it XORs groups of 8 bytes. The
  code collects 4 bytes per group, and the model follows the code.
- src/state.ts is an older revision than the one src/index.ts and src/send.ts
  import: `getBaseState`, `registeredState` and `baseToken` do not exist in
  it. The model takes the base state, the registered overrides and the base
  token as separate property bags. `register` is the shown loop, and
  `identify` applies it to the registered overrides.
- An engage payload without `$distinct_id` or `$token` carries them as
  `undefined` members, which the replacer drops.

## Model

| member | source | states |
|---|---|---|
| JsValue.Put | src/index.ts:29 | assignment sets the key, leaves every other key's value alone, keeps an existing key's position and appends a new key last (JavaScript's order for keys that are not array indices), and keeps an object free of duplicate keys |
| JsValue.Delete | src/state.ts:78 | `delete` removes the key, keeps every other key's value, adds no key and keeps keys distinct |
| JsValue.ToTextIsOne | src/agent.ts:130 | `String(v) === '1'` holds exactly for the number 1, the string "1", and a one-element array whose element prints as "1" |
| JsValue.NatToStringValue | src/send.ts:86 | the decimal text of the timestamp is all digits and reads back as the same number |
| JsValue.NatToStringInjective | src/send.ts:86 | different timestamps give different `&_=` texts |
| Agent.DecideIsFirstMatch | src/agent.ts:63-67 | running a rule list in order returns the first matching rule's name, and null exactly when no rule matches |
| Agent.DeviceDecided | src/agent.ts:3-15 | `getDevice` gives the name of the first of iPad, iPod, iPhone, Android that occurs in the agent, and null when none does |
| Agent.OSRunsRules | src/agent.ts:26-42 | `getOS` is the ordered list Windows (any case), iPhone/iPad/iPod, Android, Mac (any case), Linux, CrOS |
| Agent.OSDecided | src/agent.ts:26-42 | the OS is the first of those tests that holds, or null when none holds |
| Agent.AlternativesMatch | src/agent.ts:29 | each alternation test holds exactly when one of its keywords occurs |
| Agent.LaterBrowserRunsRules | src/agent.ts:83-99 | the browser tests from Firefox iOS on run in the listed order |
| Agent.BrowserRunsRules | src/agent.ts:68-100 | `getBrowser` is the fourteen-rule list in source order, with the Mini and Mobile variants |
| Agent.BrowserDecided | src/agent.ts:68-100 | the browser is named by the first test that holds, and is null when none holds |
| Agent.OperaFirst | src/agent.ts:69-70 | the `opera` global or " OPR/" wins over every later keyword; the result is Opera Mini exactly when "Mini" occurs |
| Agent.ChromeShadowsLaterTests | src/agent.ts:75-80 | a non-Opera, non-Edge, non-FBIOS agent with "Chrome" is Chrome, so Samsung Internet and Chrome iOS need "Chrome" absent |
| Agent.SafariAndNull | src/agent.ts:85-99 | a Safari result is Mobile Safari exactly when "Mobile" occurs; null exactly when no tested keyword occurs |
| Agent.SplitJoin | src/agent.ts:125 | `split('/')` pieces join back to the text, hold no '/', and number one more than the separators |
| Agent.ReferringDomainPresence | src/agent.ts:124-127 | a referring domain exists exactly when the referrer has at least two '/' |
| Agent.ReferringDomainLocation | src/agent.ts:124-127 | the domain found is the text between the second '/' and the next '/' or the end |
| Agent.ThirdPieceIsDomain | src/agent.ts:124-127 | conversely, that text is always the domain found |
| Agent.GetDoNotTrack | src/agent.ts:129-131 | the flag is true exactly for the navigator values whose text is "1" |
| Agent.DeviceExamples | src/__tests__/agent.test.ts:11-19 | the device test vectors |
| Agent.OSExamples | src/__tests__/agent.test.ts:21-33 | the operating-system test vectors |
| Agent.BrowserExamples | src/__tests__/agent.test.ts:35-60 | the browser test vectors, with no `opera` global |
| Agent.ReferrerExamples | src/__tests__/agent.test.ts:62-78 | "https://google.com/test" gives "google.com"; "blob:" gives null |
| Agent.DoNotTrackExamples | src/__tests__/agent.test.ts:80-100 | `undefined` and 0 give false, 1 gives true |
| State.Register | src/state.ts:73-81 | `register` keeps an object free of duplicate keys |
| State.RegisterGet | src/state.ts:73-81 | after `register`, a key of `data` holds its new value when truthy and is gone when falsy; every other key is untouched |
| State.RegisterOne | src/state.ts:75-79 | registering one truthy value reads back; registering a falsy one deletes the key |
| State.Derive | src/state.ts:40-56 | the classifier members are strings or null and `doNotTrack` is a boolean |
| State.InitKeysDistinct | src/state.ts:41-57 | the fifteen members `init` writes have distinct keys |
| State.InitialState | src/state.ts:41-57 | the state object is a proper object with exactly the fifteen keys in order; `token` is the argument, `distinct_id` and `$device_id` are the same identifier, `mp_lib` is "mixpanel-lite" |
| State.Init | src/state.ts:37-58 | after `init` there is state |
| State.InitEstablishesState | src/state.ts:60-62 | `hasState` is false before `init` and true after it, whatever came before |
| Utf8.EncodeChar | src/send.ts:20 | a character encodes to one to four bytes, one exactly for ASCII |
| Utf8.DecodeEncode | src/send.ts:20 | decoding the UTF-8 bytes of a text gives the text back |
| Utf8.EncodeAscii | src/send.ts:20 | an ASCII text encodes to its own character codes |
| Base64.DecodeEncode | src/send.ts:19-21 | decoding the base 64 text gives the bytes back |
| Base64.EncodeShape | src/send.ts:19-21 | the text has four characters per started group of three bytes, all from the alphabet except a final `=` padding of at most two |
| Percent.DecodeEncode | src/send.ts:86 | `decodeURIComponent` undoes `encodeURIComponent` |
| Percent.EncodeBytesAlphabet | src/send.ts:86 | the encoded text holds only unescaped characters and `%` |
| Json.Serialize | src/send.ts:33-35 | a value has JSON text exactly when the replacer keeps it: not `null`, `undefined` or `""` |
| Json.CleanHasNoOmittedMembers | src/send.ts:33-35 | what survives serialization has no `null`, `undefined` or `""` member anywhere |
| Json.CleanKeepsKept | src/send.ts:33-35 | a kept value stays kept once cleaned |
| JsonParse.ParseSerialized | src/send.ts:82 | the JSON text of a kept value reads back as its cleaned form, leaving what follows |
| JsonParse.ParseStringify | src/send.ts:82 | `JSON.parse` of `JSON.stringify(v, replacer)` is `v` with every removed member dropped and every removed array element `null` |
| Send.ToValue | src/send.ts:37-48 | a payload is an object the replacer keeps |
| Send.HasSetKey | src/send.ts:55 | `'$set' in data` holds exactly for engage payloads |
| Send.EndpointsDiffer | src/send.ts:14-17 | the two endpoints differ whatever the base |
| Send.SetBaseUrlInjective | src/send.ts:14-17 | different bases give different endpoints: the base is recoverable from the endpoints |
| Send.DefaultIsApiBase | src/send.ts:11-12 | the default endpoints are those of the base `https://api.mixpanel.com` |
| Send.Overlay | src/send.ts:65-69 | overlaying a layer keeps an object free of duplicate keys |
| Send.OverlayGet | src/send.ts:65-69 | after the overlay a key holds the layer's value when it is neither `null` nor `undefined`, and its old value otherwise |
| Send.Assemble | src/send.ts:54-77 | assembly keeps the payload kind and name; an engage payload keeps its `$set` bag and takes `$distinct_id` from the base and `$token` from the token |
| Send.AssemblePrecedence | src/send.ts:63-69 | for every key but `token`, the event's non-null value wins over the registered one, which wins over the base one |
| Send.AssembleToken | src/send.ts:71 | `properties.token` is the base token or `undefined`, whatever the layers hold |
| Send.EngageIgnoresRegistered | src/send.ts:55-61 | an engage payload does not depend on the registered overrides or its own `$token`/`$distinct_id` |
| Send.AssembleNoDup | src/send.ts:63-71 | an assembled event has no duplicate key when the base has none |
| Send.DataParamHasNoAmpersand | src/send.ts:84-86 | the `data` parameter holds no `&` |
| Send.DataOfRequestUrl | src/send.ts:84-86 | a reader that strips the endpoint and query head and stops at the next `&` finds exactly the `data` parameter |
| Send.ReadDataParam | src/send.ts:82 | percent-decoding, base 64 decoding, UTF-8 decoding and JSON parsing of `data` give back the assembled payload, cleaned |
| Send.RequestUrlRoundTrip | src/send.ts:79-86 | the request URL goes to the payload's endpoint and its `data` parameter decodes to the assembled payload, cleaned |
| Send.RequestUrlEndsWithStamp | src/send.ts:84-86 | the URL ends with `&_=` and the timestamp |
| Send.FlushPayload | src/send.ts:88-110 | delivered exactly when the beacon accepts or a fetch below 500 comes within three attempts made while online; no fetch after the beacon accepts; on failure, three attempts or the network went offline |
| Send.RetryMeetsContract | src/send.ts:90-107 | the retry loop as a recursive function meets that contract from any attempt on |
| Send.DeliverMeetsContract | src/send.ts:88-110 | the delivery function meets it from the start |
| Send.BeaconExample | src/__tests__/send.test.ts:25-42 | an accepting beacon delivers with no fetch |
| Send.RetryExample | src/__tests__/send.test.ts:44-71 | a 500 then a 200 delivers on the second fetch |
| Send.ExhaustedExample | src/__tests__/send.test.ts:73-87 | three 500s fail after three fetches |
| Send.OfflineExample | src/send.ts:90 | offline before the first attempt, nothing is fetched and delivery fails |
| SendVectors.EventText | src/__tests__/send.test.ts:26-29 | the empty event serializes as `{"event":"event","properties":{}}`, its `undefined` token dropped |
| SendVectors.EventUrl | src/__tests__/send.test.ts:37-39 | the empty event's request URL is the one the test expects |
| SendVectors.EngageText | src/__tests__/send.test.ts:92-94 | `{ $set: { test: 'test' } }` serializes as `{"$set":{"test":"test"}}` |
| SendVectors.EngageUrl | src/__tests__/send.test.ts:97-99 | that engage payload's request URL is the one the test expects |
| Queue.Unmute | src/send.ts:171-175 | unmuting clears `muted`, keeps the queue and starts a drain exactly when online |
| Queue.DrainLoop | src/send.ts:116-117 | the drain only ever removes payloads from the front of the queue |
| Queue.FlushQueue | src/send.ts:113-124 | without state nothing happens; with state the queue is what the drain leaves |
| Queue.FailedPassKeepsQueue | src/send.ts:117 | a failed delivery leaves the queue as it was |
| Queue.DeliveredPassRemovesHead | src/send.ts:116-117 | a delivered payload leaves the queue |
| Queue.OfflinePassDropsHead | src/send.ts:116 | going offline ends the loop and loses the shifted payload |
| Queue.FailuresNeverEnd | src/send.ts:116-117 | while every delivery fails the loop keeps the queue and does not end |
| Queue.DrainRemovesDelivered | src/send.ts:116-117 | the drain removes exactly the delivered payloads, plus one when it ends offline, from the front |
| Queue.SingleFlight | src/send.ts:128 | while a drain is marked, neither `send`, the handlers nor the teardown start another |
| Queue.StartingSetsTask | src/send.ts:155-156 | every transition that starts a drain marks it |
| Queue.SendKeepsOrder | src/send.ts:152-153 | two unmuted `send` calls append their payloads behind the queue in call order, whatever the network and the drain flag |
| Queue.MutedIsQuiet | src/send.ts:152 | after `mute`, `send` and both handlers change nothing and start nothing |
| Queue.MutedDrainRestarts | src/send.ts:113-132 | a drain that ends after `mute` clears `task` but leaves `muted` set, and the `online` handler then starts a new drain while muted |
| Queue.NoStateWedges | src/send.ts:114-118 | without state `task` stays set, so a later `send` starts nothing |
| Queue.UnmuteDuringDrain | src/send.ts:171-175 | `unmute` during a drain lets a second drain start |
| Queue.EndedDrainClearsTask | src/send.ts:118-122 | an ended drain clears `task` and schedules a later `send` exactly when payloads remain |
| Tracking.GetPropertyAfterRegister | src/index.ts:21-23 | registering a truthy value makes `getProperty` return it; a falsy one uncovers the base value |
| Tracking.CopyTruthy | src/index.ts:28-30 | the copy keeps an object free of duplicate keys |
| Tracking.CopyTruthyGet | src/index.ts:28-30 | after the copy every key of `data` holds its value when truthy and `null` otherwise (except keys naming `Object.prototype` members, see "## Left out"); no other key changes |
| Tracking.TrackProps | src/index.ts:32 | `$insert_id` is always the fresh identifier |
| Tracking.TrackPropsGet | src/index.ts:26-32 | `track` keeps every key of `data` (falsy values as `null`, except keys naming `Object.prototype` members, see "## Left out"), adds only `$insert_id`, and overrides a caller's `$insert_id` |
| Tracking.TrackPropsEmpty | src/index.ts:26-32 | without data, `$insert_id` is the only property |
| Tracking.Track | src/index.ts:25-34 | unmuted, one event with the name and properties is appended; muted, nothing changes |
| Tracking.TrackEnqueuesOne | src/index.ts:33 | the queue grows by one event with the given name, behind the old queue |
| Tracking.IdentifyRegisters | src/index.ts:36-42 | a non-empty id becomes `distinct_id` and `$user_id` and what `getProperty` reads; an empty one deletes them; `$anon_distinct_id` is the previous base id when truthy and absent otherwise |
| Tracking.IdentifyEvent | src/index.ts:43 | the `$identify` event carries only `$insert_id` |
| Tracking.SetPeople | src/index.ts:46-48 | unmuted, one engage payload with the data is appended |
| Tracking.SetPeopleSerializes | src/index.ts:46-48 | that payload serializes exactly as the object `{ $set: data }` |
| Uuid.CodeUnits | src/uuid.ts:33 | `charCodeAt` gives at least one code unit per character |
| Uuid.SpreadReversed | src/uuid.ts:24-28 | `xor`'s `tmp` over a buffer built with `unshift` is the group packed first-byte-most-significant |
| Uuid.HashBytes | src/uuid.ts:32-43 | the buffer loop and the final partial buffer compute the fold of the bytes in groups of four |
| Uuid.UserAgentHash | src/uuid.ts:20-43 | `UA()`'s 32-bit value is the fold of the low bytes of the agent's code units |
| Uuid.FoldSplits | src/uuid.ts:32-39 | a prefix of whole groups contributes its own fold, XORed with the rest |
| Uuid.LowBytesOnly | src/uuid.ts:34 | only the low byte of each code unit matters |
| Uuid.EmptyHash | src/uuid.ts:41-45 | the empty agent hashes to 0 |
| Uuid.FourLetterHash | src/uuid.ts:32-39 | "abcd" hashes to 0x61626364: the first byte is most significant |
| Uuid.Int32 | src/uuid.ts:26-27 | the signed value of a 32-bit result agrees with it modulo 2^32 and is negative exactly when the top bit is set |
| Uuid.HexTextRoundTrip | src/uuid.ts:45 | `toString(16)` digits read back as the number, with no leading zero |
| Uuid.UserAgentEntropy | src/uuid.ts:20-46 | `UA()` prints the signed hash in hexadecimal |
| Uuid.JsHexRoundTrip | src/uuid.ts:45 | the printed hash has a minus sign exactly when the top bit is set, and its digits read back as the value or its distance from 2^32 |
| Uuid.PrintNegative | src/uuid.ts:45 | a set top bit prints as a negative number |

## Left out

- `getBrowserVersion` (src/agent.ts:102-122): it ends in `parseFloat`, so its
  result is an input of `init`.
- The time (`T()`), random (`R()`) and screen segments of `makeUUID`
  (src/uuid.ts:4-14, 48-49): clocks and randomness. `init` takes the
  identifier as an input; only the `UA()` segment is modelled.
- `getState` (src/state.ts:64-71): it reads the clock and the location.
- `randomDelay`, `setTimeout` and `requestIdleCallback`: a transition returns
  the callback it schedules as an `Effect` instead of running it.
- Adding and removing the event listeners in `initSend`, and how `await`
  interleaves a drain with other calls. Each handler is a transition on the
  queue state.
- `rand16` (src/index.ts:14): `$insert_id` is a parameter.
- Non-integer numbers: `Num` holds an integer, and `String(n)` is modelled for
  integers only.
- JsValue.IntToString: prints every integer in full decimal. JavaScript prints
  magnitudes of 1e21 and more in exponent form and loses precision above
  2^53, so the model's `&_=` text and number members agree with the source
  only below those bounds.
- JsValue.Put: a new key always goes last. JavaScript lists array-index keys
  (such as "7") first, in ascending order, in object spread, `for…in` and
  `JSON.stringify`. For a property bag with such keys, the member order of
  the assembled payload, and so its JSON text and `data` parameter, differ
  from the source. The per-key values are the same.
- Tracking.CopyTruthy: `properties[key]` is read as an own property of the
  copy. In the source, `properties` is a plain `{}`, so a falsy value under a
  key naming an `Object.prototype` member (`constructor`, `toString`,
  `valueOf`, `hasOwnProperty` and the like) picks up the inherited function
  instead of `null`, and `JSON.stringify` then leaves that member out. The
  model sends it as `null`. A `__proto__` key never becomes an own key in
  the source, while the model adds it. Prototype lookup is not modelled.
- JsValue.Value: a string is a sequence of Unicode scalar values. A
  JavaScript string holding a lone surrogate cannot be represented, so the
  `\udXXX` escape `JSON.stringify` writes for one, and the code unit
  `charCodeAt` reads for one in src/uuid.ts:33, are not modelled.
- Send.FlushPayload: `sendBeacon`'s answer, `isOnline()` before each attempt
  and each `fetch` outcome are parameters. A thrown `fetch` counts as a
  failed attempt.
- Queue.DrainLoop: the passes of the drain are a finite sequence. The model
  reports a loop that has not ended when they run out, because the source
  loop need not terminate.
- Queue.FlushQueue: the state check is a boolean parameter (`hasState()`).
- JsonParse: the reader accepts no insignificant whitespace and no number
  with a fraction or exponent. It is only the partner of the serializer,
  which emits neither.
- Percent.DecodeEncode: `decodeURIComponent` is modelled for texts whose
  unescaped characters are ASCII, which covers everything
  `encodeURIComponent` emits.
