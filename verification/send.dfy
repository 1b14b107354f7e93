/** Delivery of one payload (src/send.ts): the payload is assembled from the
    base state, the registered overrides and the call's own properties,
    serialized to JSON without `null`, `undefined` and `""` members, turned
    into UTF-8, base 64 and percent-encoding, placed in the request URL, and
    handed to the Beacon API with up to three `fetch` retries as fallback.
    The environment (`navigator.sendBeacon`, `navigator.onLine`, `fetch`,
    `Date.now`) is an input. */
module Send {
  import opened JsValue
  import Utf8
  import Base64
  import Percent
  import Json
  import JsonParse

  // ---------------------------------------------------------------------
  // Payloads

  /** `EventPayload` or `EngagePayload`. An engage payload is recognised by
      its `$set` key; its `$token` and `$distinct_id` are `Undefined` when the
      object has no such member. */
  datatype Payload =
    | Event(name: string, props: Props)
    | Engage(people: Props, token: Value, distinctId: Value)

  /** The payload as the JavaScript object `JSON.stringify` sees, with the
      members in the order the code creates them. */
  function ToValue(p: Payload): (v: Value)
    ensures v.Obj? && !Json.Omitted(v)
  {
    match p
    case Event(name, props) =>
      Obj([Field("event", Str(name)), Field("properties", Obj(props))])
    case Engage(people, token, distinctId) =>
      Obj([Field("$set", Obj(people)), Field("$distinct_id", distinctId), Field("$token", token)])
  }

  /** `'$set' in data`: only the engage object has the key. */
  lemma HasSetKey(p: Payload)
    ensures "$set" in Keys(ToValue(p).fields) <==> p.Engage?
  {
    var fs := ToValue(p).fields;
    assert Keys(fs) == [fs[0].key] + Keys(fs[1..]);
    assert Keys(fs[1..]) == [fs[1].key] + Keys(fs[2..]);
    if p.Engage? {
      assert Keys(fs[2..]) == [fs[2].key];
    } else {
      assert Keys(fs[2..]) == [];
    }
  }

  // ---------------------------------------------------------------------
  // Endpoints

  datatype Endpoints = Endpoints(tracking: string, engage: string)

  const DefaultEndpoints := Endpoints("https://api.mixpanel.com/track", "https://api.mixpanel.com/engage")

  /** `setBaseUrl(url)`. */
  function SetBaseUrl(url: string): (e: Endpoints)
    ensures url <= e.tracking && e.tracking[|url|..] == "/track"
    ensures url <= e.engage && e.engage[|url|..] == "/engage"
  {
    Endpoints(url + "/track", url + "/engage")
  }

  /** The two endpoints differ whatever the base is, so engage requests never
      reach the tracking endpoint. */
  lemma EndpointsDiffer(url: string)
    ensures SetBaseUrl(url).tracking != SetBaseUrl(url).engage
  {
    var e := SetBaseUrl(url);
    assert |e.tracking| != |e.engage|;
  }

  /** Different bases give different endpoints: the base can be read back
      from either endpoint by dropping its fixed suffix. */
  lemma SetBaseUrlInjective(a: string, b: string)
    requires SetBaseUrl(a) == SetBaseUrl(b)
    ensures a == b
  {
  }

  /** The defaults are the endpoints of the Mixpanel API base. */
  lemma DefaultIsApiBase()
    ensures SetBaseUrl("https://api.mixpanel.com") == DefaultEndpoints
  {
  }

  /** The endpoint a payload goes to. */
  function Endpoint(e: Endpoints, p: Payload): (url: string)
    ensures url == e.engage <== p.Engage?
    ensures url == e.tracking <== p.Event?
  {
    if p.Engage? then e.engage else e.tracking
  }

  // ---------------------------------------------------------------------
  // Assembly

  /** `baseToken || undefined`. */
  function TokenValue(baseToken: Value): (v: Value)
    ensures Truthy(baseToken) ==> v == baseToken
    ensures !Truthy(baseToken) ==> v == Undefined
  {
    if Truthy(baseToken) then baseToken else Undefined
  }

  /** `for (key in layer) if (layer[key] != null) acc[key] = layer[key]`. */
  function Overlay(acc: Props, layer: Props): (r: Props)
    ensures NoDupKeys(acc) ==> NoDupKeys(r)
    decreases |layer|
  {
    if layer == [] then acc
    else
      var f := layer[0];
      Overlay(if Nullish(f.val) then acc else Put(acc, f.key, f.val), layer[1..])
  }

  /** The layer holds a value for `k` that is neither `null` nor `undefined`. */
  predicate Supplies(layer: Props, k: string) {
    Get(layer, k).Some? && !Nullish(Get(layer, k).value)
  }

  /** After an overlay, a key has the layer's value when the layer supplies
      one, and keeps its old value (or absence) otherwise. */
  lemma {:induction false} OverlayGet(acc: Props, layer: Props, k: string)
    requires NoDupKeys(layer)
    ensures Get(Overlay(acc, layer), k) == if Supplies(layer, k) then Get(layer, k) else Get(acc, k)
    decreases |layer|
  {
    if layer != [] {
      var f := layer[0];
      var acc' := if Nullish(f.val) then acc else Put(acc, f.key, f.val);
      OverlayGet(acc', layer[1..], k);
      if f.key == k {
        assert k !in Keys(layer[1..]);
      }
    }
  }

  /** `_assemblePayload(data)` with `getBaseState()`, `registeredState` and
      `baseToken` as parameters. */
  function Assemble(data: Payload, base: Props, registered: Props, baseToken: Value): (r: Payload)
    ensures r.Event? <==> data.Event?
    ensures data.Event? ==> r.name == data.name
    ensures data.Engage? ==> r.people == data.people
    ensures data.Engage? ==> r.distinctId == Lookup(base, "distinct_id")
    ensures data.Engage? ==> r.token == TokenValue(baseToken)
  {
    match data
    case Engage(people, _, _) => Engage(people, TokenValue(baseToken), Lookup(base, "distinct_id"))
    case Event(name, props) =>
      var merged := Overlay(Overlay(base, registered), props);
      Event(name, Put(merged, "token", TokenValue(baseToken)))
  }

  /** Precedence of the three layers: for every key but `token`, a non-null
      call value wins, else a non-null registered value, else the base value;
      `null` and `undefined` never override a lower layer. */
  lemma AssemblePrecedence(name: string, props: Props, base: Props, registered: Props, baseToken: Value, k: string)
    requires NoDupKeys(props) && NoDupKeys(registered)
    requires k != "token"
    ensures Get(Assemble(Event(name, props), base, registered, baseToken).props, k) ==
      if Supplies(props, k) then Get(props, k)
      else if Supplies(registered, k) then Get(registered, k)
      else Get(base, k)
  {
    OverlayGet(Overlay(base, registered), props, k);
    OverlayGet(base, registered, k);
  }

  /** `properties.token` is always the base token (or `undefined` when the
      base token is empty), whatever the layers say. */
  lemma AssembleToken(name: string, props: Props, base: Props, registered: Props, baseToken: Value)
    ensures Lookup(Assemble(Event(name, props), base, registered, baseToken).props, "token") == TokenValue(baseToken)
  {
  }

  /** Engage assembly never reads the registered overrides or the call's own
      `$token` and `$distinct_id`. */
  lemma EngageIgnoresRegistered(people: Props, t1: Value, d1: Value, t2: Value, d2: Value,
                                base: Props, r1: Props, r2: Props, baseToken: Value)
    ensures Assemble(Engage(people, t1, d1), base, r1, baseToken) == Assemble(Engage(people, t2, d2), base, r2, baseToken)
  {
  }

  /** An assembled event never carries a duplicate key when its inputs do not. */
  lemma AssembleNoDup(name: string, props: Props, base: Props, registered: Props, baseToken: Value)
    requires NoDupKeys(base)
    ensures NoDupKeys(Assemble(Event(name, props), base, registered, baseToken).props)
  {
  }

  // ---------------------------------------------------------------------
  // Serialization and the request URL

  /** `JSON.stringify(payload, replacer)`: a payload is an object, so the
      result is always text. */
  function Stringify(p: Payload): string {
    Json.Stringify(ToValue(p)).value
  }

  /** `base64(s)`: `encodeURIComponent` followed by `unescape` gives one
      character per UTF-8 byte, and `btoa` encodes those bytes. */
  function EncodeBase64(s: string): string {
    Base64.Encode(Utf8.Encode(s))
  }

  /** The value of the `data` query parameter. */
  function DataParam(assembled: Payload): string {
    Percent.EncodeURIComponent(EncodeBase64(Stringify(assembled)))
  }

  const QueryHead := "?ip=1&verbose=1&data="
  const StampHead := "&_="

  /** The URL `_flushPayload` requests; `timestamp` is `Date.now()`. */
  function RequestUrl(e: Endpoints, data: Payload, base: Props, registered: Props, baseToken: Value, timestamp: nat): string {
    Endpoint(e, data) + QueryHead + DataParam(Assemble(data, base, registered, baseToken)) + StampHead + NatToString(timestamp)
  }

  /** The text up to the first `c`, and whether a `c` was found. */
  function UpTo(s: string, c: char): (r: (string, bool))
    ensures r.0 <= s
    ensures c !in r.0
    ensures r.1 <==> c in s
    ensures r.1 ==> |r.0| < |s| && s[|r.0|] == c
  {
    if s == [] then ([], false)
    else if s[0] == c then ([], true)
    else
      var (t, found) := UpTo(s[1..], c);
      ([s[0]] + t, found)
  }

  /** A server's reading of a request URL for the given endpoint: the `data`
      parameter runs from the query head to the next `&`. */
  function DataOf(url: string, endpoint: string): Option<string> {
    var head := endpoint + QueryHead;
    if head <= url then
      var (d, found) := UpTo(url[|head|..], '&');
      if found then Some(d) else None
    else None
  }

  /** What the server decodes a `data` parameter to: percent-decoding, base
      64, UTF-8 and JSON, in that order. */
  function ReadData(d: string): Option<Value> {
    match Percent.DecodeURIComponent(d)
    case None => None
    case Some(b64) =>
      match Base64.Decode(b64)
      case None => None
      case Some(bytes) =>
        match Utf8.Decode(bytes)
        case None => None
        case Some(json) => JsonParse.Parse(json)
  }

  lemma {:induction false} UpToPrefix(d: string, tail: string, c: char)
    requires c !in d
    ensures UpTo(d + [c] + tail, c) == (d, true)
  {
    if d == [] {
      assert (d + [c] + tail)[0] == c;
    } else {
      assert (d + [c] + tail)[0] == d[0] != c;
      assert (d + [c] + tail)[1..] == d[1..] + [c] + tail;
      UpToPrefix(d[1..], tail, c);
      assert [d[0]] + d[1..] == d;
    }
  }

  /** The `data` parameter never contains `&`, so it is exactly what follows
      `data=` up to the timestamp parameter. */
  lemma DataParamHasNoAmpersand(assembled: Payload)
    ensures '&' !in DataParam(assembled)
  {
    var d := DataParam(assembled);
    Percent.EncodeBytesAlphabet(Utf8.Encode(EncodeBase64(Stringify(assembled))));
    assert !Percent.Unescaped('&');
  }

  /** The request URL is the endpoint and query head, the `data` parameter,
      then `&` and the rest of the timestamp parameter. */
  lemma UrlLayout(e: Endpoints, data: Payload, base: Props, registered: Props, baseToken: Value, timestamp: nat)
    ensures var url := RequestUrl(e, data, base, registered, baseToken, timestamp);
      var head := Endpoint(e, data) + QueryHead;
      var d := DataParam(Assemble(data, base, registered, baseToken));
      head <= url && url[|head|..] == d + ['&'] + (StampHead[1..] + NatToString(timestamp))
  {
    assert StampHead[0] == '&';
    Layout(Endpoint(e, data), QueryHead, DataParam(Assemble(data, base, registered, baseToken)), StampHead, NatToString(timestamp));
  }

  lemma Layout(a: string, q: string, d: string, sh: string, t: string)
    requires |sh| > 0 && sh[0] == '&'
    ensures a + q <= a + q + d + sh + t
    ensures (a + q + d + sh + t)[|a + q|..] == d + ['&'] + (sh[1..] + t)
  {
    assert a + q + d + sh + t == (a + q) + (d + ['&'] + (sh[1..] + t));
  }

  /** A server finds the `data` parameter of a request URL. */
  lemma DataOfRequestUrl(e: Endpoints, data: Payload, base: Props, registered: Props, baseToken: Value, timestamp: nat)
    ensures DataOf(RequestUrl(e, data, base, registered, baseToken, timestamp), Endpoint(e, data)) ==
      Some(DataParam(Assemble(data, base, registered, baseToken)))
  {
    var d := DataParam(Assemble(data, base, registered, baseToken));
    UrlLayout(e, data, base, registered, baseToken, timestamp);
    DataParamHasNoAmpersand(Assemble(data, base, registered, baseToken));
    UpToPrefix(d, StampHead[1..] + NatToString(timestamp), '&');
  }

  /** Decoding a `data` parameter gives back the payload's cleaned JSON
      value. */
  lemma ReadDataParam(assembled: Payload)
    ensures ReadData(DataParam(assembled)) == Some(Json.Clean(ToValue(assembled)))
  {
    var json := Stringify(assembled);
    var b64 := EncodeBase64(json);
    Percent.DecodeEncode(b64);
    Base64.DecodeEncode(Utf8.Encode(json));
    Utf8.DecodeEncode(json);
    JsonParse.ParseStringify(ToValue(assembled));
  }

  /** The request URL goes to the engage endpoint exactly for engage
      payloads, and its `data` parameter decodes to the assembled payload with
      every `null`, `undefined` and `""` member removed. */
  lemma RequestUrlRoundTrip(e: Endpoints, data: Payload, base: Props, registered: Props, baseToken: Value, timestamp: nat)
    ensures var url := RequestUrl(e, data, base, registered, baseToken, timestamp);
      var assembled := Assemble(data, base, registered, baseToken);
      DataOf(url, Endpoint(e, data)) == Some(DataParam(assembled)) &&
      ReadData(DataParam(assembled)) == Some(Json.Clean(ToValue(assembled)))
  {
    DataOfRequestUrl(e, data, base, registered, baseToken, timestamp);
    ReadDataParam(Assemble(data, base, registered, baseToken));
  }

  /** The URL ends with the timestamp parameter. */
  lemma RequestUrlEndsWithStamp(e: Endpoints, data: Payload, base: Props, registered: Props, baseToken: Value, timestamp: nat)
    ensures var url := RequestUrl(e, data, base, registered, baseToken, timestamp);
      var stamp := StampHead + NatToString(timestamp);
      |stamp| <= |url| && url[|url| - |stamp|..] == stamp
  {
    var front := Endpoint(e, data) + QueryHead + DataParam(Assemble(data, base, registered, baseToken));
    EndsWith(front, StampHead, NatToString(timestamp));
  }

  lemma EndsWith(a: string, b: string, c: string)
    ensures |b + c| <= |a + b + c| && (a + b + c)[|a + b + c| - |b + c|..] == b + c
  {
    assert a + b + c == a + (b + c);
  }

  // ---------------------------------------------------------------------
  // Transport

  /** `ATTEMPTS`. */
  const Attempts := 3

  /** What one `fetch` gives: a response with a status, or a rejection. */
  datatype Response = Status(code: int) | Threw

  /** The environment of one delivery: whether `sendBeacon` accepts the URL,
      what `isOnline()` says before attempt `i`, and what attempt `i` gets. */
  datatype Network = Network(beacon: bool, online: nat -> bool, response: nat -> Response)

  /** A response below 500 ends the retries successfully. */
  predicate Accepted(r: Response) {
    r.Status? && r.code < 500
  }

  /** Attempt `i` is the fetch that delivers: every check up to it found the
      network online and every earlier attempt failed. */
  predicate DeliveredAt(net: Network, i: int) {
    0 <= i < Attempts &&
    (forall j: nat :: j <= i ==> net.online(j)) &&
    (forall j: nat :: j < i ==> !Accepted(net.response(j))) &&
    Accepted(net.response(i))
  }

  /** `_flushPayload` once the URL is built: whether the payload was
      delivered and how many `fetch` calls were made. */
  method FlushPayload(net: Network) returns (ok: bool, fetches: nat)
    ensures ok <==> net.beacon || exists i :: DeliveredAt(net, i)
    ensures net.beacon ==> fetches == 0
    ensures !net.beacon && ok ==> fetches >= 1 && DeliveredAt(net, fetches - 1)
    ensures fetches <= Attempts
    ensures forall j: nat :: j < fetches ==> net.online(j)
    ensures !ok ==> fetches == Attempts || !net.online(fetches)
    ensures !ok ==> forall j: nat :: j < fetches ==> !Accepted(net.response(j))
  {
    if net.beacon {
      return true, 0;
    }
    var attempt: nat := 0;
    while attempt < Attempts && net.online(attempt)
      invariant attempt <= Attempts
      invariant forall j: nat :: j < attempt ==> net.online(j)
      invariant forall j: nat :: j < attempt ==> !Accepted(net.response(j))
    {
      var response := net.response(attempt);
      if response.Status? && response.code < 500 {
        assert DeliveredAt(net, attempt);
        return true, attempt + 1;
      }
      attempt := attempt + 1;
    }
    ok, fetches := false, attempt;
    forall i | 0 <= i < Attempts
      ensures !DeliveredAt(net, i)
    {
      if i >= attempt {
        assert !net.online(attempt);
      }
    }
  }

  /** The result of `_flushPayload`: delivered or not, and the number of
      `fetch` calls made. */
  datatype Delivery = Delivery(ok: bool, fetches: nat)

  /** The retry loop as a function, from attempt `i` on. */
  function Retry(net: Network, i: nat): Delivery
    decreases Attempts - i
  {
    if i >= Attempts || !net.online(i) then Delivery(false, i)
    else if Accepted(net.response(i)) then Delivery(true, i + 1)
    else Retry(net, i + 1)
  }

  function Deliver(net: Network): Delivery {
    if net.beacon then Delivery(true, 0) else Retry(net, 0)
  }

  /** From attempt `i` on, after `i` online, failed attempts, the retry loop
      meets the delivery contract. */
  lemma {:induction false} RetryMeetsContract(net: Network, i: nat)
    requires i <= Attempts
    requires forall j: nat :: j < i ==> net.online(j) && !Accepted(net.response(j))
    ensures var d := Retry(net, i);
      (d.ok <==> exists k :: DeliveredAt(net, k)) &&
      (d.ok ==> d.fetches >= 1 && DeliveredAt(net, d.fetches - 1)) &&
      i <= d.fetches <= Attempts &&
      (forall j: nat :: j < d.fetches ==> net.online(j)) &&
      (!d.ok ==> d.fetches == Attempts || !net.online(d.fetches)) &&
      (!d.ok ==> forall j: nat :: j < d.fetches ==> !Accepted(net.response(j)))
    decreases Attempts - i
  {
    if i < Attempts && net.online(i) {
      if Accepted(net.response(i)) {
        assert DeliveredAt(net, i);
      } else {
        RetryMeetsContract(net, i + 1);
      }
    } else {
      forall k | 0 <= k < Attempts
        ensures !DeliveredAt(net, k)
      {
        if k >= i {
          assert i >= Attempts || !net.online(i);
        }
      }
    }
  }

  /** `Deliver` is the beacon, or else the first accepted fetch among at most
      three made while online. */
  lemma DeliverMeetsContract(net: Network)
    ensures var d := Deliver(net);
      (d.ok <==> net.beacon || exists k :: DeliveredAt(net, k)) &&
      (net.beacon ==> d.fetches == 0) &&
      (!net.beacon && d.ok ==> d.fetches >= 1 && DeliveredAt(net, d.fetches - 1)) &&
      d.fetches <= Attempts &&
      (forall j: nat :: j < d.fetches ==> net.online(j)) &&
      (!d.ok ==> d.fetches == Attempts || !net.online(d.fetches)) &&
      (!d.ok ==> forall j: nat :: j < d.fetches ==> !Accepted(net.response(j)))
  {
    if !net.beacon {
      RetryMeetsContract(net, 0);
    }
  }

  /** `navigator.onLine !== false`: a navigator without the property counts
      as online. */
  function AlwaysOnline(i: nat): bool {
    true
  }

  /** The beacon accepts: delivered without any fetch. */
  lemma BeaconExample(response: nat -> Response)
    ensures Deliver(Network(true, AlwaysOnline, response)) == Delivery(true, 0)
  {
  }

  /** The beacon refuses, the first fetch gets 500 and the second 200:
      delivered after two fetches. */
  lemma RetryExample()
    ensures Deliver(Network(false, AlwaysOnline, i => if i == 0 then Status(500) else Status(200))) == Delivery(true, 2)
  {
  }

  /** Every fetch gets 500: not delivered after three fetches. */
  lemma ExhaustedExample()
    ensures Deliver(Network(false, AlwaysOnline, i => Status(500))) == Delivery(false, 3)
  {
  }

  /** Offline before the first attempt: nothing is fetched. */
  lemma OfflineExample(response: nat -> Response)
    ensures Deliver(Network(false, i => false, response)) == Delivery(false, 0)
  {
  }
}
