/** The identity state of src/state.ts: `init` builds the state object once,
    `hasState` says whether it exists, and `register` writes a bag of
    properties into a state object, deleting the keys whose new value is
    falsy. What `init` reads from `navigator`, `screen`, `document` and
    `window`, and the identifier `makeUUID` returns, are inputs. */
module State {
  import opened JsValue
  import Agent

  // ---------------------------------------------------------------------
  // register

  /** `for (key in data) if (data[key]) state[key] = data[key]; else delete state[key]`. */
  function Register(state: Props, data: Props): (r: Props)
    ensures NoDupKeys(state) ==> NoDupKeys(r)
    decreases |data|
  {
    if data == [] then state
    else
      var f := data[0];
      Register(if Truthy(f.val) then Put(state, f.key, f.val) else Delete(state, f.key), data[1..])
  }

  /** What `register` leaves under a key: the new value when it is truthy,
      nothing when it is falsy, the old entry when `data` does not name the
      key. */
  lemma {:induction false} RegisterGet(state: Props, data: Props, k: string)
    requires NoDupKeys(data)
    ensures Get(Register(state, data), k) ==
      if k !in Keys(data) then Get(state, k)
      else if Truthy(Lookup(data, k)) then Some(Lookup(data, k))
      else None
    decreases |data|
  {
    if data != [] {
      var f := data[0];
      var state' := if Truthy(f.val) then Put(state, f.key, f.val) else Delete(state, f.key);
      RegisterGet(state', data[1..], k);
      if f.key == k {
        assert k !in Keys(data[1..]);
      }
    }
  }

  /** Registering a truthy value and reading it back gives the value;
      registering a falsy value removes the key. */
  lemma RegisterOne(state: Props, k: string, v: Value)
    ensures Truthy(v) ==> Lookup(Register(state, [Field(k, v)]), k) == v
    ensures !Truthy(v) ==> k !in Keys(Register(state, [Field(k, v)]))
  {
    RegisterGet(state, [Field(k, v)], k);
  }

  // ---------------------------------------------------------------------
  // init and hasState

  /** What `init` reads from the page: `navigator.userAgent`, the `opera`
      global, `screen.height` and `screen.width`, `document.referrer`,
      `window.location.href`, `navigator.doNotTrack`, and the browser version
      `getBrowserVersion` finds (a floating-point parse, taken as given). */
  datatype Page = Page(
    userAgent: Value,
    operaGlobal: bool,
    browserVersion: Value,
    screenHeight: int,
    screenWidth: int,
    referrer: string,
    href: string,
    doNotTrack: Value)

  /** The module-level `state`: absent until `init` runs. */
  datatype Store = Store(state: Option<Props>)

  const Fresh := Store(None)

  /** `hasState()`. */
  predicate HasState(s: Store) {
    s.state.Some?
  }

  /** `string | null` as a value. */
  function OrNull(o: Option<string>): Value {
    match o
    case None => Null
    case Some(t) => Str(t)
  }

  /** `navigator.userAgent || ''`. */
  function UserAgentText(ua: Value): string {
    if ua.Str? then ua.s else ""
  }

  /** The members of the state object, in the order `init` writes them. */
  const InitKeys: seq<string> := [
    "token", "$os", "$browser", "$browser_version", "$device",
    "$screen_height", "$screen_width", "$referrer", "$referring_domain", "$current_url",
    "distinct_id", "$device_id", "mp_lib", "$lib_version", "doNotTrack"]

  /** What `init` derives from the page through the user-agent helpers:
      `$os`, `$browser`, `$device`, `$referring_domain` and `doNotTrack`. */
  datatype Derived = Derived(os: Value, browser: Value, device: Value, referringDomain: Value, doNotTrack: Value)

  /** The helpers' answers for a page. */
  function Derive(page: Page): (d: Derived)
    ensures d.doNotTrack.Bool?
    ensures d.os.Null? || d.os.Str?
    ensures d.browser.Null? || d.browser.Str?
    ensures d.device.Null? || d.device.Str?
  {
    var ua := UserAgentText(page.userAgent);
    Derived(
      OrNull(Agent.GetOS(ua)),
      OrNull(Agent.GetBrowser(ua, page.operaGlobal)),
      OrNull(Agent.GetDevice(ua)),
      OrNull(Agent.GetReferringDomain(page.referrer)),
      Bool(Agent.GetDoNotTrack(page.doNotTrack)))
  }

  /** The value `init` writes for each member of `InitKeys`, given what the
      helpers derived from the page. */
  function InitValues(token: string, page: Page, uuid: string, d: Derived): (vs: seq<Value>)
    ensures |vs| == 15
    ensures vs[0] == Str(token) && vs[10] == vs[11] == Str(uuid) && vs[12] == Str("mixpanel-lite")
  {
    [ Str(token),
      d.os,
      d.browser,
      page.browserVersion,
      d.device,
      Num(page.screenHeight),
      Num(page.screenWidth),
      Str(page.referrer),
      d.referringDomain,
      Str(page.href),
      Str(uuid),
      Str(uuid),
      Str("mixpanel-lite"),
      Str("0.0.0"),
      d.doNotTrack ]
  }

  /** The object with the given members in order. */
  function Zip(keys: seq<string>, vals: seq<Value>): (p: Props)
    requires |keys| == |vals|
    ensures |p| == |keys|
    ensures forall i :: 0 <= i < |p| ==> p[i] == Field(keys[i], vals[i])
  {
    if keys == [] then [] else [Field(keys[0], vals[0])] + Zip(keys[1..], vals[1..])
  }

  lemma {:induction false} KeysIndex(p: Props)
    ensures |Keys(p)| == |p|
    ensures forall i :: 0 <= i < |p| ==> Keys(p)[i] == p[i].key
  {
    if p != [] {
      KeysIndex(p[1..]);
    }
  }

  /** Pairwise distinct keys make a proper object. */
  lemma {:induction false} DistinctKeys(p: Props)
    requires forall i, j :: 0 <= i < j < |p| ==> p[i].key != p[j].key
    ensures NoDupKeys(p)
  {
    if p != [] {
      KeysIndex(p[1..]);
      assert forall i :: 0 <= i < |p[1..]| ==> p[1..][i].key != p[0].key by {
        forall i | 0 <= i < |p[1..]|
          ensures p[1..][i].key != p[0].key
        {
          assert p[1..][i] == p[i + 1];
        }
      }
      DistinctKeys(p[1..]);
    }
  }

  /** In a proper object, the member at position `i` is what a lookup of its
      key finds. */
  lemma {:induction false} GetAt(p: Props, i: nat)
    requires NoDupKeys(p) && i < |p|
    ensures Get(p, p[i].key) == Some(p[i].val)
  {
    if i > 0 {
      KeysIndex(p[1..]);
      assert p[1..][i - 1] == p[i];
      assert p[0].key != p[i].key by {
        assert Keys(p[1..])[i - 1] == p[i].key;
      }
      GetAt(p[1..], i - 1);
    }
  }

  /** A key's length and second character. */
  function Signature(k: string): (int, char) {
    (|k|, if |k| >= 2 then k[1] else ' ')
  }

  /** No two members of the state object share a key. */
  lemma InitKeysDistinct()
    ensures forall i, j :: 0 <= i < j < |InitKeys| ==> InitKeys[i] != InitKeys[j]
  {
    var sigs := [(5, 'o'), (3, 'o'), (8, 'b'), (16, 'b'), (7, 'd'), (14, 's'), (13, 's'), (9, 'r'),
                 (17, 'r'), (12, 'c'), (11, 'i'), (10, 'd'), (6, 'p'), (12, 'l'), (10, 'o')];
    assert forall i :: 0 <= i < |InitKeys| ==> Signature(InitKeys[i]) == sigs[i];
    assert forall i, j :: 0 <= i < j < |InitKeys| ==> sigs[i] != sigs[j];
  }

  /** Zipping distinct keys gives a proper object in which each key finds
      its own value. */
  lemma ZipMembers(keys: seq<string>, vals: seq<Value>)
    requires |keys| == |vals|
    requires forall i, j :: 0 <= i < j < |keys| ==> keys[i] != keys[j]
    ensures NoDupKeys(Zip(keys, vals)) && Keys(Zip(keys, vals)) == keys
    ensures forall i :: 0 <= i < |keys| ==> Get(Zip(keys, vals), keys[i]) == Some(vals[i])
  {
    var p := Zip(keys, vals);
    DistinctKeys(p);
    KeysIndex(p);
    forall i | 0 <= i < |keys|
      ensures Get(p, keys[i]) == Some(vals[i])
    {
      GetAt(p, i);
    }
  }

  /** The state object's members: a proper object, with each identity
      member under its key. */
  lemma InitialMembers(keys: seq<string>, vals: seq<Value>)
    requires keys == InitKeys && |vals| == |keys|
    ensures var p := Zip(keys, vals);
      NoDupKeys(p) && Keys(p) == keys &&
      Get(p, "token") == Some(vals[0]) &&
      Get(p, "distinct_id") == Some(vals[10]) &&
      Get(p, "$device_id") == Some(vals[11]) &&
      Get(p, "mp_lib") == Some(vals[12])
  {
    InitKeysDistinct();
    ZipMembers(keys, vals);
    assert keys[0] == "token" && keys[10] == "distinct_id" && keys[11] == "$device_id" && keys[12] == "mp_lib";
  }

  /** The state object `init(token)` builds: a proper object whose `token` is
      the argument and whose `distinct_id` and `$device_id` are the same
      fresh identifier. */
  function InitialState(token: string, page: Page, uuid: string, d: Derived): (p: Props)
    ensures NoDupKeys(p)
    ensures Keys(p) == InitKeys
    ensures Lookup(p, "token") == Str(token)
    ensures Lookup(p, "distinct_id") == Lookup(p, "$device_id") == Str(uuid)
    ensures Lookup(p, "mp_lib") == Str("mixpanel-lite")
  {
    var vals := InitValues(token, page, uuid, d);
    InitialMembers(InitKeys, vals);
    Zip(InitKeys, vals)
  }

  /** `init(token)`. */
  function Init(s: Store, token: string, page: Page, uuid: string): (r: Store)
    ensures HasState(r)
  {
    Store(Some(InitialState(token, page, uuid, Derive(page))))
  }

  /** Before `init` there is no state; after it there is, whatever came before. */
  lemma InitEstablishesState(s: Store, token: string, page: Page, uuid: string)
    ensures !HasState(Fresh)
    ensures HasState(Init(s, token, page, uuid))
  {
  }
}
