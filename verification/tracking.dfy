/** The public tracking calls of src/index.ts. `track` copies the caller's
    properties, turning falsy values into `null`, stamps a fresh
    `$insert_id` and sends an event; `identify` registers the new identity
    and tracks `$identify`; `setPeople` sends an engage payload; and
    `getProperty` reads a registered value before the base one. The random
    `$insert_id` is an input. */
module Tracking {
  import opened JsValue
  import opened Send
  import opened Queue
  import State
  import Json

  /** `getProperty(key)`: the registered value when it is truthy, else the
      base state's. */
  function GetProperty(registered: Props, base: Props, key: string): (v: Value)
    ensures Truthy(Lookup(registered, key)) ==> v == Lookup(registered, key)
    ensures !Truthy(Lookup(registered, key)) ==> v == Lookup(base, key)
  {
    if Truthy(Lookup(registered, key)) then Lookup(registered, key) else Lookup(base, key)
  }

  /** Registering a truthy value makes `getProperty` return it; registering a
      falsy one uncovers the base value again. */
  lemma GetPropertyAfterRegister(registered: Props, base: Props, key: string, v: Value)
    ensures Truthy(v) ==> GetProperty(State.Register(registered, [Field(key, v)]), base, key) == v
    ensures !Truthy(v) ==> GetProperty(State.Register(registered, [Field(key, v)]), base, key) == Lookup(base, key)
  {
    State.RegisterOne(registered, key, v);
  }

  // ---------------------------------------------------------------------
  // track

  /** `for (key in data) properties[key] = data[key] || properties[key] || null`. */
  function CopyTruthy(acc: Props, data: Props): (r: Props)
    ensures NoDupKeys(acc) ==> NoDupKeys(r)
    decreases |data|
  {
    if data == [] then acc
    else
      var f := data[0];
      var v := if Truthy(f.val) then f.val else if Truthy(Lookup(acc, f.key)) then Lookup(acc, f.key) else Null;
      CopyTruthy(Put(acc, f.key, v), data[1..])
  }

  /** The properties `track` sends: the copy of `data` (none when `data` is
      absent) with `$insert_id` set. */
  function TrackProps(data: Option<Props>, insertId: string): (p: Props)
    ensures Lookup(p, "$insert_id") == Str(insertId)
  {
    var copied := if data.Some? then CopyTruthy([], data.value) else [];
    Put(copied, "$insert_id", Str(insertId))
  }

  /** After copying into an empty object, every key of `data` is present,
      holding its value when truthy and `null` otherwise; no other key is. */
  lemma {:induction false} CopyTruthyGet(acc: Props, data: Props, k: string)
    requires NoDupKeys(data)
    requires forall k' :: k' in Keys(data) ==> k' !in Keys(acc)
    ensures Get(CopyTruthy(acc, data), k) ==
      if k !in Keys(data) then Get(acc, k)
      else if Truthy(Lookup(data, k)) then Some(Lookup(data, k))
      else Some(Null)
    decreases |data|
  {
    if data != [] {
      var f := data[0];
      var acc' := Put(acc, f.key, if Truthy(f.val) then f.val else Null);
      assert f.key !in Keys(acc);
      assert Lookup(acc, f.key) == Undefined;
      forall k' | k' in Keys(data[1..])
        ensures k' !in Keys(acc')
      {
        assert k' in Keys(data);
        assert k' != f.key;
      }
      CopyTruthyGet(acc', data[1..], k);
      if f.key == k {
        assert k !in Keys(data[1..]);
      }
    }
  }

  /** `track` keeps every key of `data` (truthy values as they are, falsy
      ones as `null`), adds no other key, and always sets `$insert_id`,
      replacing a caller's. */
  lemma TrackPropsGet(data: Props, insertId: string, k: string)
    requires NoDupKeys(data)
    ensures Get(TrackProps(Some(data), insertId), k) ==
      if k == "$insert_id" then Some(Str(insertId))
      else if k !in Keys(data) then None
      else if Truthy(Lookup(data, k)) then Some(Lookup(data, k))
      else Some(Null)
  {
    CopyTruthyGet([], data, k);
  }

  /** Without `data`, the only property is `$insert_id`. */
  lemma TrackPropsEmpty(insertId: string)
    ensures TrackProps(None, insertId) == [Field("$insert_id", Str(insertId))]
  {
  }

  /** `track(eventName, data)`; `online` is `isOnline()` inside `send`. */
  function Track(s: Scheduler, eventName: string, data: Option<Props>, insertId: string, online: bool): (r: Step)
    ensures !s.muted ==> r.next.queue == s.queue + [Event(eventName, TrackProps(data, insertId))]
    ensures s.muted ==> r.next == s
  {
    SendPayload(s, Some(Event(eventName, TrackProps(data, insertId))), online)
  }

  /** `track` enqueues exactly one event, with the given name, at the tail. */
  lemma TrackEnqueuesOne(s: Scheduler, eventName: string, data: Option<Props>, insertId: string, online: bool)
    requires !s.muted
    ensures var q := Track(s, eventName, data, insertId, online).next.queue;
      |q| == |s.queue| + 1 && q[..|s.queue|] == s.queue &&
      q[|s.queue|].Event? && q[|s.queue|].name == eventName
  {
  }

  // ---------------------------------------------------------------------
  // identify and setPeople

  /** The properties `identify(id)` registers. */
  function IdentityProps(base: Props, id: string): Props {
    [Field("$anon_distinct_id", Lookup(base, "distinct_id")),
     Field("distinct_id", Str(id)),
     Field("$user_id", Str(id))]
  }

  datatype Identified = Identified(registered: Props, step: Step)

  /** `identify(id)`: register the identity, then `track('$identify')`. */
  function Identify(s: Scheduler, registered: Props, base: Props, id: string, insertId: string, online: bool): (r: Identified)
    ensures r.step == Track(s, "$identify", None, insertId, online)
  {
    Identified(State.Register(registered, IdentityProps(base, id)), Track(s, "$identify", None, insertId, online))
  }

  /** After `identify(id)` with a non-empty `id`, `distinct_id` and `$user_id`
      are `id`, `$anon_distinct_id` is the previous base `distinct_id` when
      that was truthy (and absent otherwise), and `getProperty` reads the new
      identity. An empty `id` is falsy, so it deletes both keys instead. */
  lemma IdentifyRegisters(s: Scheduler, registered: Props, base: Props, id: string, insertId: string, online: bool)
    ensures var reg := Identify(s, registered, base, id, insertId, online).registered;
      (id != "" ==> Lookup(reg, "distinct_id") == Str(id) && Lookup(reg, "$user_id") == Str(id)) &&
      (id != "" ==> GetProperty(reg, base, "distinct_id") == Str(id)) &&
      (id == "" ==> "distinct_id" !in Keys(reg) && "$user_id" !in Keys(reg)) &&
      (Truthy(Lookup(base, "distinct_id")) ==> Lookup(reg, "$anon_distinct_id") == Lookup(base, "distinct_id")) &&
      (!Truthy(Lookup(base, "distinct_id")) ==> "$anon_distinct_id" !in Keys(reg))
  {
    var data := IdentityProps(base, id);
    State.DistinctKeys(data);
    State.KeysIndex(data);
    assert "distinct_id" == Keys(data)[1] && "$user_id" == Keys(data)[2] && "$anon_distinct_id" == Keys(data)[0];
    State.GetAt(data, 0);
    State.GetAt(data, 1);
    State.GetAt(data, 2);
    State.RegisterGet(registered, data, "distinct_id");
    State.RegisterGet(registered, data, "$user_id");
    State.RegisterGet(registered, data, "$anon_distinct_id");
  }

  /** The `$identify` event carries no property but `$insert_id`. */
  lemma IdentifyEvent(s: Scheduler, registered: Props, base: Props, id: string, insertId: string, online: bool)
    requires !s.muted
    ensures Identify(s, registered, base, id, insertId, online).step.next.queue ==
      s.queue + [Event("$identify", [Field("$insert_id", Str(insertId))])]
  {
  }

  /** `setPeople(data)`: `send({ $set: data })`. */
  function SetPeople(s: Scheduler, data: Props, online: bool): (r: Step)
    ensures !s.muted ==> r.next.queue == s.queue + [Engage(data, Undefined, Undefined)]
  {
    SendPayload(s, Some(Engage(data, Undefined, Undefined)), online)
  }

  /** The engage payload `setPeople` enqueues serializes exactly as the object
      `{ $set: data }`. */
  lemma SetPeopleSerializes(data: Props)
    ensures Stringify(Engage(data, Undefined, Undefined)) == Json.Stringify(Obj([Field("$set", Obj(data))])).value
  {
    var fs := [Field("$set", Obj(data)), Field("$distinct_id", Undefined), Field("$token", Undefined)];
    var one := [Field("$set", Obj(data))];
    var member := Json.Quote("$set") + ":" + Json.Serialize(Obj(data)).value;
    assert fs[1..][1..][1..] == [] && one[1..] == [];
    assert Json.MemberTexts(fs[1..][1..]) == [];
    assert Json.MemberTexts(fs[1..]) == [];
    assert Json.MemberTexts(fs) == [member];
    assert Json.MemberTexts(one) == [member];
  }
}
