/** The request URLs of src/__tests__/send.test.ts, derived from the model:
    an empty event and a `$set` of one string member, sent at the clock
    reading the tests install, with an empty base state, no registered
    overrides and no token. Each stage is settled on its own: the JSON
    text, its base 64 form six characters (two groups) at a time, the
    percent-encoding, which changes nothing here, and the timestamp. The
    per-piece lemmas take their texts as parameters so that a caller never
    re-evaluates an encoding over a long literal. */
module SendVectors {
  import opened JsValue
  import opened Utf8
  import Base64
  import Percent
  import Json
  import opened Send

  /** The clock reading of the tests. */
  const Time: nat := 1686584284103

  // ---------------------------------------------------------------------
  // Encodings distribute over concatenation

  lemma {:induction false} Utf8Append(a: string, b: string)
    ensures Utf8.Encode(a + b) == Utf8.Encode(a) + Utf8.Encode(b)
  {
    if a == [] {
      assert a + b == b;
    } else {
      assert (a + b)[0] == a[0];
      assert (a + b)[1..] == a[1..] + b;
      Utf8Append(a[1..], b);
    }
  }

  /** Whole groups of three bytes encode independently of what follows. */
  lemma {:induction false} Base64Append(x: seq<byte>, y: seq<byte>)
    requires |x| % 3 == 0
    ensures Base64.Encode(x + y) == Base64.Encode(x) + Base64.Encode(y)
    decreases |x|
  {
    if x == [] {
      assert x + y == y;
    } else {
      assert (x + y)[..3] == x[..3];
      assert (x + y)[3..] == x[3..] + y;
      Base64Append(x[3..], y);
    }
  }

  /** A text whose UTF-8 form fills whole groups encodes independently of
      what follows it. */
  lemma PrependGroups(p: string, g: string, rest: string, grest: string)
    requires EncodeBase64(p) == g && |Utf8.Encode(p)| % 3 == 0
    requires EncodeBase64(rest) == grest
    ensures EncodeBase64(p + rest) == g + grest
  {
    Utf8Append(p, rest);
    Base64Append(Utf8.Encode(p), Utf8.Encode(rest));
  }

  lemma {:induction false} EncodeBytesAppend(x: seq<byte>, y: seq<byte>)
    ensures Percent.EncodeBytes(x + y) == Percent.EncodeBytes(x) + Percent.EncodeBytes(y)
  {
    if x == [] {
      assert x + y == y;
    } else {
      assert (x + y)[0] == x[0];
      assert (x + y)[1..] == x[1..] + y;
      EncodeBytesAppend(x[1..], y);
    }
  }

  // ---------------------------------------------------------------------
  // Texts an encoding leaves alone

  /** Printable ASCII other than quote and backslash. */
  predicate Plain(s: string) {
    forall i :: 0 <= i < |s| ==> 0x20 <= s[i] as int < 0x7F && s[i] != '"' && s[i] != '\\'
  }

  /** Plain text needs no escape inside a JSON string literal. */
  lemma {:induction false} EscapePlain(s: string)
    requires Plain(s)
    ensures Json.EscapeBody(s) == s
  {
    if s != [] {
      assert Plain(s[1..]) by {
        forall i | 0 <= i < |s[1..]|
          ensures 0x20 <= s[1..][i] as int < 0x7F && s[1..][i] != '"' && s[1..][i] != '\\'
        {
          assert s[1..][i] == s[i + 1];
        }
      }
      EscapePlain(s[1..]);
      assert [s[0]] + s[1..] == s;
    }
  }

  /** ASCII letters and digits. */
  predicate Alphanumeric(s: string) {
    forall i :: 0 <= i < |s| ==> 'A' <= s[i] <= 'Z' || 'a' <= s[i] <= 'z' || '0' <= s[i] <= '9'
  }

  /** `encodeURIComponent` keeps letters and digits as they are. */
  lemma {:induction false} EncodeAlphanumeric(s: string)
    requires Alphanumeric(s)
    ensures Percent.EncodeURIComponent(s) == s
  {
    if s != [] {
      var rest := Utf8.Encode(s[1..]);
      assert Utf8.Encode(s) == [s[0] as int] + rest;
      assert ([s[0] as int] + rest)[1..] == rest;
      assert forall i :: 0 <= i < |s[1..]| ==> s[1..][i] == s[i + 1];
      EncodeAlphanumeric(s[1..]);
      assert [s[0]] + s[1..] == s;
    }
  }

  lemma PrependAlphanumeric(a: string, rest: string)
    requires Alphanumeric(a) && Percent.EncodeURIComponent(rest) == rest
    ensures Percent.EncodeURIComponent(a + rest) == a + rest
  {
    EncodeAlphanumeric(a);
    Utf8Append(a, rest);
    EncodeBytesAppend(Utf8.Encode(a), Utf8.Encode(rest));
  }

  /** `String(Time)`. */
  lemma TimeText()
    ensures NatToString(Time) == "1686584284103"
  {
    assert NatToString(1) == "1";
    assert NatToString(16) == "16";
    assert NatToString(168) == "168";
    assert NatToString(1686) == "1686";
    assert NatToString(16865) == "16865";
    assert NatToString(168658) == "168658";
    assert NatToString(1686584) == "1686584";
    assert NatToString(16865842) == "16865842";
    assert NatToString(168658428) == "168658428";
    assert NatToString(1686584284) == "1686584284";
    assert NatToString(16865842841) == "16865842841";
    assert NatToString(168658428410) == "168658428410";
  }

  // ---------------------------------------------------------------------
  // The JSON shape of the two payloads

  /** With nothing registered, no base state and no token, an event without
      properties is sent with an `undefined` token as its only property. */
  lemma AssembleBare(name: string)
    ensures Assemble(Event(name, []), [], [], Undefined) == Event(name, [Field("token", Undefined)])
  {
  }

  /** An engage payload without base state or token is sent as it was made. */
  lemma AssembleBareEngage(people: Props)
    ensures Assemble(Engage(people, Undefined, Undefined), [], [], Undefined) == Engage(people, Undefined, Undefined)
  {
  }

  /** An object of two kept members is written as both, comma-separated. */
  lemma TwoMembers(a: string, x: Value, tx: string, b: string, y: Value, ty: string)
    requires Json.Serialize(x) == Some(tx) && Json.Serialize(y) == Some(ty)
    ensures Json.Serialize(Obj([Field(a, x), Field(b, y)])) ==
      Some("{" + (Json.Quote(a) + ":" + tx) + "," + (Json.Quote(b) + ":" + ty) + "}")
  {
    var fs := [Field(a, x), Field(b, y)];
    assert fs[1..][1..] == [];
    assert Json.MemberTexts(fs[1..]) == [Json.Quote(b) + ":" + ty];
    var parts := [Json.Quote(a) + ":" + tx, Json.Quote(b) + ":" + ty];
    assert Json.MemberTexts(fs) == parts;
    assert parts[1..] == [parts[1]];
    assert Json.Join(parts) == parts[0] + "," + parts[1];
    assert "{" + Json.Join(parts) + "}" == "{" + parts[0] + "," + parts[1] + "}";
  }

  /** An object whose only kept member is the first is written as that
      member alone. */
  lemma FirstOfThree(a: string, x: Value, tx: string, b: string, c: string)
    requires Json.Serialize(x) == Some(tx)
    ensures Json.Serialize(Obj([Field(a, x), Field(b, Undefined), Field(c, Undefined)])) ==
      Some("{" + (Json.Quote(a) + ":" + tx) + "}")
  {
    var fs := [Field(a, x), Field(b, Undefined), Field(c, Undefined)];
    assert fs[1..][1..][1..] == [];
    assert Json.MemberTexts(fs[1..][1..]) == [];
    assert Json.MemberTexts(fs[1..]) == [];
    assert Json.MemberTexts(fs) == [Json.Quote(a) + ":" + tx];
  }

  /** An object whose one member is removed is written as `{}`. */
  lemma NoneKept(k: string)
    ensures Json.Serialize(Obj([Field(k, Undefined)])) == Some("{}")
  {
    assert [Field(k, Undefined)][1..] == [];
    assert Json.MemberTexts([Field(k, Undefined)]) == [];
    assert "{" + "" + "}" == "{}";
  }

  /** An object with one member whose value is a non-empty string. */
  lemma OneStringMember(k: string, v: string)
    requires v != ""
    ensures Json.Serialize(Obj([Field(k, Str(v))])) == Some("{" + (Json.Quote(k) + ":" + Json.Quote(v)) + "}")
  {
    var fs := [Field(k, Str(v))];
    assert fs[1..] == [];
    assert Json.MemberTexts(fs) == [Json.Quote(k) + ":" + Json.Quote(v)];
  }

  lemma QuotePlain(s: string, q: string)
    requires Plain(s) && q == ['"'] + s + ['"']
    ensures Json.Quote(s) == q
  {
    EscapePlain(s);
  }

  // ---------------------------------------------------------------------
  // The event request (the Beacon API case)

  const EventJson := "{\"event\":\"event\",\"properties\":{}}"
  const EventData := "eyJldmVudCI6ImV2ZW50IiwicHJvcGVydGllcyI6e319"

  /** The empty event assembles to properties holding only an `undefined`
      token, which the replacer drops. */
  lemma EventAssembled()
    ensures Assemble(Event("event", []), [], [], Undefined) == Event("event", [Field("token", Undefined)])
  {
    AssembleBare("event");
  }

  lemma EventMembers()
    ensures Stringify(Event("event", [Field("token", Undefined)])) ==
      "{" + (Json.Quote("event") + ":" + Json.Quote("event")) + "," + (Json.Quote("properties") + ":" + "{}") + "}"
  {
    NoneKept("token");
    TwoMembers("event", Str("event"), Json.Quote("event"), "properties", Obj([Field("token", Undefined)]), "{}");
  }

  lemma QuoteEvent()
    ensures Json.Quote("event") == "\"event\""
  {
    QuotePlain("event", "\"event\"");
  }

  lemma QuoteProperties()
    ensures Json.Quote("properties") == "\"properties\""
  {
    QuotePlain("properties", "\"properties\"");
  }

  lemma EventLiteral()
    ensures "{" + ("\"event\"" + ":" + "\"event\"") + "," + ("\"properties\"" + ":" + "{}") + "}" == EventJson
  {
  }

  /** The empty event assembles to properties holding only an `undefined`
      token, which the replacer drops. */
  lemma EventText()
    ensures Stringify(Assemble(Event("event", []), [], [], Undefined)) == EventJson
  {
    EventAssembled();
    EventMembers();
    QuoteEvent();
    QuoteProperties();
    EventLiteral();
  }

  const EventPieces: seq<string> := ["{\"even", "t\":\"ev", "ent\",\"", "proper", "ties\":", "{}}"]
  const EventGroups: seq<string> := ["eyJldmVu", "dCI6ImV2", "ZW50Iiwi", "cHJvcGVy", "dGllcyI6", "e319"]

  lemma EventPiece0(p: string, g: string)
    requires p == "{\"even" && g == "eyJldmVu"
    ensures EncodeBase64(p) == g && |Utf8.Encode(p)| == 6 && Alphanumeric(g)
  {
    assert EncodeBase64("{\"even") == "eyJldmVu" && |Utf8.Encode("{\"even")| == 6;
  }

  lemma EventPiece1(p: string, g: string)
    requires p == "t\":\"ev" && g == "dCI6ImV2"
    ensures EncodeBase64(p) == g && |Utf8.Encode(p)| == 6 && Alphanumeric(g)
  {
    assert EncodeBase64("t\":\"ev") == "dCI6ImV2" && |Utf8.Encode("t\":\"ev")| == 6;
  }

  lemma EventPiece2(p: string, g: string)
    requires p == "ent\",\"" && g == "ZW50Iiwi"
    ensures EncodeBase64(p) == g && |Utf8.Encode(p)| == 6 && Alphanumeric(g)
  {
    assert EncodeBase64("ent\",\"") == "ZW50Iiwi" && |Utf8.Encode("ent\",\"")| == 6;
  }

  lemma EventPiece3(p: string, g: string)
    requires p == "proper" && g == "cHJvcGVy"
    ensures EncodeBase64(p) == g && |Utf8.Encode(p)| == 6 && Alphanumeric(g)
  {
    assert EncodeBase64("proper") == "cHJvcGVy" && |Utf8.Encode("proper")| == 6;
  }

  lemma EventPiece4(p: string, g: string)
    requires p == "ties\":" && g == "dGllcyI6"
    ensures EncodeBase64(p) == g && |Utf8.Encode(p)| == 6 && Alphanumeric(g)
  {
    assert EncodeBase64("ties\":") == "dGllcyI6" && |Utf8.Encode("ties\":")| == 6;
  }

  lemma EventPiece5(p: string, g: string)
    requires p == "{}}" && g == "e319"
    ensures EncodeBase64(p) == g && Alphanumeric(g)
  {
    assert EncodeBase64("{}}") == "e319";
  }

  /** The pieces encode group by group. */
  lemma EventPiecesEncode(ps: seq<string>, gs: seq<string>)
    requires ps == EventPieces && gs == EventGroups
    ensures EncodeBase64(ps[0] + (ps[1] + (ps[2] + (ps[3] + (ps[4] + ps[5]))))) == gs[0] + (gs[1] + (gs[2] + (gs[3] + (gs[4] + gs[5]))))
    ensures Percent.EncodeURIComponent(gs[0] + (gs[1] + (gs[2] + (gs[3] + (gs[4] + gs[5]))))) == gs[0] + (gs[1] + (gs[2] + (gs[3] + (gs[4] + gs[5]))))
  {
    EventPiece0(ps[0], gs[0]); EventPiece1(ps[1], gs[1]); EventPiece2(ps[2], gs[2]);
    EventPiece3(ps[3], gs[3]); EventPiece4(ps[4], gs[4]); EventPiece5(ps[5], gs[5]);
    PrependGroups(ps[4], gs[4], ps[5], gs[5]);
    PrependGroups(ps[3], gs[3], (ps[4] + ps[5]), (gs[4] + gs[5]));
    PrependGroups(ps[2], gs[2], (ps[3] + (ps[4] + ps[5])), (gs[3] + (gs[4] + gs[5])));
    PrependGroups(ps[1], gs[1], (ps[2] + (ps[3] + (ps[4] + ps[5]))), (gs[2] + (gs[3] + (gs[4] + gs[5]))));
    PrependGroups(ps[0], gs[0], (ps[1] + (ps[2] + (ps[3] + (ps[4] + ps[5])))), (gs[1] + (gs[2] + (gs[3] + (gs[4] + gs[5])))));
    EncodeAlphanumeric(gs[5]);
    PrependAlphanumeric(gs[4], gs[5]);
    PrependAlphanumeric(gs[3], (gs[4] + gs[5]));
    PrependAlphanumeric(gs[2], (gs[3] + (gs[4] + gs[5])));
    PrependAlphanumeric(gs[1], (gs[2] + (gs[3] + (gs[4] + gs[5]))));
    PrependAlphanumeric(gs[0], (gs[1] + (gs[2] + (gs[3] + (gs[4] + gs[5])))));
  }

  lemma EventJsonPieces()
    ensures EventPieces[0] + (EventPieces[1] + (EventPieces[2] + (EventPieces[3] + (EventPieces[4] + EventPieces[5])))) == EventJson
  {
  }

  lemma EventDataPieces()
    ensures EventGroups[0] + (EventGroups[1] + (EventGroups[2] + (EventGroups[3] + (EventGroups[4] + EventGroups[5])))) == EventData
  {
  }

  /** The `data` parameter of the request. */
  lemma EventParam()
    ensures Percent.EncodeURIComponent(EncodeBase64(EventJson)) == EventData
  {
    EventPiecesEncode(EventPieces, EventGroups);
    EventJsonPieces();
    EventDataPieces();
  }

  /** The URL of the Beacon API test: the tracking endpoint, the query, the
      base 64 of `{"event":"event","properties":{}}`, and the timestamp. */
  lemma EventUrl()
    ensures RequestUrl(DefaultEndpoints, Event("event", []), [], [], Undefined, Time) ==
      "https://api.mixpanel.com/track" + "?ip=1&verbose=1&data=" + EventData + "&_=" + "1686584284103"
  {
    EventText();
    EventParam();
    TimeText();
  }

  // ---------------------------------------------------------------------
  // The engage request (the Engage API case)

  const People := [Field("test", Str("test"))]
  const EngageJson := "{\"$set\":{\"test\":\"test\"}}"
  const EngageData := "eyIkc2V0Ijp7InRlc3QiOiJ0ZXN0In19"

  lemma EngageMembers()
    ensures Stringify(Engage(People, Undefined, Undefined)) ==
      "{" + (Json.Quote("$set") + ":" + ("{" + (Json.Quote("test") + ":" + Json.Quote("test")) + "}")) + "}"
  {
    OneStringMember("test", "test");
    FirstOfThree("$set", Obj(People), "{" + (Json.Quote("test") + ":" + Json.Quote("test")) + "}", "$distinct_id", "$token");
  }

  lemma QuoteTest()
    ensures Json.Quote("test") == "\"test\""
  {
    QuotePlain("test", "\"test\"");
  }

  lemma QuoteSet()
    ensures Json.Quote("$set") == "\"$set\""
  {
    QuotePlain("$set", "\"$set\"");
  }

  lemma EngageLiteral()
    ensures "{" + ("\"$set\"" + ":" + ("{" + ("\"test\"" + ":" + "\"test\"") + "}")) + "}" == EngageJson
  {
  }

  /** The engage payload carries no token and no identifier here, so only
      `$set` is written. */
  lemma EngageText()
    ensures Stringify(Assemble(Engage(People, Undefined, Undefined), [], [], Undefined)) == EngageJson
  {
    AssembleBareEngage(People);
    EngageMembers();
    QuoteTest();
    QuoteSet();
    EngageLiteral();
  }

  const EngagePieces: seq<string> := ["{\"$set", "\":{\"te", "st\":\"t", "est\"}}"]
  const EngageGroups: seq<string> := ["eyIkc2V0", "Ijp7InRl", "c3QiOiJ0", "ZXN0In19"]

  lemma EngagePiece0(p: string, g: string)
    requires p == "{\"$set" && g == "eyIkc2V0"
    ensures EncodeBase64(p) == g && |Utf8.Encode(p)| == 6 && Alphanumeric(g)
  {
    assert EncodeBase64("{\"$set") == "eyIkc2V0" && |Utf8.Encode("{\"$set")| == 6;
  }

  lemma EngagePiece1(p: string, g: string)
    requires p == "\":{\"te" && g == "Ijp7InRl"
    ensures EncodeBase64(p) == g && |Utf8.Encode(p)| == 6 && Alphanumeric(g)
  {
    assert EncodeBase64("\":{\"te") == "Ijp7InRl" && |Utf8.Encode("\":{\"te")| == 6;
  }

  lemma EngagePiece2(p: string, g: string)
    requires p == "st\":\"t" && g == "c3QiOiJ0"
    ensures EncodeBase64(p) == g && |Utf8.Encode(p)| == 6 && Alphanumeric(g)
  {
    assert EncodeBase64("st\":\"t") == "c3QiOiJ0" && |Utf8.Encode("st\":\"t")| == 6;
  }

  lemma EngagePiece3(p: string, g: string)
    requires p == "est\"}}" && g == "ZXN0In19"
    ensures EncodeBase64(p) == g && |Utf8.Encode(p)| == 6 && Alphanumeric(g)
  {
    assert EncodeBase64("est\"}}") == "ZXN0In19" && |Utf8.Encode("est\"}}")| == 6;
  }

  /** The pieces encode group by group. */
  lemma EngagePiecesEncode(ps: seq<string>, gs: seq<string>)
    requires ps == EngagePieces && gs == EngageGroups
    ensures EncodeBase64(ps[0] + (ps[1] + (ps[2] + ps[3]))) == gs[0] + (gs[1] + (gs[2] + gs[3]))
    ensures Percent.EncodeURIComponent(gs[0] + (gs[1] + (gs[2] + gs[3]))) == gs[0] + (gs[1] + (gs[2] + gs[3]))
  {
    EngagePiece0(ps[0], gs[0]); EngagePiece1(ps[1], gs[1]); EngagePiece2(ps[2], gs[2]);
    EngagePiece3(ps[3], gs[3]);
    PrependGroups(ps[2], gs[2], ps[3], gs[3]);
    PrependGroups(ps[1], gs[1], (ps[2] + ps[3]), (gs[2] + gs[3]));
    PrependGroups(ps[0], gs[0], (ps[1] + (ps[2] + ps[3])), (gs[1] + (gs[2] + gs[3])));
    EncodeAlphanumeric(gs[3]);
    PrependAlphanumeric(gs[2], gs[3]);
    PrependAlphanumeric(gs[1], (gs[2] + gs[3]));
    PrependAlphanumeric(gs[0], (gs[1] + (gs[2] + gs[3])));
  }

  lemma EngageJsonPieces()
    ensures EngagePieces[0] + (EngagePieces[1] + (EngagePieces[2] + EngagePieces[3])) == EngageJson
  {
  }

  lemma EngageDataPieces()
    ensures EngageGroups[0] + (EngageGroups[1] + (EngageGroups[2] + EngageGroups[3])) == EngageData
  {
  }

  /** The `data` parameter of the request. */
  lemma EngageParam()
    ensures Percent.EncodeURIComponent(EncodeBase64(EngageJson)) == EngageData
  {
    EngagePiecesEncode(EngagePieces, EngageGroups);
    EngageJsonPieces();
    EngageDataPieces();
  }

  /** The URL of the Engage API test: the engage endpoint and the base 64 of
      `{"$set":{"test":"test"}}`. */
  lemma EngageUrl()
    ensures RequestUrl(DefaultEndpoints, Engage(People, Undefined, Undefined), [], [], Undefined, Time) ==
      "https://api.mixpanel.com/engage" + "?ip=1&verbose=1&data=" + EngageData + "&_=" + "1686584284103"
  {
    EngageText();
    EngageParam();
    TimeText();
  }
}
