/** User-agent classification (src/agent.ts). Every regular expression there
    is a literal keyword or an alternation of keywords, so each test is a
    substring test; `/Windows/i` and `/Mac/i` ignore ASCII case, which is all
    the case folding a non-Unicode regular expression can apply to an ASCII
    pattern. The classifiers are first-match-wins decision lists. */
module Agent {
  import opened JsValue

  /** `p` occurs in `s` starting at index `i`. */
  predicate OccursAt(s: string, p: string, i: int) {
    0 <= i && i + |p| <= |s| && s[i..i + |p|] == p
  }

  /** `/p/.test(s)` for a pattern `p` without metacharacters. */
  predicate Contains(s: string, p: string) {
    exists j :: 0 <= j <= |s| - |p| && OccursAt(s, p, j)
  }

  /** A keyword with a character the text lacks is not in the text. */
  lemma Lacks(s: string, p: string, k: int)
    requires 0 <= k < |p| && p[k] !in s
    ensures !Contains(s, p)
  {
  }

  /** An occurrence at a known position. */
  lemma Present(s: string, p: string, j: int)
    requires OccursAt(s, p, j)
    ensures Contains(s, p)
  {
  }

  /** A text contains each of its prefixes. */
  lemma PrefixPresent(s: string, p: string)
    requires p <= s
    ensures Contains(s, p)
  {
    assert OccursAt(s, p, 0);
  }

  function LowerAscii(c: char): char {
    if 'A' <= c <= 'Z' then ((c as int) + 32) as char else c
  }

  function Lower(s: string): (r: string)
    ensures |r| == |s|
  {
    if s == [] then [] else [LowerAscii(s[0])] + Lower(s[1..])
  }

  /** `/p/i.test(s)` for an ASCII keyword `p`. */
  predicate ContainsIgnoreCase(s: string, p: string) {
    Contains(Lower(s), Lower(p))
  }

  // ---------------------------------------------------------------------
  // Decision lists: the reference the classifiers below are checked against

  /** One test of a classifier: a keyword, a keyword ignoring ASCII case, any
      of several keywords, or the `opera` global flag together with a keyword. */
  datatype Test =
    | Word(w: string)
    | WordIgnoringCase(w: string)
    | AnyWord(ws: seq<string>)
    | FlagOrWord(w: string)

  /** A second keyword that turns the rule's result into another name. */
  datatype Variant = Variant(word: string, name: string)

  datatype Rule = Rule(test: Test, name: string, variant: Option<Variant>)

  predicate Matches(ua: string, flag: bool, t: Test) {
    match t
    case Word(w) => Contains(ua, w)
    case WordIgnoringCase(w) => ContainsIgnoreCase(ua, w)
    case AnyWord(ws) => exists i :: 0 <= i < |ws| && Contains(ua, ws[i])
    case FlagOrWord(w) => flag || Contains(ua, w)
  }

  /** The name a matching rule gives. */
  function Outcome(ua: string, rule: Rule): string {
    match rule.variant
    case None => rule.name
    case Some(v) => if Contains(ua, v.word) then v.name else rule.name
  }

  /** Rule `i` is the first rule whose test holds. */
  predicate FirstMatching(rules: seq<Rule>, ua: string, flag: bool, i: int) {
    0 <= i < |rules| && Matches(ua, flag, rules[i].test) &&
    forall j :: 0 <= j < i ==> !Matches(ua, flag, rules[j].test)
  }

  /** `r` is what the decision list says: the name given by the first rule
      whose test holds, or null when no test holds. */
  predicate DecidedBy(rules: seq<Rule>, ua: string, flag: bool, r: Option<string>) {
    (r.None? <==> forall i :: 0 <= i < |rules| ==> !Matches(ua, flag, rules[i].test)) &&
    (r.Some? ==> exists i :: 0 <= i < |rules| && FirstMatching(rules, ua, flag, i) && Outcome(ua, rules[i]) == r.value)
  }

  /** Running a decision list: try the rules in order, from rule `i` on. */
  function DecideFrom(rules: seq<Rule>, ua: string, flag: bool, i: nat): Option<string>
    decreases |rules| - i
  {
    if i >= |rules| then None
    else if Matches(ua, flag, rules[i].test) then Some(Outcome(ua, rules[i]))
    else DecideFrom(rules, ua, flag, i + 1)
  }

  function Decide(rules: seq<Rule>, ua: string, flag: bool): Option<string> {
    DecideFrom(rules, ua, flag, 0)
  }

  /** No rule from `i` up to (not including) `k` matches. */
  predicate NoneMatch(rules: seq<Rule>, ua: string, flag: bool, i: int, k: int) {
    forall j :: i <= j < k && 0 <= j < |rules| ==> !Matches(ua, flag, rules[j].test)
  }

  lemma {:induction false} DecideFromIsFirstMatch(rules: seq<Rule>, ua: string, flag: bool, i: nat)
    requires i <= |rules|
    ensures DecideFrom(rules, ua, flag, i).None? <==> NoneMatch(rules, ua, flag, i, |rules|)
    ensures DecideFrom(rules, ua, flag, i).Some? ==>
      exists k :: i <= k < |rules| && Matches(ua, flag, rules[k].test) && NoneMatch(rules, ua, flag, i, k)
        && Outcome(ua, rules[k]) == DecideFrom(rules, ua, flag, i).value
    decreases |rules| - i
  {
    if i < |rules| && !Matches(ua, flag, rules[i].test) {
      DecideFromIsFirstMatch(rules, ua, flag, i + 1);
      var r := DecideFrom(rules, ua, flag, i);
      if r.Some? {
        var k :| i + 1 <= k < |rules| && Matches(ua, flag, rules[k].test) && NoneMatch(rules, ua, flag, i + 1, k)
          && Outcome(ua, rules[k]) == r.value;
        assert NoneMatch(rules, ua, flag, i, k);
      }
    } else if i < |rules| {
      assert NoneMatch(rules, ua, flag, i, i);
    }
  }

  /** Running the list in order gives what the declarative reading says. */
  lemma DecideIsFirstMatch(rules: seq<Rule>, ua: string, flag: bool)
    ensures DecidedBy(rules, ua, flag, Decide(rules, ua, flag))
  {
    DecideFromIsFirstMatch(rules, ua, flag, 0);
    var r := Decide(rules, ua, flag);
    if r.Some? {
      var k :| 0 <= k < |rules| && Matches(ua, flag, rules[k].test) && NoneMatch(rules, ua, flag, 0, k)
        && Outcome(ua, rules[k]) == r.value;
      assert FirstMatching(rules, ua, flag, k);
    }
  }

  // ---------------------------------------------------------------------
  // getDevice

  const DeviceRules: seq<Rule> := [
    Rule(Word("iPad"), "iPad", None),
    Rule(Word("iPod"), "iPod Touch", None),
    Rule(Word("iPhone"), "iPhone", None),
    Rule(Word("Android"), "Android", None)
  ]

  function GetDevice(ua: string): Option<string> {
    if Contains(ua, "iPad") then Some("iPad")
    else if Contains(ua, "iPod") then Some("iPod Touch")
    else if Contains(ua, "iPhone") then Some("iPhone")
    else if Contains(ua, "Android") then Some("Android")
    else None
  }

  // ---------------------------------------------------------------------
  // getOS

  const AppleMobileWords: seq<string> := ["iPhone", "iPad", "iPod"]

  const OSRules: seq<Rule> := [
    Rule(WordIgnoringCase("Windows"), "Windows", None),
    Rule(AnyWord(AppleMobileWords), "iOS", None),
    Rule(Word("Android"), "Android", None),
    Rule(WordIgnoringCase("Mac"), "Mac OS X", None),
    Rule(Word("Linux"), "Linux", None),
    Rule(Word("CrOS"), "Chrome OS", None)
  ]

  predicate AppleMobile(ua: string) {
    Contains(ua, "iPhone") || Contains(ua, "iPad") || Contains(ua, "iPod")
  }

  function GetOS(ua: string): Option<string> {
    if ContainsIgnoreCase(ua, "Windows") then Some("Windows")
    else if AppleMobile(ua) then Some("iOS")
    else if Contains(ua, "Android") then Some("Android")
    else if ContainsIgnoreCase(ua, "Mac") then Some("Mac OS X")
    else if Contains(ua, "Linux") then Some("Linux")
    else if Contains(ua, "CrOS") then Some("Chrome OS")
    else None
  }

  // ---------------------------------------------------------------------
  // getBrowser

  const UCWords: seq<string> := ["UCWEB", "UCBrowser"]
  const IEWords: seq<string> := ["MSIE", "Trident/"]

  /** The tests in order: many user agents carry keywords of browsers tested
      later, so the order decides the result. */
  const BrowserRules: seq<Rule> := [
    Rule(FlagOrWord(" OPR/"), "Opera", Some(Variant("Mini", "Opera Mini"))),
    Rule(Word("Edge"), "Microsoft Edge", None),
    Rule(Word("FBIOS"), "Facebook Mobile", None),
    Rule(Word("Chrome"), "Chrome", None),
    Rule(Word("SamsungBrowser/"), "Samsung Internet", None),
    Rule(Word("CriOS"), "Chrome iOS", None),
    Rule(AnyWord(UCWords), "UC Browser", None),
    Rule(Word("FxiOS"), "Firefox iOS", None),
    Rule(Word("Safari"), "Safari", Some(Variant("Mobile", "Mobile Safari"))),
    Rule(Word("Android"), "Android Mobile", None),
    Rule(Word("Konqueror"), "Konqueror", None),
    Rule(Word("Firefox"), "Firefox", None),
    Rule(AnyWord(IEWords), "Internet Explorer", None),
    Rule(Word("Gecko"), "Mozilla", None)
  ]

  /** The Opera test: the `'opera' in window` global (a parameter here) or
      the " OPR/" keyword. */
  predicate IsOpera(ua: string, operaGlobal: bool) {
    operaGlobal || Contains(ua, " OPR/")
  }

  predicate IsUC(ua: string) {
    Contains(ua, "UCWEB") || Contains(ua, "UCBrowser")
  }

  predicate IsIE(ua: string) {
    Contains(ua, "MSIE") || Contains(ua, "Trident/")
  }

  lemma AlternativesMatch(ua: string)
    ensures AppleMobile(ua) <==> Matches(ua, false, AnyWord(AppleMobileWords))
    ensures IsUC(ua) <==> Matches(ua, false, AnyWord(UCWords))
    ensures IsIE(ua) <==> Matches(ua, false, AnyWord(IEWords))
  {
    if Contains(ua, "iPhone") { assert Contains(ua, AppleMobileWords[0]); }
    if Contains(ua, "iPad") { assert Contains(ua, AppleMobileWords[1]); }
    if Contains(ua, "iPod") { assert Contains(ua, AppleMobileWords[2]); }
    if Contains(ua, "UCWEB") { assert Contains(ua, UCWords[0]); }
    if Contains(ua, "UCBrowser") { assert Contains(ua, UCWords[1]); }
    if Contains(ua, "MSIE") { assert Contains(ua, IEWords[0]); }
    if Contains(ua, "Trident/") { assert Contains(ua, IEWords[1]); }
  }

  /** The second half of the browser list, from the Firefox iOS test on. */
  function LaterBrowser(ua: string): Option<string> {
    if Contains(ua, "FxiOS") then Some("Firefox iOS")
    else if Contains(ua, "Safari") then (if Contains(ua, "Mobile") then Some("Mobile Safari") else Some("Safari"))
    else if Contains(ua, "Android") then Some("Android Mobile")
    else if Contains(ua, "Konqueror") then Some("Konqueror")
    else if Contains(ua, "Firefox") then Some("Firefox")
    else if IsIE(ua) then Some("Internet Explorer")
    else if Contains(ua, "Gecko") then Some("Mozilla")
    else None
  }

  /** The tests in the order of `BrowserRules`; the second half is
      `LaterBrowser`. */
  function GetBrowser(ua: string, operaGlobal: bool): Option<string> {
    if IsOpera(ua, operaGlobal) then (if Contains(ua, "Mini") then Some("Opera Mini") else Some("Opera"))
    else if Contains(ua, "Edge") then Some("Microsoft Edge")
    else if Contains(ua, "FBIOS") then Some("Facebook Mobile")
    else if Contains(ua, "Chrome") then Some("Chrome")
    else if Contains(ua, "SamsungBrowser/") then Some("Samsung Internet")
    else if Contains(ua, "CriOS") then Some("Chrome iOS")
    else if IsUC(ua) then Some("UC Browser")
    else LaterBrowser(ua)
  }

  /** Each classifier is its decision list run in order, so it returns the
      name of the first rule whose test holds and null when none holds. */
  lemma DeviceDecided(ua: string)
    ensures GetDevice(ua) == Decide(DeviceRules, ua, false)
    ensures DecidedBy(DeviceRules, ua, false, GetDevice(ua))
  {
    DecideIsFirstMatch(DeviceRules, ua, false);
  }

  lemma OSDecided(ua: string)
    ensures GetOS(ua) == Decide(OSRules, ua, false)
    ensures DecidedBy(OSRules, ua, false, GetOS(ua))
  {
    OSRunsRules(ua);
    DecideIsFirstMatch(OSRules, ua, false);
  }

  lemma OSRunsRules(ua: string)
    ensures GetOS(ua) == Decide(OSRules, ua, false)
  {
    AlternativesMatch(ua);
    var rs := OSRules;
    assert DecideFrom(rs, ua, false, 5) == (if Contains(ua, "CrOS") then Some("Chrome OS") else None);
    assert DecideFrom(rs, ua, false, 4) == (if Contains(ua, "Linux") then Some("Linux") else DecideFrom(rs, ua, false, 5));
    assert DecideFrom(rs, ua, false, 3) == (if ContainsIgnoreCase(ua, "Mac") then Some("Mac OS X") else DecideFrom(rs, ua, false, 4));
    assert DecideFrom(rs, ua, false, 2) == (if Contains(ua, "Android") then Some("Android") else DecideFrom(rs, ua, false, 3));
    assert DecideFrom(rs, ua, false, 1) == (if AppleMobile(ua) then Some("iOS") else DecideFrom(rs, ua, false, 2));
  }

  lemma BrowserDecided(ua: string, operaGlobal: bool)
    ensures GetBrowser(ua, operaGlobal) == Decide(BrowserRules, ua, operaGlobal)
    ensures DecidedBy(BrowserRules, ua, operaGlobal, GetBrowser(ua, operaGlobal))
  {
    BrowserRunsRules(ua, operaGlobal);
    DecideIsFirstMatch(BrowserRules, ua, operaGlobal);
  }

  lemma LaterBrowserRunsRules(ua: string, operaGlobal: bool)
    ensures LaterBrowser(ua) == DecideFrom(BrowserRules, ua, operaGlobal, 7)
  {
    AlternativesMatch(ua);
    var rs := BrowserRules;
    assert DecideFrom(rs, ua, operaGlobal, 13) == (if Contains(ua, "Gecko") then Some("Mozilla") else None);
    assert DecideFrom(rs, ua, operaGlobal, 12) == (if IsIE(ua) then Some("Internet Explorer") else DecideFrom(rs, ua, operaGlobal, 13));
    assert DecideFrom(rs, ua, operaGlobal, 11) == (if Contains(ua, "Firefox") then Some("Firefox") else DecideFrom(rs, ua, operaGlobal, 12));
    assert DecideFrom(rs, ua, operaGlobal, 10) == (if Contains(ua, "Konqueror") then Some("Konqueror") else DecideFrom(rs, ua, operaGlobal, 11));
    assert DecideFrom(rs, ua, operaGlobal, 9) == (if Contains(ua, "Android") then Some("Android Mobile") else DecideFrom(rs, ua, operaGlobal, 10));
    assert DecideFrom(rs, ua, operaGlobal, 8) == (if Contains(ua, "Safari") then (if Contains(ua, "Mobile") then Some("Mobile Safari") else Some("Safari")) else DecideFrom(rs, ua, operaGlobal, 9));
    assert DecideFrom(rs, ua, operaGlobal, 7) == (if Contains(ua, "FxiOS") then Some("Firefox iOS") else DecideFrom(rs, ua, operaGlobal, 8));
  }

  lemma BrowserRunsRules(ua: string, operaGlobal: bool)
    ensures GetBrowser(ua, operaGlobal) == Decide(BrowserRules, ua, operaGlobal)
  {
    AlternativesMatch(ua);
    LaterBrowserRunsRules(ua, operaGlobal);
    var rs := BrowserRules;
    assert DecideFrom(rs, ua, operaGlobal, 6) == (if IsUC(ua) then Some("UC Browser") else DecideFrom(rs, ua, operaGlobal, 7));
    assert DecideFrom(rs, ua, operaGlobal, 5) == (if Contains(ua, "CriOS") then Some("Chrome iOS") else DecideFrom(rs, ua, operaGlobal, 6));
    assert DecideFrom(rs, ua, operaGlobal, 4) == (if Contains(ua, "SamsungBrowser/") then Some("Samsung Internet") else DecideFrom(rs, ua, operaGlobal, 5));
    assert DecideFrom(rs, ua, operaGlobal, 3) == (if Contains(ua, "Chrome") then Some("Chrome") else DecideFrom(rs, ua, operaGlobal, 4));
    assert DecideFrom(rs, ua, operaGlobal, 2) == (if Contains(ua, "FBIOS") then Some("Facebook Mobile") else DecideFrom(rs, ua, operaGlobal, 3));
    assert DecideFrom(rs, ua, operaGlobal, 1) == (if Contains(ua, "Edge") then Some("Microsoft Edge") else DecideFrom(rs, ua, operaGlobal, 2));
  }

  /** Any keyword the browser tests look for. */
  predicate AnyBrowserKeyword(ua: string) {
    Contains(ua, "Edge") || Contains(ua, "FBIOS") || Contains(ua, "Chrome")
    || Contains(ua, "SamsungBrowser/") || Contains(ua, "CriOS") || IsUC(ua)
    || Contains(ua, "FxiOS") || Contains(ua, "Safari") || Contains(ua, "Android")
    || Contains(ua, "Konqueror") || Contains(ua, "Firefox") || IsIE(ua) || Contains(ua, "Gecko")
  }

  /** Opera wins over every other keyword; "Mini" alone decides between
      Opera Mini and Opera. */
  lemma OperaFirst(ua: string, operaGlobal: bool)
    requires IsOpera(ua, operaGlobal)
    ensures GetBrowser(ua, operaGlobal) == Some("Opera Mini") <==> Contains(ua, "Mini")
    ensures GetBrowser(ua, operaGlobal) == Some("Opera") <==> !Contains(ua, "Mini")
  {
  }

  /** A "Chrome" user agent that is not Opera, Edge or the Facebook app is
      always Chrome, so the Samsung Internet and Chrome iOS results are only
      reachable without "Chrome". */
  lemma ChromeShadowsLaterTests(ua: string, operaGlobal: bool)
    ensures (Contains(ua, "Chrome") && !IsOpera(ua, operaGlobal) && !Contains(ua, "Edge")
             && !Contains(ua, "FBIOS")) ==> GetBrowser(ua, operaGlobal) == Some("Chrome")
    ensures GetBrowser(ua, operaGlobal) == Some("Samsung Internet") ==>
      !Contains(ua, "Chrome") && Contains(ua, "SamsungBrowser/")
    ensures GetBrowser(ua, operaGlobal) == Some("Chrome iOS") ==>
      !Contains(ua, "Chrome") && Contains(ua, "CriOS")
  {
  }

  /** A Safari result is Mobile Safari exactly when "Mobile" is present, and
      the result is null exactly when no test matches. */
  lemma SafariAndNull(ua: string, operaGlobal: bool)
    ensures var r := GetBrowser(ua, operaGlobal);
      (r == Some("Mobile Safari") || r == Some("Safari")) ==>
        Contains(ua, "Safari") && (r == Some("Mobile Safari") <==> Contains(ua, "Mobile"))
    ensures GetBrowser(ua, operaGlobal) == None <==>
      !IsOpera(ua, operaGlobal) && !AnyBrowserKeyword(ua)
  {
  }

  // ---------------------------------------------------------------------
  // getReferringDomain

  /** `s.split(sep)` for a one-character separator. */
  function Split(s: string, sep: char): (parts: seq<string>)
    ensures |parts| >= 1
    decreases |s|
  {
    if s == [] then [""]
    else
      var rest := Split(s[1..], sep);
      if s[0] == sep then [""] + rest else [[s[0]] + rest[0]] + rest[1..]
  }

  /** `parts.join(sep)`. */
  function JoinWith(parts: seq<string>, sep: char): string
    requires |parts| >= 1
  {
    if |parts| == 1 then parts[0] else parts[0] + [sep] + JoinWith(parts[1..], sep)
  }

  function Count(s: string, c: char): nat {
    if s == [] then 0 else (if s[0] == c then 1 else 0) + Count(s[1..], c)
  }

  /** Splitting and joining again gives the text back; no piece contains the
      separator; there is one more piece than there are separators. */
  lemma {:induction false} SplitJoin(s: string, sep: char)
    ensures JoinWith(Split(s, sep), sep) == s
    ensures forall i :: 0 <= i < |Split(s, sep)| ==> sep !in Split(s, sep)[i]
    ensures |Split(s, sep)| == Count(s, sep) + 1
    decreases |s|
  {
    if s != [] {
      SplitJoin(s[1..], sep);
      var rest := Split(s[1..], sep);
      if s[0] == sep {
        assert ([""] + rest)[1..] == rest;
      } else {
        var parts := [[s[0]] + rest[0]] + rest[1..];
        if |rest| > 1 {
          assert parts[1..] == rest[1..];
          assert JoinWith(rest, sep) == rest[0] + [sep] + JoinWith(rest[1..], sep);
        }
        forall i | 0 <= i < |parts|
          ensures sep !in parts[i]
        {
          if i > 0 {
            assert parts[i] == rest[i];
          }
        }
      }
    }
  }

  /** A text without the separator is one piece. */
  lemma {:induction false} SplitWhole(a: string, sep: char)
    requires sep !in a
    ensures Split(a, sep) == [a]
    decreases |a|
  {
    if a != [] {
      SplitWhole(a[1..], sep);
      assert [a[0]] + a[1..] == a;
    }
  }

  /** The piece before the first separator comes off the front. */
  lemma {:induction false} SplitFirst(a: string, sep: char, rest: string)
    requires sep !in a
    ensures Split(a + [sep] + rest, sep) == [a] + Split(rest, sep)
    decreases |a|
  {
    var s := a + [sep] + rest;
    if a == [] {
      assert s[0] == sep && s[1..] == rest;
    } else {
      SplitFirst(a[1..], sep, rest);
      assert s[0] == a[0] && s[1..] == a[1..] + [sep] + rest;
      assert [a[0]] + a[1..] == a;
    }
  }

  /** `getReferringDomain()` with `document.referrer` as a parameter: the third
      '/'-separated piece, when there is one. */
  function GetReferringDomain(referrer: string): Option<string> {
    var parts := Split(referrer, '/');
    if |parts| >= 3 then Some(parts[2]) else None
  }

  /** What follows the third piece of a joined text: nothing, or a separator
      and the remaining pieces. */
  function TailAfterThird(parts: seq<string>, sep: char): string
    requires |parts| >= 3
  {
    if |parts| == 3 then [] else [sep] + JoinWith(parts[3..], sep)
  }

  lemma JoinThree(parts: seq<string>, sep: char)
    requires |parts| >= 3
    ensures JoinWith(parts, sep) ==
      parts[0] + [sep] + parts[1] + [sep] + parts[2] + TailAfterThird(parts, sep)
  {
    var j2 := JoinWith(parts[2..], sep);
    if |parts| > 3 {
      assert parts[2..][1..] == parts[3..];
    } else {
      assert parts[2..] == [parts[2]];
    }
    assert j2 == parts[2] + TailAfterThird(parts, sep);
    assert parts[1..][1..] == parts[2..];
    var j1 := JoinWith(parts[1..], sep);
    assert j1 == parts[1] + [sep] + j2;
    assert JoinWith(parts, sep) == parts[0] + [sep] + j1;
  }

  /** The referring domain exists iff the referrer has at least two '/'. */
  lemma ReferringDomainPresence(referrer: string)
    ensures GetReferringDomain(referrer).Some? <==> Count(referrer, '/') >= 2
  {
    SplitJoin(referrer, '/');
  }

  /** `referrer` is `a/b/d` followed by nothing or by a '/' and more, where
      `a`, `b` and `d` hold no '/'. */
  predicate ThirdPiece(referrer: string, a: string, b: string, d: string, tail: string) {
    '/' !in a && '/' !in b && '/' !in d && (tail == [] || tail[0] == '/') &&
    referrer == a + ['/'] + b + ['/'] + d + tail
  }

  /** The referring domain, when there is one, is the text between the second
      '/' and the next '/' (or the end). */
  lemma ReferringDomainLocation(referrer: string, d: string)
    requires GetReferringDomain(referrer) == Some(d)
    ensures exists a, b, tail :: ThirdPiece(referrer, a, b, d, tail)
  {
    var parts := Split(referrer, '/');
    SplitJoin(referrer, '/');
    JoinThree(parts, '/');
    assert ThirdPiece(referrer, parts[0], parts[1], d, TailAfterThird(parts, '/'));
  }

  /** Conversely, the text between the second '/' and the next one is the
      referring domain. */
  lemma ThirdPieceIsDomain(referrer: string, a: string, b: string, d: string, tail: string)
    requires ThirdPiece(referrer, a, b, d, tail)
    ensures GetReferringDomain(referrer) == Some(d)
  {
    var rest := b + ['/'] + d + tail;
    assert referrer == a + ['/'] + rest;
    SplitFirst(a, '/', rest);
    assert rest == b + ['/'] + (d + tail);
    SplitFirst(b, '/', d + tail);
    if tail == [] {
      SplitWhole(d, '/');
      assert d + tail == d;
      assert Split(referrer, '/') == [a] + ([b] + [d]);
    } else {
      assert d + tail == d + ['/'] + tail[1..];
      SplitFirst(d, '/', tail[1..]);
      assert Split(referrer, '/') == [a] + ([b] + ([d] + Split(tail[1..], '/')));
    }
  }

  // ---------------------------------------------------------------------
  // getDoNotTrack

  /** `${navigator.doNotTrack}` === '1', with the navigator value as a parameter. */
  function GetDoNotTrack(doNotTrack: Value): (r: bool)
    ensures r <==> PrintsAsOne(doNotTrack)
  {
    ToTextIsOne(doNotTrack);
    ToText(doNotTrack) == "1"
  }

  // ---------------------------------------------------------------------
  // The cases of src/__tests__/agent.test.ts; each keyword test is settled
  // by an occurrence or by a character the text lacks.

  /** The device test vectors. */
  lemma DeviceIPad()
    ensures GetDevice("iPad") == Some("iPad")
  {
    assert Contains("iPad", "iPad") by { PrefixPresent("iPad", "iPad"); }
  }

  lemma DeviceIPod()
    ensures GetDevice("iPod") == Some("iPod Touch")
  {
    assert !Contains("iPod", "iPad") by { Lacks("iPod", "iPad", 2); }
    assert Contains("iPod", "iPod") by { PrefixPresent("iPod", "iPod"); }
  }

  lemma DeviceIPhone()
    ensures GetDevice("iPhone") == Some("iPhone")
  {
    assert !Contains("iPhone", "iPad") by { Lacks("iPhone", "iPad", 2); }
    assert !Contains("iPhone", "iPod") by { Lacks("iPhone", "iPod", 3); }
    assert Contains("iPhone", "iPhone") by { PrefixPresent("iPhone", "iPhone"); }
  }

  lemma DeviceAndroid()
    ensures GetDevice("Android") == Some("Android")
  {
    assert !Contains("Android", "iPad") by { Lacks("Android", "iPad", 1); }
    assert !Contains("Android", "iPod") by { Lacks("Android", "iPod", 1); }
    assert !Contains("Android", "iPhone") by { Lacks("Android", "iPhone", 1); }
    assert Contains("Android", "Android") by { PrefixPresent("Android", "Android"); }
  }

  lemma DeviceUnknown()
    ensures GetDevice("---") == None
  {
    assert !Contains("---", "iPad") by { Lacks("---", "iPad", 0); }
    assert !Contains("---", "iPod") by { Lacks("---", "iPod", 0); }
    assert !Contains("---", "iPhone") by { Lacks("---", "iPhone", 0); }
    assert !Contains("---", "Android") by { Lacks("---", "Android", 0); }
  }

  lemma DeviceExamples()
    ensures GetDevice("iPad") == Some("iPad")
    ensures GetDevice("iPod") == Some("iPod Touch")
    ensures GetDevice("iPhone") == Some("iPhone")
    ensures GetDevice("Android") == Some("Android")
    ensures GetDevice("---") == None
  {
    DeviceIPad();
    DeviceIPod();
    DeviceIPhone();
    DeviceAndroid();
    DeviceUnknown();
  }


  /** The operating-system test vectors. */
  lemma OSWindows()
    ensures GetOS("Windows") == Some("Windows")
  {
    assert ContainsIgnoreCase("Windows", "Windows") by { PrefixPresent(Lower("Windows"), Lower("Windows")); }
  }

  lemma OSIPad()
    ensures GetOS("iPad") == Some("iOS")
  {
    assert !ContainsIgnoreCase("iPad", "Windows") by { Lacks(Lower("iPad"), Lower("Windows"), 0); }
    assert !Contains("iPad", "iPhone") by { Lacks("iPad", "iPhone", 2); }
    assert Contains("iPad", "iPad") by { PrefixPresent("iPad", "iPad"); }
    assert !Contains("iPad", "iPod") by { Lacks("iPad", "iPod", 2); }
  }

  lemma OSIPod()
    ensures GetOS("iPod") == Some("iOS")
  {
    assert !ContainsIgnoreCase("iPod", "Windows") by { Lacks(Lower("iPod"), Lower("Windows"), 0); }
    assert !Contains("iPod", "iPhone") by { Lacks("iPod", "iPhone", 2); }
    assert !Contains("iPod", "iPad") by { Lacks("iPod", "iPad", 2); }
    assert Contains("iPod", "iPod") by { PrefixPresent("iPod", "iPod"); }
  }

  lemma OSIPhone()
    ensures GetOS("iPhone") == Some("iOS")
  {
    assert !ContainsIgnoreCase("iPhone", "Windows") by { Lacks(Lower("iPhone"), Lower("Windows"), 0); }
    assert Contains("iPhone", "iPhone") by { PrefixPresent("iPhone", "iPhone"); }
    assert !Contains("iPhone", "iPad") by { Lacks("iPhone", "iPad", 2); }
    assert !Contains("iPhone", "iPod") by { Lacks("iPhone", "iPod", 3); }
  }

  lemma OSAndroid()
    ensures GetOS("Android") == Some("Android")
  {
    assert !ContainsIgnoreCase("Android", "Windows") by { Lacks(Lower("Android"), Lower("Windows"), 0); }
    assert !Contains("Android", "iPhone") by { Lacks("Android", "iPhone", 1); }
    assert !Contains("Android", "iPad") by { Lacks("Android", "iPad", 1); }
    assert !Contains("Android", "iPod") by { Lacks("Android", "iPod", 1); }
    assert Contains("Android", "Android") by { PrefixPresent("Android", "Android"); }
  }

  lemma OSMacOS()
    ensures GetOS("macOS") == Some("Mac OS X")
  {
    assert !ContainsIgnoreCase("macOS", "Windows") by { Lacks(Lower("macOS"), Lower("Windows"), 0); }
    assert !Contains("macOS", "iPhone") by { Lacks("macOS", "iPhone", 0); }
    assert !Contains("macOS", "iPad") by { Lacks("macOS", "iPad", 0); }
    assert !Contains("macOS", "iPod") by { Lacks("macOS", "iPod", 0); }
    assert !Contains("macOS", "Android") by { Lacks("macOS", "Android", 0); }
    assert ContainsIgnoreCase("macOS", "Mac") by { PrefixPresent(Lower("macOS"), Lower("Mac")); }
  }

  lemma OSLinux()
    ensures GetOS("Linux") == Some("Linux")
  {
    assert !ContainsIgnoreCase("Linux", "Windows") by { Lacks(Lower("Linux"), Lower("Windows"), 0); }
    assert !Contains("Linux", "iPhone") by { Lacks("Linux", "iPhone", 1); }
    assert !Contains("Linux", "iPad") by { Lacks("Linux", "iPad", 1); }
    assert !Contains("Linux", "iPod") by { Lacks("Linux", "iPod", 1); }
    assert !Contains("Linux", "Android") by { Lacks("Linux", "Android", 0); }
    assert !ContainsIgnoreCase("Linux", "Mac") by { Lacks(Lower("Linux"), Lower("Mac"), 0); }
    assert Contains("Linux", "Linux") by { PrefixPresent("Linux", "Linux"); }
  }

  lemma OSCrOS()
    ensures GetOS("CrOS") == Some("Chrome OS")
  {
    assert !ContainsIgnoreCase("CrOS", "Windows") by { Lacks(Lower("CrOS"), Lower("Windows"), 0); }
    assert !Contains("CrOS", "iPhone") by { Lacks("CrOS", "iPhone", 0); }
    assert !Contains("CrOS", "iPad") by { Lacks("CrOS", "iPad", 0); }
    assert !Contains("CrOS", "iPod") by { Lacks("CrOS", "iPod", 0); }
    assert !Contains("CrOS", "Android") by { Lacks("CrOS", "Android", 0); }
    assert !ContainsIgnoreCase("CrOS", "Mac") by { Lacks(Lower("CrOS"), Lower("Mac"), 0); }
    assert !Contains("CrOS", "Linux") by { Lacks("CrOS", "Linux", 0); }
    assert Contains("CrOS", "CrOS") by { PrefixPresent("CrOS", "CrOS"); }
  }

  lemma OSUnknown()
    ensures GetOS("---") == None
  {
    assert !ContainsIgnoreCase("---", "Windows") by { Lacks(Lower("---"), Lower("Windows"), 0); }
    assert !Contains("---", "iPhone") by { Lacks("---", "iPhone", 0); }
    assert !Contains("---", "iPad") by { Lacks("---", "iPad", 0); }
    assert !Contains("---", "iPod") by { Lacks("---", "iPod", 0); }
    assert !Contains("---", "Android") by { Lacks("---", "Android", 0); }
    assert !ContainsIgnoreCase("---", "Mac") by { Lacks(Lower("---"), Lower("Mac"), 0); }
    assert !Contains("---", "Linux") by { Lacks("---", "Linux", 0); }
    assert !Contains("---", "CrOS") by { Lacks("---", "CrOS", 0); }
  }

  lemma OSExamples()
    ensures GetOS("Windows") == Some("Windows")
    ensures GetOS("iPad") == Some("iOS")
    ensures GetOS("iPod") == Some("iOS")
    ensures GetOS("iPhone") == Some("iOS")
    ensures GetOS("Android") == Some("Android")
    ensures GetOS("macOS") == Some("Mac OS X")
    ensures GetOS("Linux") == Some("Linux")
    ensures GetOS("CrOS") == Some("Chrome OS")
    ensures GetOS("---") == None
  {
    OSWindows();
    OSIPad();
    OSIPod();
    OSIPhone();
    OSAndroid();
    OSMacOS();
    OSLinux();
    OSCrOS();
    OSUnknown();
  }


  /** The browser test vectors, with no `opera` global. */
  lemma BrowserOperaMini()
    ensures GetBrowser(" OPR/Mini", false) == Some("Opera Mini")
  {
    assert Contains(" OPR/Mini", " OPR/") by { PrefixPresent(" OPR/Mini", " OPR/"); }
    assert Contains(" OPR/Mini", "Mini") by { Present(" OPR/Mini", "Mini", 5); }
  }

  lemma BrowserOperaOpr()
    ensures GetBrowser(" OPR/", false) == Some("Opera")
  {
    assert Contains(" OPR/", " OPR/") by { PrefixPresent(" OPR/", " OPR/"); }
    assert !Contains(" OPR/", "Mini") by { Lacks(" OPR/", "Mini", 0); }
  }

  lemma BrowserEdge()
    ensures GetBrowser("Edge", false) == Some("Microsoft Edge")
  {
    assert !Contains("Edge", " OPR/") by { Lacks("Edge", " OPR/", 0); }
    assert Contains("Edge", "Edge") by { PrefixPresent("Edge", "Edge"); }
  }

  lemma BrowserFBIOS()
    ensures GetBrowser("FBIOS", false) == Some("Facebook Mobile")
  {
    assert !Contains("FBIOS", " OPR/") by { Lacks("FBIOS", " OPR/", 0); }
    assert !Contains("FBIOS", "Edge") by { Lacks("FBIOS", "Edge", 0); }
    assert Contains("FBIOS", "FBIOS") by { PrefixPresent("FBIOS", "FBIOS"); }
  }

  lemma BrowserChrome()
    ensures GetBrowser("Chrome", false) == Some("Chrome")
  {
    assert !Contains("Chrome", " OPR/") by { Lacks("Chrome", " OPR/", 0); }
    assert !Contains("Chrome", "Edge") by { Lacks("Chrome", "Edge", 0); }
    assert !Contains("Chrome", "FBIOS") by { Lacks("Chrome", "FBIOS", 0); }
    assert Contains("Chrome", "Chrome") by { PrefixPresent("Chrome", "Chrome"); }
  }

  lemma BrowserSamsungBrowser()
    ensures GetBrowser("SamsungBrowser/", false) == Some("Samsung Internet")
  {
    assert !Contains("SamsungBrowser/", " OPR/") by { Lacks("SamsungBrowser/", " OPR/", 0); }
    assert !Contains("SamsungBrowser/", "Edge") by { Lacks("SamsungBrowser/", "Edge", 0); }
    assert !Contains("SamsungBrowser/", "FBIOS") by { Lacks("SamsungBrowser/", "FBIOS", 0); }
    assert !Contains("SamsungBrowser/", "Chrome") by { Lacks("SamsungBrowser/", "Chrome", 0); }
    assert Contains("SamsungBrowser/", "SamsungBrowser/") by { PrefixPresent("SamsungBrowser/", "SamsungBrowser/"); }
  }

  lemma BrowserUCWEB()
    ensures GetBrowser("UCWEB", false) == Some("UC Browser")
  {
    assert !Contains("UCWEB", " OPR/") by { Lacks("UCWEB", " OPR/", 0); }
    assert !Contains("UCWEB", "Edge") by { Lacks("UCWEB", "Edge", 1); }
    assert !Contains("UCWEB", "FBIOS") by { Lacks("UCWEB", "FBIOS", 0); }
    assert !Contains("UCWEB", "Chrome") by { Lacks("UCWEB", "Chrome", 1); }
    assert !Contains("UCWEB", "SamsungBrowser/") by { Lacks("UCWEB", "SamsungBrowser/", 0); }
    assert !Contains("UCWEB", "CriOS") by { Lacks("UCWEB", "CriOS", 1); }
    assert Contains("UCWEB", "UCWEB") by { PrefixPresent("UCWEB", "UCWEB"); }
    assert !Contains("UCWEB", "UCBrowser") by { Lacks("UCWEB", "UCBrowser", 3); }
  }

  lemma BrowserUCBrowser()
    ensures GetBrowser("UCBrowser", false) == Some("UC Browser")
  {
    assert !Contains("UCBrowser", " OPR/") by { Lacks("UCBrowser", " OPR/", 0); }
    assert !Contains("UCBrowser", "Edge") by { Lacks("UCBrowser", "Edge", 0); }
    assert !Contains("UCBrowser", "FBIOS") by { Lacks("UCBrowser", "FBIOS", 0); }
    assert !Contains("UCBrowser", "Chrome") by { Lacks("UCBrowser", "Chrome", 1); }
    assert !Contains("UCBrowser", "SamsungBrowser/") by { Lacks("UCBrowser", "SamsungBrowser/", 0); }
    assert !Contains("UCBrowser", "CriOS") by { Lacks("UCBrowser", "CriOS", 2); }
    assert !Contains("UCBrowser", "UCWEB") by { Lacks("UCBrowser", "UCWEB", 2); }
    assert Contains("UCBrowser", "UCBrowser") by { PrefixPresent("UCBrowser", "UCBrowser"); }
  }

  lemma BrowserFxiOS()
    ensures GetBrowser("FxiOS", false) == Some("Firefox iOS")
  {
    assert !Contains("FxiOS", " OPR/") by { Lacks("FxiOS", " OPR/", 0); }
    assert !Contains("FxiOS", "Edge") by { Lacks("FxiOS", "Edge", 0); }
    assert !Contains("FxiOS", "FBIOS") by { Lacks("FxiOS", "FBIOS", 1); }
    assert !Contains("FxiOS", "Chrome") by { Lacks("FxiOS", "Chrome", 0); }
    assert !Contains("FxiOS", "SamsungBrowser/") by { Lacks("FxiOS", "SamsungBrowser/", 1); }
    assert !Contains("FxiOS", "CriOS") by { Lacks("FxiOS", "CriOS", 0); }
    assert !Contains("FxiOS", "UCWEB") by { Lacks("FxiOS", "UCWEB", 0); }
    assert !Contains("FxiOS", "UCBrowser") by { Lacks("FxiOS", "UCBrowser", 0); }
    assert Contains("FxiOS", "FxiOS") by { PrefixPresent("FxiOS", "FxiOS"); }
  }

  lemma BrowserSafari()
    ensures GetBrowser("Safari", false) == Some("Safari")
  {
    assert !Contains("Safari", " OPR/") by { Lacks("Safari", " OPR/", 0); }
    assert !Contains("Safari", "Edge") by { Lacks("Safari", "Edge", 0); }
    assert !Contains("Safari", "FBIOS") by { Lacks("Safari", "FBIOS", 0); }
    assert !Contains("Safari", "Chrome") by { Lacks("Safari", "Chrome", 0); }
    assert !Contains("Safari", "SamsungBrowser/") by { Lacks("Safari", "SamsungBrowser/", 2); }
    assert !Contains("Safari", "CriOS") by { Lacks("Safari", "CriOS", 0); }
    assert !Contains("Safari", "UCWEB") by { Lacks("Safari", "UCWEB", 0); }
    assert !Contains("Safari", "UCBrowser") by { Lacks("Safari", "UCBrowser", 0); }
    assert !Contains("Safari", "FxiOS") by { Lacks("Safari", "FxiOS", 0); }
    assert Contains("Safari", "Safari") by { PrefixPresent("Safari", "Safari"); }
    assert !Contains("Safari", "Mobile") by { Lacks("Safari", "Mobile", 0); }
  }

  lemma BrowserSafariMobile()
    ensures GetBrowser("Safari Mobile", false) == Some("Mobile Safari")
  {
    assert !Contains("Safari Mobile", " OPR/") by { Lacks("Safari Mobile", " OPR/", 1); }
    assert !Contains("Safari Mobile", "Edge") by { Lacks("Safari Mobile", "Edge", 0); }
    assert !Contains("Safari Mobile", "FBIOS") by { Lacks("Safari Mobile", "FBIOS", 0); }
    assert !Contains("Safari Mobile", "Chrome") by { Lacks("Safari Mobile", "Chrome", 0); }
    assert !Contains("Safari Mobile", "SamsungBrowser/") by { Lacks("Safari Mobile", "SamsungBrowser/", 2); }
    assert !Contains("Safari Mobile", "CriOS") by { Lacks("Safari Mobile", "CriOS", 0); }
    assert !Contains("Safari Mobile", "UCWEB") by { Lacks("Safari Mobile", "UCWEB", 0); }
    assert !Contains("Safari Mobile", "UCBrowser") by { Lacks("Safari Mobile", "UCBrowser", 0); }
    assert !Contains("Safari Mobile", "FxiOS") by { Lacks("Safari Mobile", "FxiOS", 0); }
    assert Contains("Safari Mobile", "Safari") by { PrefixPresent("Safari Mobile", "Safari"); }
    assert Contains("Safari Mobile", "Mobile") by { assert "Safari Mobile"[7..13] == "Mobile"; Present("Safari Mobile", "Mobile", 7); }
  }

  lemma BrowserAndroid()
    ensures GetBrowser("Android", false) == Some("Android Mobile")
  {
    assert !Contains("Android", " OPR/") by { Lacks("Android", " OPR/", 0); }
    assert !Contains("Android", "Edge") by { Lacks("Android", "Edge", 0); }
    assert !Contains("Android", "FBIOS") by { Lacks("Android", "FBIOS", 0); }
    assert !Contains("Android", "Chrome") by { Lacks("Android", "Chrome", 0); }
    assert !Contains("Android", "SamsungBrowser/") by { Lacks("Android", "SamsungBrowser/", 0); }
    assert !Contains("Android", "CriOS") by { Lacks("Android", "CriOS", 0); }
    assert !Contains("Android", "UCWEB") by { Lacks("Android", "UCWEB", 0); }
    assert !Contains("Android", "UCBrowser") by { Lacks("Android", "UCBrowser", 0); }
    assert !Contains("Android", "FxiOS") by { Lacks("Android", "FxiOS", 0); }
    assert !Contains("Android", "Safari") by { Lacks("Android", "Safari", 0); }
    assert Contains("Android", "Android") by { PrefixPresent("Android", "Android"); }
  }

  lemma BrowserKonqueror()
    ensures GetBrowser("Konqueror", false) == Some("Konqueror")
  {
    assert !Contains("Konqueror", " OPR/") by { Lacks("Konqueror", " OPR/", 0); }
    assert !Contains("Konqueror", "Edge") by { Lacks("Konqueror", "Edge", 0); }
    assert !Contains("Konqueror", "FBIOS") by { Lacks("Konqueror", "FBIOS", 0); }
    assert !Contains("Konqueror", "Chrome") by { Lacks("Konqueror", "Chrome", 0); }
    assert !Contains("Konqueror", "SamsungBrowser/") by { Lacks("Konqueror", "SamsungBrowser/", 0); }
    assert !Contains("Konqueror", "CriOS") by { Lacks("Konqueror", "CriOS", 0); }
    assert !Contains("Konqueror", "UCWEB") by { Lacks("Konqueror", "UCWEB", 0); }
    assert !Contains("Konqueror", "UCBrowser") by { Lacks("Konqueror", "UCBrowser", 0); }
    assert !Contains("Konqueror", "FxiOS") by { Lacks("Konqueror", "FxiOS", 0); }
    assert !Contains("Konqueror", "Safari") by { Lacks("Konqueror", "Safari", 0); }
    assert !Contains("Konqueror", "Android") by { Lacks("Konqueror", "Android", 0); }
    assert Contains("Konqueror", "Konqueror") by { PrefixPresent("Konqueror", "Konqueror"); }
  }

  lemma BrowserFirefox()
    ensures GetBrowser("Firefox", false) == Some("Firefox")
  {
    assert !Contains("Firefox", " OPR/") by { Lacks("Firefox", " OPR/", 0); }
    assert !Contains("Firefox", "Edge") by { Lacks("Firefox", "Edge", 0); }
    assert !Contains("Firefox", "FBIOS") by { Lacks("Firefox", "FBIOS", 1); }
    assert !Contains("Firefox", "Chrome") by { Lacks("Firefox", "Chrome", 0); }
    assert !Contains("Firefox", "SamsungBrowser/") by { Lacks("Firefox", "SamsungBrowser/", 0); }
    assert !Contains("Firefox", "CriOS") by { Lacks("Firefox", "CriOS", 0); }
    assert !Contains("Firefox", "UCWEB") by { Lacks("Firefox", "UCWEB", 0); }
    assert !Contains("Firefox", "UCBrowser") by { Lacks("Firefox", "UCBrowser", 0); }
    assert !Contains("Firefox", "FxiOS") by { Lacks("Firefox", "FxiOS", 3); }
    assert !Contains("Firefox", "Safari") by { Lacks("Firefox", "Safari", 0); }
    assert !Contains("Firefox", "Android") by { Lacks("Firefox", "Android", 0); }
    assert !Contains("Firefox", "Konqueror") by { Lacks("Firefox", "Konqueror", 0); }
    assert Contains("Firefox", "Firefox") by { PrefixPresent("Firefox", "Firefox"); }
  }

  lemma BrowserMSIE()
    ensures GetBrowser("MSIE", false) == Some("Internet Explorer")
  {
    assert !Contains("MSIE", " OPR/") by { Lacks("MSIE", " OPR/", 0); }
    assert !Contains("MSIE", "Edge") by { Lacks("MSIE", "Edge", 1); }
    assert !Contains("MSIE", "FBIOS") by { Lacks("MSIE", "FBIOS", 0); }
    assert !Contains("MSIE", "Chrome") by { Lacks("MSIE", "Chrome", 0); }
    assert !Contains("MSIE", "SamsungBrowser/") by { Lacks("MSIE", "SamsungBrowser/", 1); }
    assert !Contains("MSIE", "CriOS") by { Lacks("MSIE", "CriOS", 0); }
    assert !Contains("MSIE", "UCWEB") by { Lacks("MSIE", "UCWEB", 0); }
    assert !Contains("MSIE", "UCBrowser") by { Lacks("MSIE", "UCBrowser", 0); }
    assert !Contains("MSIE", "FxiOS") by { Lacks("MSIE", "FxiOS", 0); }
    assert !Contains("MSIE", "Safari") by { Lacks("MSIE", "Safari", 1); }
    assert !Contains("MSIE", "Android") by { Lacks("MSIE", "Android", 0); }
    assert !Contains("MSIE", "Konqueror") by { Lacks("MSIE", "Konqueror", 0); }
    assert !Contains("MSIE", "Firefox") by { Lacks("MSIE", "Firefox", 0); }
    assert Contains("MSIE", "MSIE") by { PrefixPresent("MSIE", "MSIE"); }
    assert !Contains("MSIE", "Trident/") by { Lacks("MSIE", "Trident/", 0); }
  }

  lemma BrowserTrident()
    ensures GetBrowser("Trident/", false) == Some("Internet Explorer")
  {
    assert !Contains("Trident/", " OPR/") by { Lacks("Trident/", " OPR/", 0); }
    assert !Contains("Trident/", "Edge") by { Lacks("Trident/", "Edge", 0); }
    assert !Contains("Trident/", "FBIOS") by { Lacks("Trident/", "FBIOS", 0); }
    assert !Contains("Trident/", "Chrome") by { Lacks("Trident/", "Chrome", 0); }
    assert !Contains("Trident/", "SamsungBrowser/") by { Lacks("Trident/", "SamsungBrowser/", 0); }
    assert !Contains("Trident/", "CriOS") by { Lacks("Trident/", "CriOS", 0); }
    assert !Contains("Trident/", "UCWEB") by { Lacks("Trident/", "UCWEB", 0); }
    assert !Contains("Trident/", "UCBrowser") by { Lacks("Trident/", "UCBrowser", 0); }
    assert !Contains("Trident/", "FxiOS") by { Lacks("Trident/", "FxiOS", 0); }
    assert !Contains("Trident/", "Safari") by { Lacks("Trident/", "Safari", 0); }
    assert !Contains("Trident/", "Android") by { Lacks("Trident/", "Android", 0); }
    assert !Contains("Trident/", "Konqueror") by { Lacks("Trident/", "Konqueror", 0); }
    assert !Contains("Trident/", "Firefox") by { Lacks("Trident/", "Firefox", 0); }
    assert !Contains("Trident/", "MSIE") by { Lacks("Trident/", "MSIE", 0); }
    assert Contains("Trident/", "Trident/") by { PrefixPresent("Trident/", "Trident/"); }
  }

  lemma BrowserGecko()
    ensures GetBrowser("Gecko", false) == Some("Mozilla")
  {
    assert !Contains("Gecko", " OPR/") by { Lacks("Gecko", " OPR/", 0); }
    assert !Contains("Gecko", "Edge") by { Lacks("Gecko", "Edge", 0); }
    assert !Contains("Gecko", "FBIOS") by { Lacks("Gecko", "FBIOS", 0); }
    assert !Contains("Gecko", "Chrome") by { Lacks("Gecko", "Chrome", 0); }
    assert !Contains("Gecko", "SamsungBrowser/") by { Lacks("Gecko", "SamsungBrowser/", 0); }
    assert !Contains("Gecko", "CriOS") by { Lacks("Gecko", "CriOS", 0); }
    assert !Contains("Gecko", "UCWEB") by { Lacks("Gecko", "UCWEB", 0); }
    assert !Contains("Gecko", "UCBrowser") by { Lacks("Gecko", "UCBrowser", 0); }
    assert !Contains("Gecko", "FxiOS") by { Lacks("Gecko", "FxiOS", 0); }
    assert !Contains("Gecko", "Safari") by { Lacks("Gecko", "Safari", 0); }
    assert !Contains("Gecko", "Android") by { Lacks("Gecko", "Android", 0); }
    assert !Contains("Gecko", "Konqueror") by { Lacks("Gecko", "Konqueror", 0); }
    assert !Contains("Gecko", "Firefox") by { Lacks("Gecko", "Firefox", 0); }
    assert !Contains("Gecko", "MSIE") by { Lacks("Gecko", "MSIE", 0); }
    assert !Contains("Gecko", "Trident/") by { Lacks("Gecko", "Trident/", 0); }
    assert Contains("Gecko", "Gecko") by { PrefixPresent("Gecko", "Gecko"); }
  }

  lemma BrowserUnknown()
    ensures GetBrowser("---", false) == None
  {
    assert !Contains("---", " OPR/") by { Lacks("---", " OPR/", 0); }
    assert !Contains("---", "Edge") by { Lacks("---", "Edge", 0); }
    assert !Contains("---", "FBIOS") by { Lacks("---", "FBIOS", 0); }
    assert !Contains("---", "Chrome") by { Lacks("---", "Chrome", 0); }
    assert !Contains("---", "SamsungBrowser/") by { Lacks("---", "SamsungBrowser/", 0); }
    assert !Contains("---", "CriOS") by { Lacks("---", "CriOS", 0); }
    assert !Contains("---", "UCWEB") by { Lacks("---", "UCWEB", 0); }
    assert !Contains("---", "UCBrowser") by { Lacks("---", "UCBrowser", 0); }
    assert !Contains("---", "FxiOS") by { Lacks("---", "FxiOS", 0); }
    assert !Contains("---", "Safari") by { Lacks("---", "Safari", 0); }
    assert !Contains("---", "Android") by { Lacks("---", "Android", 0); }
    assert !Contains("---", "Konqueror") by { Lacks("---", "Konqueror", 0); }
    assert !Contains("---", "Firefox") by { Lacks("---", "Firefox", 0); }
    assert !Contains("---", "MSIE") by { Lacks("---", "MSIE", 0); }
    assert !Contains("---", "Trident/") by { Lacks("---", "Trident/", 0); }
    assert !Contains("---", "Gecko") by { Lacks("---", "Gecko", 0); }
  }

  lemma BrowserExamples()
    ensures GetBrowser(" OPR/Mini", false) == Some("Opera Mini")
    ensures GetBrowser(" OPR/", false) == Some("Opera")
    ensures GetBrowser("Edge", false) == Some("Microsoft Edge")
    ensures GetBrowser("FBIOS", false) == Some("Facebook Mobile")
    ensures GetBrowser("Chrome", false) == Some("Chrome")
    ensures GetBrowser("SamsungBrowser/", false) == Some("Samsung Internet")
    ensures GetBrowser("UCWEB", false) == Some("UC Browser")
    ensures GetBrowser("UCBrowser", false) == Some("UC Browser")
    ensures GetBrowser("FxiOS", false) == Some("Firefox iOS")
    ensures GetBrowser("Safari", false) == Some("Safari")
    ensures GetBrowser("Safari Mobile", false) == Some("Mobile Safari")
    ensures GetBrowser("Android", false) == Some("Android Mobile")
    ensures GetBrowser("Konqueror", false) == Some("Konqueror")
    ensures GetBrowser("Firefox", false) == Some("Firefox")
    ensures GetBrowser("MSIE", false) == Some("Internet Explorer")
    ensures GetBrowser("Trident/", false) == Some("Internet Explorer")
    ensures GetBrowser("Gecko", false) == Some("Mozilla")
    ensures GetBrowser("---", false) == None
  {
    BrowserOperaMini();
    BrowserOperaOpr();
    BrowserEdge();
    BrowserFBIOS();
    BrowserChrome();
    BrowserSamsungBrowser();
    BrowserUCWEB();
    BrowserUCBrowser();
    BrowserFxiOS();
    BrowserSafari();
    BrowserSafariMobile();
    BrowserAndroid();
    BrowserKonqueror();
    BrowserFirefox();
    BrowserMSIE();
    BrowserTrident();
    BrowserGecko();
    BrowserUnknown();
  }


  lemma ReferrerExamples()
    ensures GetReferringDomain("https://google.com/test") == Some("google.com")
    ensures GetReferringDomain("blob:") == None
  {
    ThirdPieceIsDomain("https://google.com/test", "https:", "", "google.com", "/test");
    SplitWhole("blob:", '/');
  }

  lemma DoNotTrackExamples()
    ensures !GetDoNotTrack(Undefined)
    ensures GetDoNotTrack(Num(1))
    ensures !GetDoNotTrack(Num(0))
  {
  }
}
