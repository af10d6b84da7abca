/** internal/fetcher/playwright.go: the key under which a browser session is reused, and the settings of a
    browser context that are fixed when it is opened. */
module SessionKey {
  import opened Commons

  datatype Request = Request(proxyURL: string, userAgent: string, language: string, country: string, device: string)

  datatype DeviceProfile = DeviceProfile(name: string, width: nat, height: nat, scale: real, mobile: bool, touch: bool)

  /** What newSession makes a context with. */
  datatype Settings = Settings(proxyURL: string, userAgent: string, locale: string, device: DeviceProfile)

  function Upper(s: string): (r: string)
    ensures NulFree(s) ==> NulFree(r)
    ensures |r| == |s|
    ensures forall i :: 0 <= i < |s| ==> r[i] == if 'a' <= s[i] <= 'z' then (s[i] as int - 32) as char else s[i]
  {
    if s == "" then "" else [if 'a' <= s[0] <= 'z' then (s[0] as int - 32) as char else s[0]] + Upper(s[1..])
  }

  function LocaleTag(language: string, country: string): (tag: string)
    ensures NulFree(language) && NulFree(country) ==> NulFree(tag)
  {
    if language == "" then "" else if country == "" then language else language + "-" + Upper(country)
  }

  function DeviceProfileFor(device: string): DeviceProfile {
    if ToLower(device) == "mobile" then DeviceProfile("mobile", 412, 915, 2.625, true, true)
    else if ToLower(device) == "tablet" then DeviceProfile("tablet", 820, 1180, 2.0, true, true)
    else DeviceProfile("desktop", 1366, 768, 1.0, false, false)
  }

  function SettingsOf(r: Request): Settings {
    Settings(r.proxyURL, r.userAgent, LocaleTag(r.language, r.country), DeviceProfileFor(r.device))
  }

  const NUL := '\0'

  predicate NulFree(s: string) {
    forall i :: 0 <= i < |s| ==> s[i] != NUL
  }

  function SessionKey(r: Request): string {
    var tag, name := LocaleTag(r.language, r.country), DeviceProfileFor(r.device).name;
    r.proxyURL + [NUL] + r.userAgent + [NUL] + tag + [NUL] + name
  }

  /** The first field of two equal keys is the same, if it cannot hold the separator. */
  lemma FirstField(a: string, b: string, x: string, y: string)
    requires NulFree(a) && NulFree(b) && a + [NUL] + x == b + [NUL] + y
    ensures a == b && x == y
  {
    var k := a + [NUL] + x;
    assert k[|a|] == NUL && k[|b|] == NUL;
    assert forall i :: 0 <= i < |b| ==> k[i] == b[i];
    assert forall i :: 0 <= i < |a| ==> k[i] == a[i];
    assert |a| == |b|;
    assert a == k[..|a|] && b == k[..|a|];
    assert x == k[|a| + 1..] && y == k[|a| + 1..];
  }

  /** The fields of the key in which the separator would do harm. */
  predicate Clean(r: Request) {
    NulFree(r.proxyURL) && NulFree(r.userAgent) && NulFree(LocaleTag(r.language, r.country))
  }

  /** What follows the first field, and the second. */
  function Rest(r: Request): (string, string) {
    var last := LocaleTag(r.language, r.country) + [NUL] + DeviceProfileFor(r.device).name;
    (r.userAgent + [NUL] + last, last)
  }

  lemma KeySplits(r: Request)
    ensures SessionKey(r) == r.proxyURL + [NUL] + Rest(r).0
  {
  }

  lemma SameKeySameSettings(a: Request, b: Request)
    requires Clean(a) && Clean(b) && SessionKey(a) == SessionKey(b)
    ensures SettingsOf(a) == SettingsOf(b)
  {
    KeySplits(a);
    KeySplits(b);
    FirstField(a.proxyURL, b.proxyURL, Rest(a).0, Rest(b).0);
    FirstField(a.userAgent, b.userAgent, Rest(a).1, Rest(b).1);
    FirstField(
      LocaleTag(a.language, a.country), LocaleTag(b.language, b.country),
      DeviceProfileFor(a.device).name, DeviceProfileFor(b.device).name);
  }

  // ----------------------------------------------- counting the separator

  function Nuls(s: string): nat {
    if s == [] then 0 else (if s[0] == NUL then 1 else 0) + Nuls(s[1..])
  }

  lemma {:induction false} NulsAdd(s: string, t: string)
    ensures Nuls(s + t) == Nuls(s) + Nuls(t)
  {
    if s == [] {
      assert s + t == t;
    } else {
      NulsAdd(s[1..], t);
      assert (s + t)[1..] == s[1..] + t;
    }
  }

  lemma {:induction false} NoNuls(s: string)
    ensures NulFree(s) <==> Nuls(s) == 0
  {
    if s != [] {
      NoNuls(s[1..]);
      assert NulFree(s) <==> s[0] != NUL && NulFree(s[1..]);
    }
  }

  lemma NulsOfKey(r: Request)
    ensures Nuls(SessionKey(r)) ==
            3 + Nuls(r.proxyURL) + Nuls(r.userAgent) + Nuls(LocaleTag(r.language, r.country))
  {
    KeySplits(r);
    var tag, name := LocaleTag(r.language, r.country), DeviceProfileFor(r.device).name;
    assert NulFree(name);
    NoNuls(name);
    assert Nuls([NUL]) == 1;
    NulsAdd(r.proxyURL + [NUL], Rest(r).0);
    NulsAdd(r.proxyURL, [NUL]);
    NulsAdd(r.userAgent + [NUL], Rest(r).1);
    NulsAdd(r.userAgent, [NUL]);
    NulsAdd(tag + [NUL], name);
    NulsAdd(tag, [NUL]);
    assert Rest(r).0 == r.userAgent + [NUL] + Rest(r).1;
  }

  /** A request that shares the key of a clean one is clean. */
  lemma SameKeyIsClean(a: Request, b: Request)
    requires Clean(a) && SessionKey(a) == SessionKey(b)
    ensures Clean(b)
  {
    NulsOfKey(a);
    NulsOfKey(b);
    NoNuls(a.proxyURL);
    NoNuls(a.userAgent);
    NoNuls(LocaleTag(a.language, a.country));
    NoNuls(b.proxyURL);
    NoNuls(b.userAgent);
    NoNuls(LocaleTag(b.language, b.country));
  }

  lemma CutAtNul(s: string) returns (x: string, y: string)
    requires !NulFree(s)
    ensures s == x + [NUL] + y
  {
    var i :| 0 <= i < |s| && s[i] == NUL;
    x, y := s[..i], s[i + 1..];
  }

  lemma ProxySharesTheKey(a: Request) returns (b: Request)
    requires !NulFree(a.proxyURL)
    ensures SessionKey(a) == SessionKey(b) && SettingsOf(a) != SettingsOf(b)
  {
    var x, y := CutAtNul(a.proxyURL);
    b := a.(proxyURL := x, userAgent := y + [NUL] + a.userAgent);
    KeySplits(a);
    KeySplits(b);
    assert Rest(b).0 == y + [NUL] + Rest(a).0;
    assert |b.proxyURL| < |a.proxyURL|;
  }

  lemma UserAgentSharesTheKey(a: Request) returns (b: Request)
    requires !NulFree(a.userAgent)
    ensures SessionKey(a) == SessionKey(b) && SettingsOf(a) != SettingsOf(b)
  {
    var x, y := CutAtNul(a.userAgent);
    b := a.(proxyURL := a.proxyURL + [NUL] + x, userAgent := y);
    KeySplits(a);
    KeySplits(b);
    assert Rest(a).0 == x + [NUL] + Rest(b).0;
    assert |b.userAgent| < |a.userAgent|;
  }

  lemma LocaleSharesTheKey(a: Request) returns (b: Request)
    requires !NulFree(LocaleTag(a.language, a.country))
    ensures SessionKey(a) == SessionKey(b) && SettingsOf(a) != SettingsOf(b)
  {
    var x, y := CutAtNul(LocaleTag(a.language, a.country));
    b := a.(userAgent := a.userAgent + [NUL] + x, language := y, country := "");
    KeySplits(a);
    KeySplits(b);
    assert LocaleTag(b.language, b.country) == y;
    assert Rest(a).1 == x + [NUL] + Rest(b).1;
    assert |b.userAgent| > |a.userAgent|;
  }

  /** A field with the separator in it lets a neighbouring field take part of it. */
  lemma SomeoneSharesTheKey(a: Request) returns (b: Request)
    requires !Clean(a)
    ensures SessionKey(a) == SessionKey(b) && SettingsOf(a) != SettingsOf(b)
  {
    if !NulFree(a.proxyURL) {
      b := ProxySharesTheKey(a);
    } else if !NulFree(a.userAgent) {
      b := UserAgentSharesTheKey(a);
    } else {
      b := LocaleSharesTheKey(a);
    }
  }

  /** The exact condition, on one request: no other request that needs another context has its key, if and
      only if the separator is in none of its fields. */
  lemma KeyDeterminesSettingsIffClean(a: Request)
    ensures (forall b :: SessionKey(a) == SessionKey(b) ==> SettingsOf(a) == SettingsOf(b)) <==> Clean(a)
  {
    if Clean(a) {
      forall b | SessionKey(a) == SessionKey(b)
        ensures SettingsOf(a) == SettingsOf(b)
      {
        SameKeyIsClean(a, b);
        SameKeySameSettings(a, b);
      }
    } else {
      var b := SomeoneSharesTheKey(a);
    }
  }

  /** Requests that need the same context always have the same key. */
  lemma SameSettingsSameKey(a: Request, b: Request)
    requires SettingsOf(a) == SettingsOf(b)
    ensures SessionKey(a) == SessionKey(b)
  {
  }

  lemma SameAfter(a: string, b: string, c: string)
    requires a + b == a + c
    ensures b == c
  {
    assert (a + b)[|a|..] == b && (a + c)[|a|..] == c;
  }

  lemma TagLength(language: string, country: string)
    requires language != ""
    ensures |LocaleTag(language, country)| == |language| + if country == "" then 0 else 1 + |country|
  {
  }

  /** Two countries of one language share their contexts, as far as the locale goes, if and only if they are the same
      but for the case of their letters; without a language the country does not matter. */
  lemma CountriesShareIffSame(language: string, a: string, b: string)
    ensures LocaleTag(language, a) == LocaleTag(language, b) <==> language == "" || Upper(a) == Upper(b)
  {
    if language != "" {
      TagLength(language, a);
      TagLength(language, b);
      if LocaleTag(language, a) == LocaleTag(language, b) && a != "" {
        SameAfter(language + "-", Upper(a), Upper(b));
      }
    }
  }

  /** Two device hints share their contexts if and only if they are the same but for case, or neither is mobile or
      tablet, which are the profiles of a mobile device with a touch screen. */
  lemma DevicesShareIffSame(a: string, b: string)
    ensures DeviceProfileFor(a) == DeviceProfileFor(b) <==>
              ToLower(a) == ToLower(b) || !(ToLower(a) in {"mobile", "tablet"} || ToLower(b) in {"mobile", "tablet"})
    ensures DeviceProfileFor(a).mobile <==> ToLower(a) in {"mobile", "tablet"}
    ensures DeviceProfileFor(a).touch <==> DeviceProfileFor(a).mobile
  {
  }
}
