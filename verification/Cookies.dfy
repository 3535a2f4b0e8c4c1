/** The session cookie: what is printed when a session is issued and how it is found
    again in a request's cookie header. */
module Cookies {
  import opened Options
  import opened Text

  const SESSION_COOKIE: string := "vps_guard_session"

  const SECURE_SESSION_COOKIE: string := "__Host-vps_guard_session"

  predicate IsSessionName(name: string) {
    name == SESSION_COOKIE || name == SECURE_SESSION_COOKIE
  }

  /** White space that header text can contain. */
  predicate Blank(c: char) {
    c == ' ' || '\t' <= c <= '\r'
  }

  function TrimStart(s: string): string {
    if s != "" && Blank(s[0]) then TrimStart(s[1..]) else s
  }

  function TrimEnd(s: string): string {
    if s != "" && Blank(s[|s| - 1]) then TrimEnd(s[..|s| - 1]) else s
  }

  function Trim(s: string): string {
    TrimEnd(TrimStart(s))
  }

  /** The text before and after the first '='. */
  function SplitOnce(s: string): Option<(string, string)> {
    if s == "" then None
    else if s[0] == '=' then Some(("", s[1..]))
    else
      var rest := SplitOnce(s[1..]);
      if rest.None? then None else Some(([s[0]] + rest.value.0, rest.value.1))
  }

  /** The session value of one header entry, if it is a session cookie. */
  function SessionValue(entry: string): Option<string> {
    var pair := SplitOnce(Trim(entry));
    if pair.Some? && IsSessionName(pair.value.0) then Some(pair.value.1) else None
  }

  function FirstValue(entries: seq<string>): Option<string> {
    if entries == [] then None
    else if SessionValue(entries[0]).Some? then SessionValue(entries[0])
    else FirstValue(entries[1..])
  }

  function FindSessionCookie(header: string): Option<string> {
    FirstValue(Split(header, ';'))
  }

  function CookieName(secure: bool): string {
    if secure then SECURE_SESSION_COOKIE else SESSION_COOKIE
  }

  function Attributes(secure: bool, maxAge: string): string {
    var site := if secure then " SameSite=Strict" + [';'] + " Secure" else " SameSite=Strict";
    (" Max-Age=" + maxAge) + [';'] + (" Path=/" + [';'] + (" HttpOnly" + [';'] + site))
  }

  /** The `Set-Cookie` value printed at issue. */
  function SessionCookie(raw: string, secure: bool): string {
    CookieName(secure) + "=" + raw + [';'] + Attributes(secure, "43200")
  }

  /** The `Set-Cookie` value printed at logout. */
  function ExpiredCookie(secure: bool): string {
    CookieName(secure) + "=" + "" + [';'] + Attributes(secure, "0")
  }

  // ----- What a user agent sends back -----

  /** A cookie as a user agent stores it. */
  datatype Cookie = Cookie(name: string, value: string)

  /** A name without separators and a value without ';'. */
  predicate WellFormed(c: Cookie) {
    && (forall k :: 0 <= k < |c.name| ==> Plain(c.name[k]))
    && ';' !in c.value
  }

  function Pair(c: Cookie): string {
    c.name + "=" + c.value
  }

  /** The cookie string of section 4.2.1 of RFC 6265: pairs joined by "; ". */
  function Header(cookies: seq<Cookie>): string
    requires cookies != []
  {
    if |cookies| == 1 then Pair(cookies[0]) else Pair(cookies[0]) + [';'] + (" " + Header(cookies[1..]))
  }

  /** The cookie a user agent stores for a `Set-Cookie` value: the pair before the first ';'. */
  function Stored(setCookie: string): Option<Cookie> {
    var pair := SplitOnce(Split(setCookie, ';')[0]);
    if pair.None? then None else Some(Cookie(pair.value.0, pair.value.1))
  }

  /** The value of the first session cookie, without trailing blanks. */
  function FirstSession(cookies: seq<Cookie>): Option<string> {
    if cookies == [] then None
    else if IsSessionName(cookies[0].name) then Some(TrimEnd(cookies[0].value))
    else FirstSession(cookies[1..])
  }

  lemma {:induction false} SplitOnceAt(name: string, value: string)
    requires '=' !in name
    ensures SplitOnce(name + "=" + value) == Some((name, value))
  {
    if name == "" {
      assert name + "=" + value == "=" + value;
    } else {
      SplitOnceAt(name[1..], value);
      assert name == [name[0]] + name[1..];
      assert (name + "=" + value)[1..] == name[1..] + "=" + value;
    }
  }

  lemma {:induction false} TrimEndAfterEquals(name: string, value: string)
    ensures TrimEnd(name + "=" + value) == name + "=" + TrimEnd(value)
    decreases |value|
  {
    var s := name + "=" + value;
    if value == "" {
      assert s[|s| - 1] == '=';
    } else if Blank(value[|value| - 1]) {
      TrimEndAfterEquals(name, value[..|value| - 1]);
      assert s[..|s| - 1] == name + "=" + value[..|value| - 1];
    }
  }

  /** An entry, with or without the blank before it, yields its cookie's own value. */
  lemma EntryValue(lead: string, c: Cookie)
    requires (lead == "" || lead == " ") && WellFormed(c)
    ensures SessionValue(lead + Pair(c)) == if IsSessionName(c.name) then Some(TrimEnd(c.value)) else None
  {
    var pair := Pair(c);
    assert !Blank(pair[0]) by {
      if c.name == "" {
        assert pair[0] == '=';
      } else {
        assert pair[0] == c.name[0];
      }
    }
    assert TrimStart(lead + pair) == pair by {
      if lead == " " {
        assert (lead + pair)[1..] == pair;
      } else {
        assert lead + pair == pair;
      }
    }
    TrimEndAfterEquals(c.name, c.value);
    SplitOnceAt(c.name, TrimEnd(c.value));
  }

  lemma PairHasNoSemicolon(c: Cookie)
    requires WellFormed(c)
    ensures ';' !in Pair(c)
  {
  }

  lemma {:induction false} OnlyEntry(entry: string)
    requires ';' !in entry
    ensures FindSessionCookie(entry) == SessionValue(entry)
  {
    SplitAt(entry, ';', "");
    assert FirstValue([entry][1..]) == None;
  }

  lemma {:induction false} FirstEntry(entry: string, rest: string)
    requires ';' !in entry
    ensures FindSessionCookie(entry + [';'] + rest)
         == if SessionValue(entry).Some? then SessionValue(entry) else FindSessionCookie(rest)
  {
    SplitAt(entry, ';', rest);
    assert ([entry] + Split(rest, ';'))[1..] == Split(rest, ';');
  }

  lemma {:induction false} FindInHeader(lead: string, cookies: seq<Cookie>)
    requires (lead == "" || lead == " ") && cookies != []
    requires forall c :: c in cookies ==> WellFormed(c)
    ensures FindSessionCookie(lead + Header(cookies)) == FirstSession(cookies)
    decreases |cookies|
  {
    var entry := lead + Pair(cookies[0]);
    PairHasNoSemicolon(cookies[0]);
    EntryValue(lead, cookies[0]);
    if |cookies| == 1 {
      OnlyEntry(entry);
      assert lead + Header(cookies) == entry;
      assert cookies[1..] == [];
    } else {
      var rest := " " + Header(cookies[1..]);
      assert lead + Header(cookies) == entry + [';'] + rest;
      FirstEntry(entry, rest);
      FindInHeader(" ", cookies[1..]);
    }
  }

  /** Parsing a cookie string yields the first session cookie in it and nothing else. */
  lemma HeaderYieldsFirstSession(cookies: seq<Cookie>)
    requires cookies != []
    requires forall c :: c in cookies ==> WellFormed(c)
    ensures FindSessionCookie(Header(cookies)) == FirstSession(cookies)
  {
    FindInHeader("", cookies);
    assert "" + Header(cookies) == Header(cookies);
  }

  // ----- The round trip -----

  /** A token in the URL-safe base64 alphabet. */
  predicate IsToken(raw: string) {
    forall k :: 0 <= k < |raw| ==> IsDigit(raw[k]) || IsUpper(raw[k]) || IsLower(raw[k]) || raw[k] == '-' || raw[k] == '_'
  }

  lemma PrintedPairIsStored(raw: string, secure: bool, attributes: string)
    requires IsToken(raw)
    ensures Stored(CookieName(secure) + "=" + raw + [';'] + attributes) == Some(Cookie(CookieName(secure), raw))
  {
    var name := CookieName(secure);
    SessionNameHasNoSeparators(secure);
    var pair := name + "=" + raw;
    assert ';' !in pair;
    SplitAt(pair, ';', attributes);
    SplitOnceAt(name, raw);
  }

  lemma IssuedCookieIsStored(raw: string, secure: bool)
    requires IsToken(raw)
    ensures Stored(SessionCookie(raw, secure)) == Some(Cookie(CookieName(secure), raw))
    ensures WellFormed(Cookie(CookieName(secure), raw)) && TrimEnd(raw) == raw
  {
    SessionNameHasNoSeparators(secure);
    PrintedPairIsStored(raw, secure, Attributes(secure, "43200"));
  }

  /** The attributes a user agent reads: the pieces after the first ';'. */
  function AttributesOf(setCookie: string): seq<string> {
    Split(setCookie, ';')[1..]
  }

  /** The attributes of a session cookie. */
  function Expected(secure: bool, maxAge: string): seq<string> {
    [maxAge, " Path=/", " HttpOnly", " SameSite=Strict"] + if secure then [" Secure"] else []
  }

  lemma {:induction false} AttributesSplit(secure: bool, maxAge: string)
    requires ';' !in maxAge
    ensures Split(Attributes(secure, maxAge), ';') == Expected(secure, " Max-Age=" + maxAge)
  {
    NoSemicolons();
    SiteSplits(secure);
    var site := if secure then " SameSite=Strict" + [';'] + " Secure" else " SameSite=Strict";
    ThreeBefore(" Max-Age=" + maxAge, " Path=/", " HttpOnly", site);
  }

  lemma {:induction false} ThreeBefore(a: string, b: string, c: string, rest: string)
    requires ';' !in a && ';' !in b && ';' !in c
    ensures Split(a + [';'] + (b + [';'] + (c + [';'] + rest)), ';') == [a, b, c] + Split(rest, ';')
  {
    var tail := b + [';'] + (c + [';'] + rest);
    SplitAt(a, ';', tail);
    TwoBefore(b, c, rest);
    assert [a] + ([b, c] + Split(rest, ';')) == [a, b, c] + Split(rest, ';');
  }

  lemma {:induction false} TwoBefore(b: string, c: string, rest: string)
    requires ';' !in b && ';' !in c
    ensures Split(b + [';'] + (c + [';'] + rest), ';') == [b, c] + Split(rest, ';')
  {
    var tail := c + [';'] + rest;
    SplitAt(b, ';', tail);
    SplitAt(c, ';', rest);
    assert [b] + ([c] + Split(rest, ';')) == [b, c] + Split(rest, ';');
  }

  lemma {:induction false} SiteSplits(secure: bool)
    ensures Split(if secure then " SameSite=Strict" + [';'] + " Secure" else " SameSite=Strict", ';')
         == [" SameSite=Strict"] + if secure then [" Secure"] else []
  {
    NoSemicolons();
    SplitAt(" SameSite=Strict", ';', " Secure");
    SplitAt(" Secure", ';', "");
  }

  lemma NoSemicolons()
    ensures ';' !in " Max-Age=" && ';' !in " Path=/" && ';' !in " HttpOnly" && ';' !in " SameSite=Strict" && ';' !in " Secure"
  {
  }

  lemma {:induction false} PrintedAttributes(raw: string, secure: bool, maxAge: string)
    requires IsToken(raw) && ';' !in maxAge
    ensures AttributesOf(CookieName(secure) + "=" + raw + [';'] + Attributes(secure, maxAge))
         == Expected(secure, " Max-Age=" + maxAge)
  {
    SessionNameHasNoSeparators(secure);
    var pair := CookieName(secure) + "=" + raw;
    assert ';' !in pair;
    SplitAt(pair, ';', Attributes(secure, maxAge));
    AttributesSplit(secure, maxAge);
  }

  /** The issued cookie lasts twelve hours and the expired one no time; both are for every path,
      hidden from scripts, kept to the site, and when secure bound to the host and to TLS. */
  lemma CookieAttributes(raw: string, secure: bool)
    requires IsToken(raw)
    ensures Stored(SessionCookie(raw, secure))
         == Some(Cookie(if secure then "__Host-vps_guard_session" else "vps_guard_session", raw))
    ensures AttributesOf(SessionCookie(raw, secure))
         == [" Max-Age=43200", " Path=/", " HttpOnly", " SameSite=Strict"] + if secure then [" Secure"] else []
    ensures AttributesOf(ExpiredCookie(secure))
         == [" Max-Age=0", " Path=/", " HttpOnly", " SameSite=Strict"] + if secure then [" Secure"] else []
  {
    IssuedCookieIsStored(raw, secure);
    PrintedAttributes(raw, secure, "43200");
    PrintedAttributes("", secure, "0");
    assert " Max-Age=" + "43200" == " Max-Age=43200" && " Max-Age=" + "0" == " Max-Age=0";
  }

  /** The cookie printed at logout overwrites the one printed at issue and holds no token. */
  lemma ExpiredCookieReplacesIssued(raw: string, secure: bool)
    requires IsToken(raw)
    ensures var issued, expired := Stored(SessionCookie(raw, secure)), Stored(ExpiredCookie(secure));
            issued.Some? && expired == Some(issued.value.(value := ""))
  {
    IssuedCookieIsStored(raw, secure);
    PrintedPairIsStored("", secure, Attributes(secure, "0"));
  }

  lemma SessionNameHasNoSeparators(secure: bool)
    ensures '=' !in CookieName(secure) && WellFormed(Cookie(CookieName(secure), ""))
  {
    if secure {
      assert forall k :: 0 <= k < |SECURE_SESSION_COOKIE| ==> Plain(SECURE_SESSION_COOKIE[k]);
    } else {
      assert forall k :: 0 <= k < |SESSION_COOKIE| ==> Plain(SESSION_COOKIE[k]);
    }
  }

  /** A character that separates nothing. */
  predicate Plain(c: char) {
    c != ';' && c != '=' && !Blank(c)
  }

  lemma {:induction false} FirstSessionAmongOthers(before: seq<Cookie>, c: Cookie, after: seq<Cookie>)
    requires forall b :: b in before ==> !IsSessionName(b.name)
    requires IsSessionName(c.name)
    ensures FirstSession(before + [c] + after) == Some(TrimEnd(c.value))
  {
    var all := before + [c] + after;
    if before == [] {
      assert all[0] == c;
    } else {
      FirstSessionAmongOthers(before[1..], c, after);
      assert all[1..] == before[1..] + [c] + after;
    }
  }

  /** The cookie printed at issue is read back as the same token among any cookies with
      other names before it and any cookies at all after it. */
  lemma CookieRoundTrip(raw: string, secure: bool, before: seq<Cookie>, after: seq<Cookie>)
    requires IsToken(raw)
    requires forall c :: c in before ==> WellFormed(c) && !IsSessionName(c.name)
    requires forall c :: c in after ==> WellFormed(c)
    ensures var stored := Stored(SessionCookie(raw, secure));
            stored.Some? && FindSessionCookie(Header(before + [stored.value] + after)) == Some(raw)
  {
    IssuedCookieIsStored(raw, secure);
    var own := Cookie(CookieName(secure), raw);
    assert IsSessionName(own.name);
    var all := before + [own] + after;
    assert forall c :: c in all ==> c in before || c == own || c in after;
    HeaderYieldsFirstSession(all);
    FirstSessionAmongOthers(before, own, after);
  }
}
