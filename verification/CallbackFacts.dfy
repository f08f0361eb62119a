/** Canonical callbacks are stable, registration implies acceptance, and redirects are pinned. */
module CallbackFacts {
  import opened Texts
  import opened Callbacks
  import CodeStore

  // ---- reading back what Render prints ----

  lemma {:induction false} SpanStops(a: Text, b: Text, stop: Unit -> bool)
    requires forall i | 0 <= i < |a| :: !stop(a[i])
    requires b == [] || stop(b[0])
    ensures Span(a + b, stop) == |a|
  {
    if a == [] {
      assert a + b == b;
    } else {
      SpanStops(a[1..], b, stop);
      assert (a + b)[1..] == a[1..] + b;
    }
  }

  predicate AuthorityUnit(u: Unit) { !IsSpace(u) && u != SLASH && u != QUESTION && u != HASH && u != AT }

  lemma Loopback6Units()
    ensures |Loopback6()| == 5 && Loopback6()[0] == 0x5B && All(Loopback6(), AuthorityUnit)
  {
  }

  lemma HostUnits(h: Text)
    requires HostOk(h)
    ensures h != [] && All(h, AuthorityUnit)
    ensures h != Loopback6() ==> LowerAscii(h) == h && h[0] != 0x5B && forall i | 0 <= i < |h| :: h[i] != COLON
  {
    Loopback6Units();
  }

  lemma PortUnits(port: Option<nat>)
    ensures All(PortText(port), AuthorityUnit)
    ensures PortText(port) == [] || PortText(port)[0] == COLON
  {
  }

  lemma ParsePortText(https: bool, port: Option<nat>)
    requires PortOk(https, port)
    ensures ParsePort(https, PortText(port)) == Some(port)
  {
    if port.Some? {
      DecimalRoundTrip(port.value);
      DropPrefix([COLON], Decimal(port.value));
    }
  }

  lemma ParseHostPortText(https: bool, host: Text, port: Option<nat>)
    requires HostOk(host) && PortOk(https, port)
    ensures ParseHostPort(https, host + PortText(port)) == Some((host, port))
  {
    var s := host + PortText(port);
    HostUnits(host);
    PortUnits(port);
    ParsePortText(https, port);
    DropPrefix(host, PortText(port));
    Loopback6Units();
    if host != Loopback6() {
      assert s[0] != Loopback6()[0];
      SpanStops(host, PortText(port), u => u == COLON);
    }
  }

  lemma PathUnitsPlain(p: Text)
    requires All(p, PathUnit)
    ensures forall i | 0 <= i < |p| :: !IsSpace(p[i]) && p[i] != QUESTION && p[i] != HASH
  {
  }

  lemma ParsePathText(p: Text)
    requires PathOk(p)
    ensures ParsePath(p) == Some((if p == [] then [SLASH] else p, [], []))
  {
    PathUnitsPlain(p);
    hide PathOk;
    SpanStops(p, [], u => u == QUESTION || u == HASH);
    assert p + [] == p;
    assert p[|p|..] == [];
  }

  lemma {:induction false} NoAt(s: Text)
    requires All(s, AuthorityUnit)
    ensures LastAt(s).None?
  {
    var at := LastAt(s);
    assert at.Some? ==> AuthorityUnit(s[at.value]);
  }

  lemma AuthorityAll(a: Text, b: Text)
    requires All(a, AuthorityUnit) && All(b, AuthorityUnit)
    ensures All(a + b, AuthorityUnit)
  {
  }

  lemma ReparseBody(https: bool, host: Text, port: Option<nat>, p: Text)
    requires HostOk(host) && PortOk(https, port) && PathOk(p)
    ensures ParseAfterScheme(https, host + PortText(port) + p)
      == Some(Url(https, None, host, port, if p == [] then [SLASH] else p, [], []))
  {
    var authority := host + PortText(port);
    HostUnits(host);
    PortUnits(port);
    AuthorityAll(host, PortText(port));
    NoAt(authority);
    assert forall i | 0 <= i < |authority| :: AuthorityUnit(authority[i]);
    SpanStops(authority, p, u => u == SLASH || u == QUESTION || u == HASH);
    DropPrefix(authority, p);
    ParseHostPortText(https, host, port);
    ParsePathText(p);
  }

  lemma SchemeUnits(https: bool)
    ensures LowerAscii(Scheme(https)) == Scheme(https) && |Scheme(https)| > 4
    ensures !IsSpace(Scheme(https)[0])
    ensures Scheme(https)[4] == if https then 's' as int else COLON
  {
  }

  lemma FifthUnit(s: Text, https: bool)
    requires |s| > 4
    ensures HasScheme(s, https) ==> LowerUnit(s[4]) == Scheme(https)[4]
  {
    SchemeUnits(https);
    if HasScheme(s, https) {
      assert LowerAscii(s[..|Scheme(https)|])[4] == LowerUnit(s[4]);
    }
  }

  lemma SchemeRead(https: bool, body: Text)
    ensures HasScheme(Scheme(https) + body, https)
    ensures !https ==> !HasScheme(Scheme(https) + body, true)
  {
    SchemeUnits(https);
    SchemeUnits(true);
    DropPrefix(Scheme(https), body);
    FifthUnit(Scheme(https) + body, true);
  }

  /** A rendered URL parses back to its parts. */
  lemma Reparse(https: bool, host: Text, port: Option<nat>, p: Text)
    requires HostOk(host) && PortOk(https, port) && PathOk(p)
    ensures ParseUrl(Render(https, host, port, p))
      == Some(Url(https, None, host, port, if p == [] then [SLASH] else p, [], []))
  {
    var body := host + PortText(port) + p;
    SchemeRead(https, body);
    DropPrefix(Scheme(https), body);
    ReparseBody(https, host, port, p);
  }

  lemma RenderTrimmed(https: bool, host: Text, port: Option<nat>, p: Text)
    requires HostOk(host) && PathOk(p)
    ensures Trim(Render(https, host, port, p)) == Render(https, host, port, p)
  {
    var body := host + PortText(port) + p;
    HostUnits(host);
    PortUnits(port);
    PathUnitsPlain(p);
    AuthorityAll(host, PortText(port));
    SchemeUnits(https);
    var authority := host + PortText(port);
    assert !IsSpace(body[|body| - 1]) by {
      if p == [] {
        assert body == authority;
        assert AuthorityUnit(authority[|authority| - 1]);
      } else {
        assert body[|body| - 1] == p[|p| - 1];
      }
    }
    TrimFixed(Render(https, host, port, p));
  }

  // ---- canonical form ----

  ghost predicate UrlOk(u: Url) {
    HostOk(u.host) && PortOk(u.https, u.port) && PathOk(u.path) && u.path != []
  }

  lemma ParsedOk(s: Text)
    ensures ParseUrl(s).Some? ==> UrlOk(ParseUrl(s).value)
  {
  }

  lemma {:induction false} StrippedOk(p: Text)
    requires PathOk(p)
    ensures PathOk(StripSlashes(p))
  {
    var r := StripSlashes(p);
    assert r == p[..|r|];
    forall i | 0 <= i < |r| ensures !DotSegmentAt(r, i) {
      assert !DotSegmentAt(p, i);
    }
  }

  lemma {:induction false} StripFixed(r: Text)
    requires r == [] || r[|r| - 1] != SLASH
    ensures StripSlashes(r) == r && StripSlashes([SLASH]) == []
  {
    var slash: Text := [SLASH];
    assert slash[..0] == [];
  }

  /** The parts of a URL its canonical form keeps. */
  function Identity(u: Url): (bool, Text, Option<nat>, Text) {
    (u.https, u.host, u.port, StripSlashes(u.path))
  }

  lemma NormalizedReparses(u: Url)
    requires UrlOk(u)
    ensures CanonicalizeCallback(Normalized(u)).Some?
    ensures CanonicalizeCallback(Normalized(u)).value.1 == Normalized(u)
    ensures Identity(CanonicalizeCallback(Normalized(u)).value.0) == Identity(u)
  {
    hide ParseUrl, Render;
    var p := StripSlashes(u.path);
    StrippedOk(u.path);
    Reparse(u.https, u.host, u.port, p);
    RenderTrimmed(u.https, u.host, u.port, p);
    StripFixed(p);
  }

  /** Canonicalisation is idempotent. */
  lemma CanonicalIdempotent(uri: Text)
    requires CanonicalizeCallback(uri).Some?
    ensures var n := CanonicalizeCallback(uri).value.1;
      CanonicalizeCallback(n).Some? && CanonicalizeCallback(n).value.1 == n
  {
    ParsedOk(Trim(uri));
    NormalizedReparses(CanonicalizeCallback(uri).value.0);
  }

  /** Two URLs have one canonical form exactly when scheme, host, port and path agree. */
  lemma CanonicalExactly(a: Text, b: Text)
    requires CanonicalizeCallback(a).Some? && CanonicalizeCallback(b).Some?
    ensures CanonicalizeCallback(a).value.1 == CanonicalizeCallback(b).value.1
      <==> Identity(CanonicalizeCallback(a).value.0) == Identity(CanonicalizeCallback(b).value.0)
  {
    ParsedOk(Trim(a));
    ParsedOk(Trim(b));
    NormalizedReparses(CanonicalizeCallback(a).value.0);
    NormalizedReparses(CanonicalizeCallback(b).value.0);
  }

  // ---- the registered list ----

  /** e is listed under the canonical form n. */
  predicate Pins(e: Text, n: Text) {
    Trim(e) != [] && CanonicalizeCallback(e).Some? && CanonicalizeCallback(e).value.1 == n
  }

  lemma {:induction false} FirstMatchExists(entries: seq<Text>, n: Text)
    ensures FirstMatch(entries, n).Some? <==> exists e :: e in entries && Pins(e, n)
  {
    hide CanonicalizeCallback, Trim;
    if entries == [] {
    } else {
      FirstMatchExists(entries[1..], n);
      assert FirstMatch(entries, n).Some? <==> Pins(entries[0], n) || FirstMatch(entries[1..], n).Some?;
      hide Pins, FirstMatch;
      assert forall e :: e in entries <==> e == entries[0] || e in entries[1..];
    }
  }

  // ---- the transport rule ----

  /** One to three decimal digits. */
  predicate ShortNumber(t: Text) { 1 <= |t| <= 3 && forall i | 0 <= i < |t| :: 48 <= t[i] <= 57 }

  /** The names of this machine, and every 127.d.d.d. */
  ghost predicate LocalName(h: Text) {
    || h == Units("localhost") || h == Units("127.0.0.1") || h == Units("::1") || h == Units("[::1]")
    || h == Units("0.0.0.0")
    || exists x, y, z :: ShortNumber(x) && ShortNumber(y) && ShortNumber(z) && h == Dotted(x, y, z)
  }

  function Dotted(x: Text, y: Text, z: Text): Text { Units("127.") + x + Units(".") + y + Units(".") + z }

  /** TLS to another machine, or this machine during development. */
  ghost predicate Safe(u: Url, mode: Mode) { if LocalName(u.host) then mode == Development else u.https }

  lemma {:induction false} JoinCons(a: Text, rest: seq<Text>, sep: Unit)
    requires rest != []
    ensures Join([a] + rest, sep) == a + [sep] + Join(rest, sep)
  {
    assert ([a] + rest)[1..] == rest;
  }

  lemma {:induction false} JoinFour(a: Text, b: Text, c: Text, d: Text, sep: Unit)
    ensures Join([a, b, c, d], sep) == a + [sep] + b + [sep] + c + [sep] + d
  {
    JoinCons(a, [b, c, d], sep);
    JoinCons(b, [c, d], sep);
    JoinCons(c, [d], sep);
    assert [a] + [b, c, d] == [a, b, c, d] && [b] + [c, d] == [b, c, d] && [c] + [d] == [c, d];
    hide Join;
    assert a + [sep] + (b + [sep] + (c + [sep] + d)) == a + [sep] + b + [sep] + c + [sep] + d;
  }

  lemma DottedJoin(x: Text, y: Text, z: Text)
    ensures Dotted(x, y, z) == Join([Units("127"), x, y, z], DOT)
  {
    JoinFour(Units("127"), x, y, z, DOT);
    assert Units(".") == [DOT];
    assert Units("127.") == Units("127") + [DOT];
  }

  lemma DottedSplit(x: Text, y: Text, z: Text)
    requires ShortNumber(x) && ShortNumber(y) && ShortNumber(z)
    ensures Split(Dotted(x, y, z), DOT) == [Units("127"), x, y, z]
  {
    DottedJoin(x, y, z);
    SplitJoin([Units("127"), x, y, z], DOT);
  }

  lemma {:induction false} SplitDotted(h: Text)
    requires var ls := Split(h, DOT); |ls| == 4 && ls[0] == Units("127")
    ensures var ls := Split(h, DOT); h == Dotted(ls[1], ls[2], ls[3])
  {
    var ls := Split(h, DOT);
    JoinSplit(h, DOT);
    DottedJoin(ls[1], ls[2], ls[3]);
    assert ls == [ls[0], ls[1], ls[2], ls[3]];
  }

  lemma LocalExactly(h: Text)
    ensures IsLoopbackHost(h) <==> LocalName(h)
  {
    if x, y, z :| ShortNumber(x) && ShortNumber(y) && ShortNumber(z) && h == Dotted(x, y, z) { DottedSplit(x, y, z); }
    var ls := Split(h, DOT);
    if |ls| == 4 && ls[0] == Units("127") && forall i | 1 <= i < 4 :: 0 < |ls[i]| <= 3 && AllDigits(ls[i]) {
      SplitDotted(h);
      assert ShortNumber(ls[1]) && ShortNumber(ls[2]) && ShortNumber(ls[3]);
    }
  }

  lemma TransportExactly(u: Url, mode: Mode)
    ensures CheckTransport(u, mode).None? <==> Safe(u, mode)
    ensures CheckTransport(u, mode) == Some(LocalhostNotAllowed) <==> LocalName(u.host) && mode == Production
    ensures CheckTransport(u, mode) == Some(InsecureScheme) <==> !LocalName(u.host) && !u.https
  {
    hide IsLoopbackHost, LocalName;
    LocalExactly(u.host);
  }

  // ---- acceptance ----

  /** The request part of acceptance: a live application and a short, canonical, safe URL. */
  ghost predicate Presentable(app: Option<Subject>, uri: Option<Text>, mode: Mode) {
    && app.Some? && !app.value.revoked
    && uri.Some? && Trim(uri.value) != [] && |uri.value| <= 2048
    && CanonicalizeCallback(uri.value).Some?
    && Safe(CanonicalizeCallback(uri.value).value.0, mode)
  }

  lemma ScreenExactly(app: Option<Subject>, uri: Option<Text>, mode: Mode)
    ensures Screen(app, uri, mode).Passed? ==>
      Presentable(app, uri, mode) && Screen(app, uri, mode).normalized == CanonicalizeCallback(uri.value).value.1
    ensures Presentable(app, uri, mode) && (exists e :: e in app.value.callbacks && Trim(e) != []) ==>
      Screen(app, uri, mode).Passed?
  {
    hide CanonicalizeCallback, CheckTransport, Trim, Safe;
    if uri.Some? && CanonicalizeCallback(uri.value).Some? {
      TransportExactly(CanonicalizeCallback(uri.value).value.0, mode);
    }
  }

  /**
   Acceptance spelled out: the application exists and is not revoked; the URL is short enough
   and goes by TLS to another machine, or to this one during development; and it canonicalises
   like some listed callback, which is what is returned.
   */
  lemma AcceptedExactly(app: Option<Subject>, uri: Option<Text>, mode: Mode)
    ensures CheckCallback(app, uri, mode).Accepted? <==>
      Presentable(app, uri, mode)
      && exists e :: e in app.value.callbacks && Pins(e, CanonicalizeCallback(uri.value).value.1)
    ensures CheckCallback(app, uri, mode).Accepted? ==>
      && CheckCallback(app, uri, mode).normalized == CanonicalizeCallback(uri.value).value.1
      && CheckCallback(app, uri, mode).registered in app.value.callbacks
      && Pins(CheckCallback(app, uri, mode).registered, CanonicalizeCallback(uri.value).value.1)
  {
    hide CanonicalizeCallback, CheckTransport, Screen, Trim, Presentable;
    ScreenExactly(app, uri, mode);
    if Presentable(app, uri, mode) {
      PresentableParts(app, uri, mode);
      FirstMatchExists(app.value.callbacks, CanonicalizeCallback(uri.value).value.1);
    }
  }

  lemma PresentableParts(app: Option<Subject>, uri: Option<Text>, mode: Mode)
    requires Presentable(app, uri, mode)
    ensures app.Some? && uri.Some? && CanonicalizeCallback(uri.value).Some?
  {
  }

  /** The reason a check gives for refusing. */
  predicate Refuses(app: Option<Subject>, uri: Option<Text>, mode: Mode, reason: Rejection) {
    CheckCallback(app, uri, mode) == Rejected(reason)
  }

  predicate Live(app: Option<Subject>) { app.Some? && !app.value.revoked }

  predicate Given(uri: Option<Text>) { uri.Some? && Trim(uri.value) != [] }

  /** Each reason is given exactly when it is the first that applies. */
  lemma RefusedExactly(app: Option<Subject>, uri: Option<Text>, mode: Mode)
    ensures Refuses(app, uri, mode, UnknownApp) <==> app.None?
    ensures Refuses(app, uri, mode, ApplicationRevoked) <==> app.Some? && app.value.revoked
    ensures Refuses(app, uri, mode, MissingUri) <==> Live(app) && !Given(uri)
    ensures Refuses(app, uri, mode, CallbackTooLong) <==> Live(app) && Given(uri) && |uri.value| > 2048
    ensures Refuses(app, uri, mode, MalformedUri) || Refuses(app, uri, mode, UnsupportedScheme) <==>
      Live(app) && Given(uri) && |uri.value| <= 2048 && CanonicalizeCallback(uri.value).None?
    ensures Refuses(app, uri, mode, UnsupportedScheme) ==> SchemeLike(Trim(uri.value))
    ensures Refuses(app, uri, mode, MalformedUri) ==> !SchemeLike(Trim(uri.value))
    ensures Live(app) && Given(uri) && |uri.value| <= 2048 && CanonicalizeCallback(uri.value).Some? ==>
      var url := CanonicalizeCallback(uri.value).value.0;
      && (Refuses(app, uri, mode, LocalhostNotAllowed) <==> LocalName(url.host) && mode == Production)
      && (Refuses(app, uri, mode, InsecureScheme) <==> !LocalName(url.host) && !url.https)
      && (Refuses(app, uri, mode, NoCallbackRegistered) <==>
            Safe(url, mode) && forall e | e in app.value.callbacks :: Trim(e) == [])
      && (Refuses(app, uri, mode, CallbackNotRegistered) <==>
            Safe(url, mode) && (exists e :: e in app.value.callbacks && Trim(e) != [])
            && !exists e :: e in app.value.callbacks && Pins(e, CanonicalizeCallback(uri.value).value.1))
  {
    hide CanonicalizeCallback, LocalName, Trim, CheckTransport, IsLoopbackHost;
    if Live(app) && Given(uri) {
      SchemeLikeExactly(uri.value);
      if CanonicalizeCallback(uri.value).Some? {
        TransportExactly(CanonicalizeCallback(uri.value).value.0, mode);
        FirstMatchExists(app.value.callbacks, CanonicalizeCallback(uri.value).value.1);
      }
    }
  }

  predicate Letter(u: Unit) { 65 <= u <= 90 || 97 <= u <= 122 }

  /** A letter, then letters, digits, `+`, `.` and `-` up to a colon. */
  ghost predicate SchemeLike(s: Text) { exists n :: SchemeTo(s, n) }

  predicate SchemeTo(s: Text, n: int) {
    && 0 < n < |s| && s[n] == 58 && Letter(s[0])
    && forall i | 0 <= i < n :: Letter(s[i]) || 48 <= s[i] <= 57 || s[i] == 43 || s[i] == 46 || s[i] == 45
  }

  lemma SchemeLikeExactly(uri: Text)
    ensures SchemeRejection(uri) == if SchemeLike(Trim(uri)) then UnsupportedScheme else MalformedUri
    ensures SchemeRejection(Trim(uri)) == SchemeRejection(uri)
  {
    hide Trim;
    TrimTwice(uri);
    var s := Trim(uri);
    var n := Span(s, (u: Unit) => !SchemeUnit(u));
    if m :| SchemeTo(s, m) { assert n == m; }
    if 0 < n < |s| && s[n] == COLON && !IsDigit(s[0]) && IsAlphanumeric(s[0]) { assert SchemeTo(s, n); }
  }

  lemma {:induction false} TrimTwice(s: Text)
    ensures Trim(Trim(s)) == Trim(s)
  {
    TrimFixed(Trim(s));
  }

  /** What may be registered: a short URL without query and fragment that obeys the transport rule. */
  ghost predicate Registrable(uri: Option<Text>, mode: Mode) {
    && uri.Some? && Trim(uri.value) != [] && |uri.value| <= 2048
    && ParseUrl(Trim(uri.value)).Some?
    && var u := ParseUrl(Trim(uri.value)).value; u.query == [] && u.fragment == [] && Safe(u, mode)
  }

  lemma RegistrableExactly(uri: Option<Text>, mode: Mode)
    ensures RegistrationProblem(uri, mode).None? <==> Registrable(uri, mode)
  {
    hide ParseUrl, CheckTransport, Trim, Safe;
    if uri.Some? && ParseUrl(Trim(uri.value)).Some? { TransportExactly(ParseUrl(Trim(uri.value)).value, mode); }
  }

  lemma RegistrablePresentable(app: Subject, uri: Text, mode: Mode)
    requires Registrable(Some(uri), mode) && !app.revoked
    ensures Presentable(Some(app), Some(uri), mode) && Presentable(Some(app), Some(Trim(uri)), mode)
    ensures CanonicalizeCallback(uri).Some? && CanonicalizeCallback(Trim(uri)) == CanonicalizeCallback(uri)
    ensures Trim(uri) != [] && Trim(Trim(uri)) != []
  {
    hide Safe, ParseUrl, Normalized, TrimStart, TrimEnd;
    TrimTwice(uri);
  }

  /**
   A URL that may be registered in a mode is accepted in that mode as soon as it is listed,
   as typed or as stored (`replaceCallbacks` stores it trimmed).
   */
  lemma RegisteredIsAccepted(app: Subject, uri: Text, mode: Mode)
    requires RegistrationProblem(Some(uri), mode).None?
    requires !app.revoked && (uri in app.callbacks || Trim(uri) in app.callbacks)
    ensures CheckCallback(Some(app), Some(uri), mode).Accepted?
    ensures CheckCallback(Some(app), Some(Trim(uri)), mode).Accepted?
  {
    RegistrableExactly(Some(uri), mode);
    RegistrablePresentable(app, uri, mode);
    AcceptedExactly(Some(app), Some(uri), mode);
    AcceptedExactly(Some(app), Some(Trim(uri)), mode);
    hide Presentable, CheckCallback, CheckTransport, RegistrationProblem, CanonicalizeCallback, Trim;
    var e := if uri in app.callbacks then uri else Trim(uri);
    assert e in app.callbacks && Pins(e, CanonicalizeCallback(uri).value.1);
  }

  lemma SafeByIdentity(u: Url, v: Url, mode: Mode)
    requires Identity(u) == Identity(v)
    ensures Safe(u, mode) <==> Safe(v, mode)
  {
  }

  /** The entry a redirect goes to is a listed one, and obeys the same transport rule. */
  lemma RedirectIsPinned(app: Option<Subject>, uri: Option<Text>, mode: Mode)
    requires CheckCallback(app, uri, mode).Accepted?
    ensures var entry := CheckCallback(app, uri, mode).registered;
      && entry in app.value.callbacks
      && CanonicalizeCallback(entry).Some?
      && Safe(CanonicalizeCallback(entry).value.0, mode)
  {
    hide CanonicalizeCallback, CheckCallback, Safe;
    var entry := CheckCallback(app, uri, mode).registered;
    AcceptedExactly(app, uri, mode);
    CanonicalExactly(uri.value, entry);
    SafeByIdentity(CanonicalizeCallback(uri.value).value.0, CanonicalizeCallback(entry).value.0, mode);
  }

  /**
   Two accepted URLs resolve to the same registered entry exactly when they canonicalise
   alike.
   */
  lemma SameEntry(app: Option<Subject>, u: Option<Text>, v: Option<Text>, mode: Mode)
    requires CheckCallback(app, u, mode).Accepted? && CheckCallback(app, v, mode).Accepted?
    ensures CheckCallback(app, u, mode).registered == CheckCallback(app, v, mode).registered
      <==> CheckCallback(app, u, mode).normalized == CheckCallback(app, v, mode).normalized
  {
  }

  /**
   With the registered list unchanged, a code approved under one redirect_uri is redeemable
   under another accepted one exactly when the two canonicalise to the same text.
   */
  lemma RedeemableAcross(app: Option<Subject>, approved: Option<Text>, presented: Option<Text>, mode: Mode,
                         g: CodeStore.Grant, q: CodeStore.Query)
    requires CheckCallback(app, approved, mode).Accepted?
    requires CheckCallback(app, presented, mode).Accepted?
    requires g.redirectUri == CheckCallback(app, approved, mode).registered
    requires q.redirectUri == CheckCallback(app, presented, mode).registered
    requires g.code == q.code && g.clientId == q.clientId && q.now < g.expiresAt
    ensures approved.Some? && presented.Some?
    ensures CodeStore.Redeemable(g, q) <==>
      CanonicalizeCallback(approved.value).Some? && CanonicalizeCallback(presented.value).Some?
      && CanonicalizeCallback(approved.value).value.1 == CanonicalizeCallback(presented.value).value.1
  {
    hide CanonicalizeCallback, CheckCallback;
    AcceptedExactly(app, approved, mode);
    AcceptedExactly(app, presented, mode);
    SameEntry(app, approved, presented, mode);
  }
}
