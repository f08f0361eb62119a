/**
 The callback allow-list: canonicalising an http(s) URL, deciding whether it may receive an
 authorization code, and deciding whether it may be registered.
 */
module Callbacks {
  import opened Texts

  // ---- a grammar of absolute http(s) URLs ----

  /** A parsed URL: host lowercased, default port dropped, path never empty. */
  datatype Url = Url(https: bool, userinfo: Option<Text>, host: Text, port: Option<nat>,
                     path: Text, query: Text, fragment: Text)

  const SLASH: Unit := 0x2F
  const COLON: Unit := 0x3A
  const AT: Unit := 0x40
  const DOT: Unit := 0x2E
  const QUESTION: Unit := 0x3F
  const HASH: Unit := 0x23

  function Scheme(https: bool): Text { if https then Units("https://") else Units("http://") }

  function Loopback6(): Text { Units("[::1]") }

  /** How many leading units do not satisfy `stop`. */
  function Span(s: Text, stop: Unit -> bool): (n: nat)
    ensures n <= |s| && (n < |s| ==> stop(s[n]))
    ensures forall i | 0 <= i < n :: !stop(s[i])
  {
    if s == [] || stop(s[0]) then 0 else 1 + Span(s[1..], stop)
  }

  function LastAt(s: Text): (i: Option<nat>)
    ensures i.Some? ==> i.value < |s| && s[i.value] == AT
    ensures i.None? ==> AT !in s
  {
    if s == [] then None
    else if s[|s| - 1] == AT then Some(|s| - 1)
    else LastAt(s[..|s| - 1])
  }

  predicate IsAlphanumeric(u: Unit) {
    IsDigit(u) || 'a' as int <= u <= 'z' as int || 'A' as int <= u <= 'Z' as int
  }

  predicate HostUnit(u: Unit) {
    IsDigit(u) || 'a' as int <= u <= 'z' as int || u == DOT || u == '-' as int
  }

  predicate PathUnit(u: Unit) {
    || IsAlphanumeric(u) || u == SLASH || u == COLON || u == AT || u == DOT
    || u == '-' as int || u == '_' as int || u == '~' as int || u == '!' as int || u == '$' as int
    || 0x26 <= u <= 0x2C || u == ';' as int || u == '=' as int
  }

  predicate UserUnit(u: Unit) { 0x21 <= u <= 0x7E && u != 0x5C }

  predicate NotControl(u: Unit) { u >= 0x20 }

  predicate All(s: Text, p: Unit -> bool) { forall i | 0 <= i < |s| :: p(s[i]) }

  predicate IsHex(u: Unit) { IsDigit(u) || 'a' as int <= u <= 'f' as int }

  /** A label that makes URL parsers read the host as an IPv4 number. */
  predicate NumericLabel(l: Text) {
    (l != [] && AllDigits(l)) || (|l| >= 2 && l[0] == 48 && l[1] == 'x' as int && All(l[2..], IsHex))
  }

  predicate NumericHost(h: Text) {
    var ls := Split(h, DOT);
    NumericLabel(ls[|ls| - 1]) || (|ls| > 1 && ls[|ls| - 1] == [] && NumericLabel(ls[|ls| - 2]))
  }

  predicate Octet(l: Text) {
    0 < |l| <= 3 && AllDigits(l) && DecimalValue(l) <= 255 && (|l| > 1 ==> l[0] != 48)
  }

  predicate Ipv4(h: Text) {
    var ls := Split(h, DOT);
    |ls| == 4 && Octet(ls[0]) && Octet(ls[1]) && Octet(ls[2]) && Octet(ls[3])
  }

  predicate HostName(h: Text) {
    h != [] && All(h, HostUnit) && (NumericHost(h) ==> Ipv4(h))
  }

  predicate HostOk(h: Text) { h == Loopback6() || HostName(h) }

  /** A `.` or `..` segment starts after position i. */
  predicate DotSegmentAt(p: Text, i: nat)
    requires i < |p|
  {
    p[i] == SLASH && i + 1 < |p| && p[i + 1] == DOT &&
    (i + 2 == |p| || p[i + 2] == SLASH || (p[i + 2] == DOT && (i + 3 == |p| || p[i + 3] == SLASH)))
  }

  predicate PathOk(p: Text) {
    All(p, PathUnit) && (p == [] || p[0] == SLASH) && forall i | 0 <= i < |p| :: !DotSegmentAt(p, i)
  }

  function DefaultPort(https: bool): nat { if https then 443 else 80 }

  predicate PortOk(https: bool, port: Option<nat>) {
    port.Some? ==> port.value < 65536 && port.value != DefaultPort(https)
  }

  /** The optional `:port` after a host; None when malformed. */
  function ParsePort(https: bool, s: Text): (r: Option<Option<nat>>)
    ensures r.Some? ==> PortOk(https, r.value)
  {
    if s == [] then Some(None)
    else if s[0] != COLON || !AllDigits(s[1..]) then None
    else if s[1..] == [] || DecimalValue(s[1..]) == DefaultPort(https) then Some(None)
    else if DecimalValue(s[1..]) < 65536 then Some(Some(DecimalValue(s[1..])))
    else None
  }

  function ParseHostPort(https: bool, s: Text): (r: Option<(Text, Option<nat>)>)
    ensures r.Some? ==> HostOk(r.value.0) && PortOk(https, r.value.1)
  {
    var n := if Loopback6() <= s then 5 else Span(s, u => u == COLON);
    var host := if Loopback6() <= s then Loopback6() else LowerAscii(s[..n]);
    if !HostOk(host) then None
    else
      match ParsePort(https, s[n..])
      case None => None
      case Some(port) => Some((host, port))
  }

  function ParsePath(s: Text): (r: Option<(Text, Text, Text)>)
    ensures r.Some? ==> PathOk(r.value.0) && r.value.0 != []
  {
    var n := Span(s, u => u == QUESTION || u == HASH);
    var path, rest := s[..n], s[n..];
    var m := Span(rest, u => u == HASH);
    var query := if m > 0 then rest[1..m] else [];
    var fragment := if m < |rest| then rest[m + 1..] else [];
    if !PathOk(path) || !All(query, NotControl) || !All(fragment, NotControl) then None
    else Some((if path == [] then [SLASH] else path, query, fragment))
  }

  function ParseAfterScheme(https: bool, s: Text): Option<Url> {
    var n := Span(s, u => u == SLASH || u == QUESTION || u == HASH);
    var authority := s[..n];
    var at := LastAt(authority);
    var userinfo := if at.Some? then Some(authority[..at.value]) else None;
    var hostPort := if at.Some? then authority[at.value + 1..] else authority;
    if userinfo.Some? && !All(userinfo.value, UserUnit) then None
    else
      match (ParseHostPort(https, hostPort), ParsePath(s[n..]))
      case (Some((host, port)), Some((path, query, fragment))) =>
        Some(Url(https, userinfo, host, port, path, query, fragment))
      case _ => None
  }

  predicate HasScheme(s: Text, https: bool) {
    |Scheme(https)| <= |s| && LowerAscii(s[..|Scheme(https)|]) == Scheme(https)
  }

  /** `new URL(s)`, restricted to the grammar; None is the thrown TypeError. */
  function ParseUrl(s: Text): Option<Url> {
    if HasScheme(s, true) then ParseAfterScheme(true, s[|Scheme(true)|..])
    else if HasScheme(s, false) then ParseAfterScheme(false, s[|Scheme(false)|..])
    else None
  }

  // ---- canonical form ----

  /** Every trailing slash goes, not only one. */
  function StripSlashes(p: Text): (r: Text)
    ensures r <= p && (r == [] || r[|r| - 1] != SLASH)
    ensures |r| < |p| ==> p[|r|] == SLASH
  {
    if p != [] && p[|p| - 1] == SLASH then StripSlashes(p[..|p| - 1]) else p
  }

  function PortText(port: Option<nat>): Text {
    if port.Some? then [COLON] + Decimal(port.value) else []
  }

  function Render(https: bool, host: Text, port: Option<nat>, path: Text): Text {
    Scheme(https) + (host + PortText(port) + path)
  }

  function Normalized(u: Url): Text { Render(u.https, u.host, u.port, StripSlashes(u.path)) }

  function CanonicalizeCallback(uri: Text): Option<(Url, Text)> {
    match ParseUrl(Trim(uri))
    case None => None
    case Some(u) => Some((u, Normalized(u)))
  }

  // ---- the decision ----

  datatype Mode = Development | Production

  datatype Rejection =
    | UnknownApp | ApplicationRevoked | MissingUri | MalformedUri | UnsupportedScheme | InsecureScheme
    | LocalhostNotAllowed | NoCallbackRegistered | CallbackNotRegistered | CallbackHasParameters | CallbackTooLong

  datatype Subject = Subject(revoked: bool, callbacks: seq<Text>)

  datatype Check = Accepted(normalized: Text, registered: Text) | Rejected(reason: Rejection)

  const MAX_CALLBACK_LENGTH := 2048

  predicate IsLoopbackHost(h: Text) {
    || h == Units("localhost") || h == Units("127.0.0.1") || h == Units("::1") || h == Loopback6()
    || h == Units("0.0.0.0")
    || (var ls := Split(h, DOT);
        && |ls| == 4 && ls[0] == Units("127")
        && forall i | 1 <= i < 4 :: 0 < |ls[i]| <= 3 && AllDigits(ls[i]))
  }

  function CheckTransport(u: Url, mode: Mode): Option<Rejection> {
    if IsLoopbackHost(u.host) then if mode == Production then Some(LocalhostNotAllowed) else None
    else if u.https then None
    else Some(InsecureScheme)
  }

  predicate SchemeUnit(u: Unit) { IsAlphanumeric(u) || u == '+' as int || u == DOT || u == '-' as int }

  /** `/^[a-z][a-z0-9+.-]*:/i` */
  function SchemeRejection(uri: Text): Rejection {
    var s := Trim(uri);
    var n := Span(s, (u: Unit) => !SchemeUnit(u));
    if 0 < n < |s| && s[n] == COLON && !IsDigit(s[0]) && IsAlphanumeric(s[0]) then UnsupportedScheme
    else MalformedUri
  }

  /** Blank entries are skipped. */
  predicate Listed(entry: Text) { Trim(entry) != [] }

  /** The first listed entry with the given canonical form. */
  function FirstMatch(entries: seq<Text>, normalized: Text): (r: Option<Text>)
    ensures r.Some? ==> r.value in entries && Listed(r.value)
    ensures r.Some? ==>
      CanonicalizeCallback(r.value).Some? && CanonicalizeCallback(r.value).value.1 == normalized
  {
    if entries == [] then None
    else
      var pinned := CanonicalizeCallback(entries[0]);
      if Listed(entries[0]) && pinned.Some? && pinned.value.1 == normalized then Some(entries[0])
      else FirstMatch(entries[1..], normalized)
  }

  datatype Screened = Passed(normalized: Text) | Failed(reason: Rejection)

  /** Everything decided about the request before the registered list is looked at. */
  function Screen(app: Option<Subject>, uri: Option<Text>, mode: Mode): Screened {
    if app.None? then Failed(UnknownApp)
    else if app.value.revoked then Failed(ApplicationRevoked)
    else if uri.None? || Trim(uri.value) == [] then Failed(MissingUri)
    else if |uri.value| > MAX_CALLBACK_LENGTH then Failed(CallbackTooLong)
    else
      match CanonicalizeCallback(uri.value)
      case None => Failed(SchemeRejection(uri.value))
      case Some((url, normalized)) =>
        match CheckTransport(url, mode)
        case Some(reason) => Failed(reason)
        case None =>
          if forall i | 0 <= i < |app.value.callbacks| :: !Listed(app.value.callbacks[i])
          then Failed(NoCallbackRegistered)
          else Passed(normalized)
  }

  function CheckCallback(app: Option<Subject>, uri: Option<Text>, mode: Mode): Check {
    match Screen(app, uri, mode)
    case Failed(reason) => Rejected(reason)
    case Passed(normalized) =>
      match FirstMatch(app.value.callbacks, normalized)
      case None => Rejected(CallbackNotRegistered)
      case Some(entry) => Accepted(normalized, entry)
  }

  /** The scan of the source: the registered list is filtered, then walked until a match. */
  method ScanCallbacks(app: Option<Subject>, uri: Option<Text>, mode: Mode) returns (r: Check)
    ensures r == CheckCallback(app, uri, mode)
  {
    var screened := Screen(app, uri, mode);
    if screened.Failed? { return Rejected(screened.reason); }
    var entries := app.value.callbacks;
    for i := 0 to |entries|
      invariant FirstMatch(entries, screened.normalized) == FirstMatch(entries[i..], screened.normalized)
    {
      if Listed(entries[i]) {
        var pinned := CanonicalizeCallback(entries[i]);
        if pinned.Some? && pinned.value.1 == screened.normalized {
          return Accepted(screened.normalized, entries[i]);
        }
      }
    }
    return Rejected(CallbackNotRegistered);
  }

  /** `validateRegistrableCallback`; None is ok, with the canonical form left to the caller. */
  function RegistrationProblem(uri: Option<Text>, mode: Mode): Option<Rejection> {
    if uri.None? || Trim(uri.value) == [] then Some(MissingUri)
    else if |uri.value| > MAX_CALLBACK_LENGTH then Some(CallbackTooLong)
    else
      match ParseUrl(Trim(uri.value))
      case None => Some(SchemeRejection(Trim(uri.value)))
      case Some(raw) =>
        if raw.query != [] || raw.fragment != [] then Some(CallbackHasParameters)
        else CheckTransport(raw, mode)
  }
}
