/** Every spelling of a callback URL in the grammar is read as its parts, and has one canonical form. */
module CallbackText {
  import opened Texts
  import opened Callbacks
  import opened CallbackFacts

  /** The text of a URL: any letter case in scheme and host, an optional part wherever the grammar has one. */
  datatype Written = Written(scheme: Text, userinfo: Option<Text>, host: Text, port: Text, path: Text,
                             query: Option<Text>, fragment: Option<Text>)

  function UserPart(w: Written): Text { if w.userinfo.Some? then w.userinfo.value + [64] else [] }

  function TailPart(query: Option<Text>, fragment: Option<Text>): Text {
    (if query.Some? then [63] + query.value else []) + (if fragment.Some? then [35] + fragment.value else [])
  }

  function TextOf(w: Written): Text {
    w.scheme + (UserPart(w) + w.host + w.port + (w.path + TailPart(w.query, w.fragment)))
  }

  predicate UserOk(s: Text) { All(s, UserUnit) && SLASH !in s && QUESTION !in s && HASH !in s }

  predicate PortIn(s: Text) {
    s != [] ==> s[0] == 58 && AllDigits(s[1..]) && DecimalValue(s[1..]) < 65536
  }

  /** The text is in the grammar; https says which scheme it names. */
  predicate InGrammar(w: Written, https: bool) {
    && LowerAscii(w.scheme) == (if https then Units("https://") else Units("http://"))
    && (w.userinfo.Some? ==> UserOk(w.userinfo.value))
    && HostOk(LowerAscii(w.host))
    && PortIn(w.port)
    && PathOk(w.path)
    && (w.query.Some? ==> All(w.query.value, NotControl) && HASH !in w.query.value)
    && (w.fragment.Some? ==> All(w.fragment.value, NotControl))
  }

  /** The port a URL keeps: none if it is empty or the default one of the scheme. */
  function KeptPort(port: Text, https: bool): Option<nat>
    requires PortIn(port)
  {
    if |port| <= 1 || DecimalValue(port[1..]) == (if https then 443 else 80) then None
    else Some(DecimalValue(port[1..]))
  }

  function OrEmpty(t: Option<Text>): Text { if t.Some? then t.value else [] }

  lemma PortTailUnits(s: Text)
    requires PortIn(s)
    ensures All(s, AuthorityUnit)
  {
    forall i | 0 <= i < |s| ensures AuthorityUnit(s[i]) {
      if i > 0 { assert IsDigit(s[1..][i - 1]); }
    }
  }

  lemma HostCase(host: Text)
    requires HostOk(LowerAscii(host))
    ensures host != [] && All(host, AuthorityUnit)
    ensures host == Loopback6() || (LowerAscii(host) != Loopback6() && host[0] != 0x5B && COLON !in host)
  {
    HostUnits(LowerAscii(host));
    Loopback6Units();
    forall i | 0 <= i < |host| ensures AuthorityUnit(host[i]) { assert AuthorityUnit(LowerAscii(host)[i]); }
    if LowerAscii(host) == Loopback6() {
      forall i | 0 <= i < |host| ensures host[i] == Loopback6()[i] { assert LowerUnit(host[i]) == Loopback6()[i]; }
    } else {
      forall i | 0 <= i < |host| ensures host[i] != COLON { assert LowerAscii(host)[i] != COLON; }
    }
  }

  lemma ReadHostPort(host: Text, port: Text, https: bool)
    requires HostOk(LowerAscii(host)) && PortIn(port)
    ensures ParseHostPort(https, host + port) == Some((LowerAscii(host), KeptPort(port, https)))
  {
    HostCase(host);
    Loopback6Units();
    DropPrefix(host, port);
    hide HostOk;
    if host == Loopback6() {
      assert LowerAscii(host) == Loopback6();
    } else {
      assert (host + port)[0] != Loopback6()[0];
      SpanStops(host, port, u => u == COLON);
    }
  }

  lemma ReadPath(path: Text, query: Option<Text>, fragment: Option<Text>)
    requires PathOk(path)
    requires query.Some? ==> All(query.value, NotControl) && HASH !in query.value
    requires fragment.Some? ==> All(fragment.value, NotControl)
    ensures ParsePath(path + TailPart(query, fragment)) ==
      Some((if path == [] then [47] else path, OrEmpty(query), OrEmpty(fragment)))
  {
    var q := if query.Some? then [QUESTION] + query.value else [];
    var f := if fragment.Some? then [HASH] + fragment.value else [];
    PathUnitsPlain(path);
    hide PathOk;
    assert TailPart(query, fragment) == q + f;
    SpanStops(path, q + f, u => u == QUESTION || u == HASH);
    DropPrefix(path, q + f);
    ReadTail(q, f, query, fragment);
  }

  lemma {:induction false} ReadTail(q: Text, f: Text, query: Option<Text>, fragment: Option<Text>)
    requires q == if query.Some? then [QUESTION] + query.value else []
    requires f == if fragment.Some? then [HASH] + fragment.value else []
    requires query.Some? ==> HASH !in query.value
    ensures Span(q + f, u => u == HASH) == |q|
    ensures q != [] ==> (q + f)[1..|q|] == OrEmpty(query)
    ensures |q| < |q + f| ==> (q + f)[|q| + 1..] == OrEmpty(fragment)
  {
    SpanStops(q, f, u => u == HASH);
  }

  lemma {:induction false} LastOfUser(user: Text, rest: Text)
    requires All(rest, AuthorityUnit)
    ensures LastAt(user + [AT] + rest) == Some(|user|)
    decreases |rest|
  {
    var s := user + [AT] + rest;
    if rest == [] {
    } else {
      assert s[..|s| - 1] == user + [AT] + rest[..|rest| - 1];
      LastOfUser(user, rest[..|rest| - 1]);
    }
  }

  /** Nothing in the text ends an authority. */
  predicate Undelimited(a: Text) { forall i | 0 <= i < |a| :: a[i] != SLASH && a[i] != QUESTION && a[i] != HASH }

  lemma UserAuthority(user: Text, b: Text)
    requires UserOk(user) && All(b, AuthorityUnit)
    ensures var a := user + [AT] + b;
      Undelimited(a) && LastAt(a) == Some(|user|) && a[..|user|] == user && a[|user| + 1..] == b
  {
    LastOfUser(user, b);
    hide LastAt;
    var a := user + [AT] + b;
    forall i | 0 <= i < |a| ensures a[i] != SLASH && a[i] != QUESTION && a[i] != HASH {
      if i < |user| { assert a[i] in user; } else if i > |user| { assert AuthorityUnit(b[i - |user| - 1]); }
    }
  }

  lemma {:induction false} PlainAuthority(b: Text)
    requires All(b, AuthorityUnit)
    ensures Undelimited(b) && LastAt(b).None?
  {
    NoAt(b);
    hide LastAt;
    forall i | 0 <= i < |b| ensures b[i] != SLASH && b[i] != QUESTION && b[i] != HASH { assert AuthorityUnit(b[i]); }
  }

  lemma HostPortUnits(host: Text, port: Text)
    requires HostOk(LowerAscii(host)) && PortIn(port)
    ensures All(host + port, AuthorityUnit)
  {
    HostCase(host);
    PortTailUnits(port);
    AuthorityAll(host, port);
  }

  function UrlOf(w: Written, https: bool): Url
    requires InGrammar(w, https)
  {
    Url(https, w.userinfo, LowerAscii(w.host), KeptPort(w.port, https), if w.path == [] then [47] else w.path,
        OrEmpty(w.query), OrEmpty(w.fragment))
  }

  /** Every text of the grammar parses to its parts: host in lower case, default port dropped. */
  lemma ParseWritten(w: Written, https: bool)
    requires InGrammar(w, https)
    ensures ParseUrl(TextOf(w)) == Some(UrlOf(w, https))
  {
    var a, rest := UserPart(w) + w.host + w.port, w.path + TailPart(w.query, w.fragment);
    ReadScheme(w.scheme, a + rest, https);
    DropPrefix(w.scheme, a + rest);
    ReadAfterScheme(w, https);
    hide ParseAfterScheme, InGrammar, HasScheme, UrlOf, Scheme;
    assert TextOf(w) == w.scheme + (a + rest);
  }

  lemma ReadAfterScheme(w: Written, https: bool)
    requires InGrammar(w, https)
    ensures ParseAfterScheme(https, UserPart(w) + w.host + w.port + (w.path + TailPart(w.query, w.fragment)))
      == Some(UrlOf(w, https))
  {
    hide ParseAfterScheme, ParseHostPort, ParsePath, LastAt, LowerAscii, HostOk, PathOk, PortIn, TailPart, KeptPort;
    hide UserOk, All;
    var b, rest := w.host + w.port, w.path + TailPart(w.query, w.fragment);
    HostPortUnits(w.host, w.port);
    PathStart(w);
    ReadHostPort(w.host, w.port, https);
    ReadPath(w.path, w.query, w.fragment);
    if w.userinfo.Some? {
      var user := w.userinfo.value;
      UserAuthority(user, b);
      UserUnits(user);
      assert UserPart(w) + w.host + w.port == user + [AT] + b;
      ReadWithUser(https, user, b, rest, LowerAscii(w.host), KeptPort(w.port, https),
                   if w.path == [] then [47] else w.path, OrEmpty(w.query), OrEmpty(w.fragment));
    } else {
      PlainAuthority(b);
      assert UserPart(w) + w.host + w.port == b;
      ReadPlain(https, b, rest, LowerAscii(w.host), KeptPort(w.port, https),
                if w.path == [] then [47] else w.path, OrEmpty(w.query), OrEmpty(w.fragment));
    }
  }

  lemma UserUnits(user: Text)
    requires UserOk(user)
    ensures All(user, UserUnit)
  {
  }

  predicate Delimited(rest: Text) { rest == [] || rest[0] == SLASH || rest[0] == QUESTION || rest[0] == HASH }

  lemma {:induction false} AuthoritySpan(a: Text, rest: Text)
    requires Undelimited(a) && Delimited(rest)
    ensures Span(a + rest, u => u == SLASH || u == QUESTION || u == HASH) == |a|
    ensures (a + rest)[..|a|] == a && (a + rest)[|a|..] == rest
  {
    SpanStops(a, rest, u => u == SLASH || u == QUESTION || u == HASH);
    DropPrefix(a, rest);
  }

  lemma ReadWithUser(https: bool, user: Text, b: Text, rest: Text, host: Text, port: Option<nat>, path: Text,
                     query: Text, fragment: Text)
    requires var a := user + [AT] + b;
      Undelimited(a) && LastAt(a) == Some(|user|) && a[..|user|] == user && a[|user| + 1..] == b
    requires Delimited(rest) && All(user, UserUnit)
    requires ParseHostPort(https, b) == Some((host, port)) && ParsePath(rest) == Some((path, query, fragment))
    ensures ParseAfterScheme(https, user + [AT] + b + rest)
      == Some(Url(https, Some(user), host, port, path, query, fragment))
  {
    hide ParseHostPort, ParsePath, LastAt, All, Span, Undelimited, Delimited;
    AuthoritySpan(user + [AT] + b, rest);
  }

  lemma {:induction false} ReadPlain(https: bool, b: Text, rest: Text, host: Text, port: Option<nat>, path: Text,
                                     query: Text, fragment: Text)
    requires Undelimited(b) && LastAt(b).None? && Delimited(rest)
    requires ParseHostPort(https, b) == Some((host, port)) && ParsePath(rest) == Some((path, query, fragment))
    ensures ParseAfterScheme(https, b + rest) == Some(Url(https, None, host, port, path, query, fragment))
  {
    hide ParseHostPort, ParsePath, LastAt, Span, Undelimited, Delimited;
    AuthoritySpan(b, rest);
  }

  lemma PathStart(w: Written)
    requires PathOk(w.path)
    ensures Delimited(w.path + TailPart(w.query, w.fragment))
  {
  }

  lemma ReadScheme(scheme: Text, body: Text, https: bool)
    requires LowerAscii(scheme) == (if https then Units("https://") else Units("http://"))
    ensures |scheme| == |Scheme(https)| && HasScheme(scheme + body, https)
    ensures !https ==> !HasScheme(scheme + body, true)
  {
    SchemeUnits(https);
    SchemeUnits(true);
    DropPrefix(scheme, body);
    assert LowerAscii(scheme)[4] == LowerUnit(scheme[4]);
    FifthUnit(scheme + body, true);
  }

  /** The canonical text, written out. */
  function CanonicalText(w: Written, https: bool): Text
    requires InGrammar(w, https)
  {
    var port := KeptPort(w.port, https);
    (if https then Units("https://") else Units("http://"))
    + (LowerAscii(w.host) + (if port.Some? then [58] + Decimal(port.value) else []) + StripSlashes(w.path))
  }

  lemma CanonicalWritten(w: Written, https: bool)
    requires InGrammar(w, https) && Trimmed(TextOf(w))
    ensures CanonicalizeCallback(TextOf(w)) == Some((UrlOf(w, https), CanonicalText(w, https)))
  {
    hide ParseUrl, LowerAscii, Trim, InGrammar, KeptPort, Decimal;
    TrimFixed(TextOf(w));
    ParseWritten(w, https);
    StripFixed([]);
  }
}
