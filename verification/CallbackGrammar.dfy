/** Exactly which texts are read as callback URLs, over literal code units. */
module CallbackGrammar {
  import opened Texts
  import opened Callbacks
  import opened CallbackText

  predicate Digits(s: Text) { s != [] && forall i | 0 <= i < |s| :: 0x30 <= s[i] <= 0x39 }

  // ---- host names ----

  predicate NameText(h: Text) {
    h != [] && forall i | 0 <= i < |h| ::
      0x30 <= h[i] <= 0x39 || 0x61 <= h[i] <= 0x7A || h[i] == 0x2D || h[i] == 0x2E
  }

  /** Decimal digits, or hexadecimal ones after 0x. */
  predicate NumberText(l: Text) {
    || Digits(l)
    || (|l| >= 2 && l[0] == 0x30 && l[1] == 0x78
        && forall i | 2 <= i < |l| :: 0x30 <= l[i] <= 0x39 || 0x61 <= l[i] <= 0x66)
  }

  /** Nothing, or labels that end in a dot; a label that is a number; perhaps a last dot. */
  predicate LastNumber(h: Text, a: Text, l: Text, dot: Text) {
    && h == a + l + dot && (a == [] || a[|a| - 1] == 0x2E) && 0x2E !in l && NumberText(l)
    && (dot == [] || dot == [0x2E])
  }

  predicate OctetText(l: Text) {
    && Digits(l) && |l| <= 3 && (|l| > 1 ==> l[0] != 0x30)
    && (|l| == 3 ==> 100 * (l[0] - 48) + 10 * (l[1] - 48) + (l[2] - 48) <= 255)
  }

  predicate FourOctets(h: Text, a: Text, b: Text, c: Text, d: Text) {
    && h == a + [0x2E] + (b + [0x2E] + (c + [0x2E] + d))
    && OctetText(a) && OctetText(b) && OctetText(c) && OctetText(d)
  }

  /** `[::1]`, a name, or, where the name ends in a number, four octets. */
  ghost predicate HostText(h: Text) {
    || h == [0x5B, 0x3A, 0x3A, 0x31, 0x5D]
    || (NameText(h)
        && ((exists a, l, dot :: LastNumber(h, a, l, dot)) ==> exists a, b, c, d :: FourOctets(h, a, b, c, d)))
  }

  lemma {:induction false} SplitAppend(s: Text, sep: Unit, l: Text)
    requires sep !in l
    ensures Split(s + [sep] + l, sep) == Split(s, sep) + [l]
  {
    if s == [] {
      SplitFirst([], sep, l);
      SplitFirst(l, sep, []);
      assert [] + [sep] + l == s + [sep] + l;
    } else {
      SplitAppend(s[1..], sep, l);
      assert (s + [sep] + l)[1..] == s[1..] + [sep] + l;
    }
  }

  lemma {:induction false} JoinAppend(parts: seq<Text>, sep: Unit, l: Text)
    requires parts != []
    ensures Join(parts + [l], sep) == Join(parts, sep) + [sep] + l
  {
    if |parts| == 1 {
      assert (parts + [l])[1..] == [l];
    } else {
      assert (parts + [l])[1..] == parts[1..] + [l];
      JoinAppend(parts[1..], sep, l);
    }
  }

  lemma {:induction false} SplitLast(s: Text, sep: Unit)
    ensures var ls := Split(s, sep);
      var n := |ls| - 1;
      if n == 0 then s == ls[0] else s == Join(ls[..n], sep) + [sep] + ls[n]
  {
    var ls := Split(s, sep);
    var n := |ls| - 1;
    JoinSplit(s, sep);
    if n > 0 {
      assert ls == ls[..n] + [ls[n]];
      JoinAppend(ls[..n], sep, ls[n]);
    }
  }

  lemma NumberExactly(l: Text)
    ensures NumericLabel(l) <==> NumberText(l)
  {
    assert |l| >= 2 ==> forall i | 2 <= i < |l| :: l[2..][i - 2] == l[i];
  }

  lemma OctetExactly(l: Text)
    ensures Octet(l) <==> OctetText(l)
  {
    if Digits(l) && |l| <= 3 {
      if |l| == 1 {
        assert DecimalValue(l) == 10 * DecimalValue(l[..0]) + (l[0] - 48);
      } else if |l| == 2 {
        assert DecimalValue(l[..1]) == 10 * DecimalValue(l[..1][..0]) + (l[0] - 48);
        assert DecimalValue(l) == 10 * DecimalValue(l[..1]) + (l[1] - 48);
      } else {
        var t := l[..2];
        assert DecimalValue(t[..1]) == 10 * DecimalValue(t[..1][..0]) + (l[0] - 48);
        assert DecimalValue(t) == 10 * DecimalValue(t[..1]) + (l[1] - 48);
        assert DecimalValue(l) == 10 * DecimalValue(t) + (l[2] - 48);
      }
    }
  }

  lemma LastNumberRead(h: Text, a: Text, l: Text, dot: Text)
    requires LastNumber(h, a, l, dot)
    ensures NumericHost(h)
  {
    NumberExactly(l);
    SplitFirst(l, DOT, []);
    var ls := Split(a + l, DOT);
    if a == [] {
      assert a + l == l;
    } else {
      assert a == a[..|a| - 1] + [DOT];
      SplitAppend(a[..|a| - 1], DOT, l);
    }
    assert ls[|ls| - 1] == l;
    if dot == [] {
      assert h == a + l;
    } else {
      SplitAppend(a + l, DOT, []);
      assert h == (a + l) + [DOT] + [];
    }
  }

  lemma LastNumberCut(h: Text) returns (a: Text, l: Text, dot: Text)
    requires NumericHost(h)
    ensures LastNumber(h, a, l, dot)
  {
    var ls := Split(h, DOT);
    var n := |ls| - 1;
    SplitLast(h, DOT);
    if NumericLabel(ls[n]) {
      l, dot := ls[n], [];
      a := if n == 0 then [] else Join(ls[..n], DOT) + [DOT];
      assert h == a + l + dot;
    } else {
      l, dot := ls[n - 1], [DOT];
      if n == 1 {
        a := [];
        assert Join(ls[..1], DOT) == l;
      } else {
        a := Join(ls[..n - 1], DOT) + [DOT];
        assert ls[..n] == ls[..n - 1] + [l];
        JoinAppend(ls[..n - 1], DOT, l);
      }
      assert h == a + l + dot;
    }
    NumberExactly(l);
  }

  lemma {:induction false} QuadExactly(h: Text, a: Text, b: Text, c: Text, d: Text)
    requires DOT !in a && DOT !in b && DOT !in c && DOT !in d
    requires h == a + [DOT] + (b + [DOT] + (c + [DOT] + d))
    ensures Split(h, DOT) == [a, b, c, d]
  {
    SplitFirst(a, DOT, b + [DOT] + (c + [DOT] + d));
    SplitFirst(b, DOT, c + [DOT] + d);
    SplitFirst(c, DOT, d);
    SplitFirst(d, DOT, []);
  }

  lemma Ipv4Exactly(h: Text)
    ensures Ipv4(h) <==> exists a, b, c, d :: FourOctets(h, a, b, c, d)
  {
    var ls := Split(h, DOT);
    if Ipv4(h) {
      JoinSplit(h, DOT);
      var a, b, c, d := ls[0], ls[1], ls[2], ls[3];
      OctetExactly(a); OctetExactly(b); OctetExactly(c); OctetExactly(d);
      hide Octet, OctetText;
      assert ls[1..][1..] == ls[2..] && ls[2..][1..] == ls[3..];
      assert Join(ls[3..], DOT) == d && Join(ls[2..], DOT) == c + [DOT] + d;
      assert Join(ls[1..], DOT) == b + [DOT] + (c + [DOT] + d);
      assert FourOctets(h, a, b, c, d);
    }
    forall a, b, c, d | FourOctets(h, a, b, c, d) ensures Ipv4(h) {
      QuadExactly(h, a, b, c, d);
      OctetExactly(a); OctetExactly(b); OctetExactly(c); OctetExactly(d);
    }
  }

  lemma HostExactly(h: Text)
    ensures HostOk(h) <==> HostText(h)
  {
    assert Loopback6() == [0x5B, 0x3A, 0x3A, 0x31, 0x5D];
    assert All(h, HostUnit) && h != [] <==> NameText(h);
    hide NameText, Loopback6, All;
    Ipv4Exactly(h);
    if NumericHost(h) { var a, l, dot := LastNumberCut(h); }
    forall a, l, dot | LastNumber(h, a, l, dot) ensures NumericHost(h) { LastNumberRead(h, a, l, dot); }
    hide NumericHost, Ipv4, LastNumber, FourOctets;
  }

  // ---- paths ----

  predicate PathUnits(p: Text) {
    forall i | 0 <= i < |p| ::
      || p[i] in {0x21, 0x24, 0x3D, 0x5F, 0x7E}
      || 0x26 <= p[i] <= 0x3B || 0x40 <= p[i] <= 0x5A || 0x61 <= p[i] <= 0x7A
  }

  /** `b` goes on with more of the segment before it. */
  predicate GoesOn(b: Text) { b != [] && b[0] != 0x2F }

  /** Empty, or from a slash on, with no segment that is one dot or two. */
  ghost predicate PathText(p: Text) {
    && PathUnits(p) && (p == [] || p[0] == 0x2F)
    && (forall a, b | p == a + [0x2F, 0x2E] + b :: GoesOn(b))
    && (forall a, b | p == a + [0x2F, 0x2E, 0x2E] + b :: GoesOn(b))
  }

  lemma PathExactly(p: Text)
    ensures PathOk(p) <==> PathText(p)
  {
    assert All(p, PathUnit) <==> PathUnits(p);
    hide All, PathUnits;
    forall a, b | p == a + [0x2F, 0x2E] + b && !GoesOn(b) ensures !PathOk(p) {
      assert b != [] ==> p[|a| + 2] == b[0];
      assert p[|a|] == 0x2F && p[|a| + 1] == 0x2E && DotSegmentAt(p, |a|);
    }
    forall a, b | p == a + [0x2F, 0x2E, 0x2E] + b && !GoesOn(b) ensures !PathOk(p) {
      assert b != [] ==> p[|a| + 3] == b[0];
      assert p[|a|] == 0x2F && p[|a| + 1] == 0x2E && p[|a| + 2] == 0x2E && DotSegmentAt(p, |a|);
    }
    forall i | 0 <= i < |p| && DotSegmentAt(p, i) ensures !PathText(p) { SegmentCut(p, i); }
  }

  lemma SegmentCut(p: Text, i: nat)
    requires i < |p| && DotSegmentAt(p, i)
    ensures !PathText(p)
  {
    hide PathUnits;
    var a := p[..i];
    if i + 2 == |p| || p[i + 2] == 0x2F {
      var b := p[i + 2..];
      assert p == a + [0x2F, 0x2E] + b && !GoesOn(b);
    } else {
      var b := p[i + 3..];
      assert p == a + [0x2F, 0x2E, 0x2E] + b && !GoesOn(b);
    }
  }

  // ---- whole URLs ----

  predicate UserText(s: Text) {
    forall i | 0 <= i < |s| :: 0x21 <= s[i] <= 0x7E && s[i] !in {0x23, 0x2F, 0x3F, 0x5C}
  }

  predicate NoControls(s: Text) { forall i | 0 <= i < |s| :: s[i] >= 0x20 }

  predicate SchemeText(s: Text, https: bool) {
    && |s| == (if https then 8 else 7)
    && s[0] in {0x48, 0x68} && s[1] in {0x54, 0x74} && s[2] in {0x54, 0x74} && s[3] in {0x50, 0x70}
    && (https ==> s[4] in {0x53, 0x73})
    && s[|s| - 3..] == [0x3A, 0x2F, 0x2F]
  }

  /** A scheme, a user before an at sign, a host, a port, a path, a query and a fragment. */
  ghost predicate Spelled(w: Written, https: bool) {
    && SchemeText(w.scheme, https)
    && (w.userinfo.Some? ==> UserText(w.userinfo.value))
    && HostText(LowerAscii(w.host))
    && (w.port == [] || w.port == [0x3A]
        || (w.port[0] == 0x3A && Digits(w.port[1..]) && DecimalValue(w.port[1..]) < 65536))
    && PathText(w.path)
    && (w.query.Some? ==> NoControls(w.query.value) && 0x23 !in w.query.value)
    && (w.fragment.Some? ==> NoControls(w.fragment.value))
  }

  lemma SchemeExactly(s: Text, https: bool)
    ensures LowerAscii(s) == (if https then Units("https://") else Units("http://")) <==> SchemeText(s, https)
  {
    var t := if https then Units("https://") else Units("http://");
    assert |t| == if https then 8 else 7;
    if |s| == |t| {
      assert LowerAscii(s) == t <==> forall i | 0 <= i < |t| :: LowerUnit(s[i]) == t[i];
      assert t[0] == 0x68 && t[1] == 0x74 && t[2] == 0x74 && t[3] == 0x70;
      assert https ==> t[4] == 0x73 && t[5] == 0x3A && t[6] == 0x2F && t[7] == 0x2F;
      assert !https ==> t[4] == 0x3A && t[5] == 0x2F && t[6] == 0x2F;
      var tail := s[|s| - 3..];
      assert tail == [s[|s| - 3], s[|s| - 2], s[|s| - 1]];
    }
  }

  lemma SpelledExactly(w: Written, https: bool)
    ensures InGrammar(w, https) <==> Spelled(w, https)
  {
    SchemeExactly(w.scheme, https);
    HostExactly(LowerAscii(w.host));
    PathExactly(w.path);
    hide SchemeText, HostOk, HostText, PathOk, PathText, LowerAscii, Units;
    if w.userinfo.Some? { UserExactly(w.userinfo.value); }
    if w.query.Some? { ControlsExactly(w.query.value); }
    if w.fragment.Some? { ControlsExactly(w.fragment.value); }
    PortExactly(w.port);
    hide UserOk, UserText, NoControls, All, PortIn;
  }

  lemma PortExactly(s: Text)
    ensures PortIn(s) <==>
      s == [] || s == [0x3A] || (s[0] == 0x3A && Digits(s[1..]) && DecimalValue(s[1..]) < 65536)
  {
    if s != [] && s[0] == 0x3A && s[1..] == [] { assert s == [0x3A]; }
  }

  lemma UserExactly(s: Text)
    ensures UserOk(s) <==> UserText(s)
  {
  }

  lemma ControlsExactly(s: Text)
    ensures All(s, NotControl) <==> NoControls(s)
  {
  }

  /** A read URL is a text of the grammar. */
  lemma ReadWritten(s: Text) returns (w: Written, https: bool)
    requires ParseUrl(s).Some?
    ensures InGrammar(w, https) && s == TextOf(w)
  {
    var n: nat;
    https, n := SchemeCut(s);
    var v := ReadRest(https, s[n..]);
    DropBack(s, n);
    hide ParseUrl, ParseAfterScheme, HostOk, PathOk, UserOk, PortIn, All, LowerAscii, Units, UserPart, TailPart;
    w := Written(s[..n], v.userinfo, v.host, v.port, v.path, v.query, v.fragment);
    assert WithoutScheme(w) == WithoutScheme(v);
  }

  lemma SchemeCut(s: Text) returns (https: bool, n: nat)
    requires ParseUrl(s).Some?
    ensures n <= |s| && LowerAscii(s[..n]) == Scheme(https)
    ensures ParseAfterScheme(https, s[n..]).Some?
  {
    hide ParseAfterScheme, LowerAscii, Units;
    https := HasScheme(s, true);
    n := |Scheme(https)|;
  }

  function WithoutScheme(w: Written): Text {
    UserPart(w) + w.host + w.port + (w.path + TailPart(w.query, w.fragment))
  }

  /** Where the authority ends, and where its host begins. */
  lemma AuthorityParts(https: bool, s: Text) returns (n: nat, at: Option<nat>)
    requires ParseAfterScheme(https, s).Some?
    ensures n <= |s| && Undelimited(s[..n]) && (at.Some? ==> at.value < n && s[..n][at.value] == AT)
    ensures at.Some? ==> All(s[..n][..at.value], UserUnit)
    ensures ParseHostPort(https, if at.Some? then s[..n][at.value + 1..] else s[..n]).Some?
    ensures ParsePath(s[n..]).Some?
  {
    hide ParseHostPort, ParsePath, All;
    n := Span(s, u => u == SLASH || u == QUESTION || u == HASH);
    at := LastAt(s[..n]);
  }

  lemma ReadRest(https: bool, s: Text) returns (w: Written)
    requires ParseAfterScheme(https, s).Some?
    ensures s == WithoutScheme(w)
    ensures w.userinfo.Some? ==> UserOk(w.userinfo.value)
    ensures HostOk(LowerAscii(w.host)) && PortIn(w.port) && PathOk(w.path)
    ensures w.query.Some? ==> All(w.query.value, NotControl) && HASH !in w.query.value
    ensures w.fragment.Some? ==> All(w.fragment.value, NotControl)
  {
    hide HostOk, PathOk, PortIn, All, ParseHostPort, ParsePath, ParseAfterScheme, TailPart, LowerAscii, UserOk;
    var n, at := AuthorityParts(https, s);
    var authority := s[..n];
    var user := if at.Some? then Some(authority[..at.value]) else None;
    var hostPort := if at.Some? then authority[at.value + 1..] else authority;
    var host, port := HostPortCut(https, hostPort);
    var path, query, fragment := PathCut(s[n..]);
    w := Written([], user, host, port, path, query, fragment);
    if user.Some? { UserCut(user.value, authority); }
    AuthorityCut(authority, at, hostPort, UserPart(w));
    DropBack(s, n);
    hide UserPart, Undelimited;
    Assoc(UserPart(w), host, port);
  }

  lemma AuthorityCut(authority: Text, at: Option<nat>, hostPort: Text, part: Text)
    requires at.Some? ==> at.value < |authority| && authority[at.value] == AT
    requires hostPort == if at.Some? then authority[at.value + 1..] else authority
    requires part == if at.Some? then authority[..at.value] + [64] else []
    ensures authority == part + hostPort
  {
  }

  lemma UserCut(user: Text, authority: Text)
    requires user <= authority && All(user, UserUnit) && Undelimited(authority)
    ensures UserOk(user)
  {
    forall i | 0 <= i < |user| ensures user[i] == authority[i] {
    }
  }

  lemma HostPortCut(https: bool, s: Text) returns (host: Text, port: Text)
    requires ParseHostPort(https, s).Some?
    ensures s == host + port && HostOk(LowerAscii(host)) && PortIn(port)
  {
    var n := if Loopback6() <= s then 5 else Span(s, u => u == COLON);
    host, port := s[..n], s[n..];
    if Loopback6() <= s {
      assert host == Loopback6();
      assert LowerAscii(host) == host by { assert Loopback6() == [0x5B, 0x3A, 0x3A, 0x31, 0x5D]; }
    }
    hide HostOk;
    assert ParsePort(https, port).Some?;
  }

  /** The two cuts of a path that is read. */
  lemma PathParts(s: Text) returns (n: nat, m: nat)
    requires ParsePath(s).Some?
    ensures n <= |s| && m <= |s[n..]| && PathOk(s[..n])
    ensures m > 0 ==> s[n..][0] == QUESTION && All(s[n..][1..m], NotControl) && HASH !in s[n..][1..m]
    ensures m < |s[n..]| ==> s[n..][m] == HASH && All(s[n..][m + 1..], NotControl)
  {
    hide PathOk, All;
    n := Span(s, u => u == QUESTION || u == HASH);
    var rest := s[n..];
    m := Span(rest, u => u == HASH);
    if m > 0 {
      assert rest[0] == s[n] && rest[0] != HASH;
      NoHash(rest, m);
    }
  }

  lemma NoHash(rest: Text, m: nat)
    requires 0 < m <= |rest| && forall i | 0 <= i < m :: rest[i] != HASH
    ensures HASH !in rest[1..m]
  {
  }

  lemma PathCut(s: Text) returns (path: Text, query: Option<Text>, fragment: Option<Text>)
    requires ParsePath(s).Some?
    ensures s == path + TailPart(query, fragment) && PathOk(path)
    ensures query.Some? ==> All(query.value, NotControl) && HASH !in query.value
    ensures fragment.Some? ==> All(fragment.value, NotControl)
  {
    var n, m := PathParts(s);
    hide PathOk, All, ParsePath;
    path := s[..n];
    query := if m > 0 then Some(s[n..][1..m]) else None;
    fragment := if m < |s[n..]| then Some(s[n..][m + 1..]) else None;
    TailCut(s[n..], m, query, fragment);
    hide TailPart;
    DropBack(s, n);
  }

  lemma DropBack(s: Text, n: nat)
    requires n <= |s|
    ensures s == s[..n] + s[n..]
  {
  }

  lemma TailCut(rest: Text, m: nat, query: Option<Text>, fragment: Option<Text>)
    requires m <= |rest| && (m > 0 ==> rest[0] == QUESTION) && (m < |rest| ==> rest[m] == HASH)
    requires query == if m > 0 then Some(rest[1..m]) else None
    requires fragment == if m < |rest| then Some(rest[m + 1..]) else None
    ensures rest == TailPart(query, fragment)
  {
    assert m > 0 ==> rest[..m] == [63] + rest[1..m];
    assert m < |rest| ==> rest[m..] == [35] + rest[m + 1..];
    assert rest == rest[..m] + rest[m..];
  }

  /** A text is read as a URL exactly when it is one of the grammar, and then as its parts. */
  lemma ParsesExactly(s: Text)
    ensures ParseUrl(s).Some? <==> exists w, https :: Spelled(w, https) && s == TextOf(w)
    ensures forall w, https | Spelled(w, https) && s == TextOf(w) ::
      InGrammar(w, https) && ParseUrl(s) == Some(UrlOf(w, https))
  {
    hide ParseUrl, InGrammar, Spelled, UrlOf;
    if ParseUrl(s).Some? {
      var w, https := ReadWritten(s);
      SpelledExactly(w, https);
    }
    forall w, https | Spelled(w, https) && s == TextOf(w)
      ensures InGrammar(w, https) && ParseUrl(s) == Some(UrlOf(w, https))
    {
      SpelledExactly(w, https);
      ParseWritten(w, https);
    }
  }
}
