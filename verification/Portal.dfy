/**
 The employee portal's side of the sign-in: one session cell per browser, changed by login
 and callback requests in turn, and what a wallet in that cell proves.
 */
module Portal {
  import opened Texts
  import Utf8

  /** What the session cookie holds. */
  datatype Cell = Cell(state: Option<Text>, stateExpires: Option<int>, wallet: Option<Text>,
                       orgId: Option<int>, verifiedAt: Option<Text>)

  const EMPTY := Cell(None, None, None, None, None)

  const STATE_TTL_MS := 300_000

  /** The answer to the portal's exchange request; absent fields are None. */
  datatype Exchange =
    | NoClaims  // unreachable, refused, or unreadable
    | Claims(wallet: Option<Text>, orgId: Option<int>, identityActive: Option<bool>, verifiedAt: Option<Text>)

  /**
   A request of one browser. `configured` is whether the portal's own configuration loads;
   `drawn` are the random units a login draws; `clock` is the time text a callback would
   fall back on.
   */
  datatype Event =
    | Login(configured: bool, drawn: Text, now: int)
    | Callback(configured: bool, orgId: int, state: Text, code: Text, error: Text, now: int,
               exchange: Exchange, clock: Text)

  /** `timingSafeEqual` over the UTF-8 bytes. */
  predicate StatesMatch(received: Text, expected: Text) {
    Utf8.Encode(received) == Utf8.Encode(expected)
  }

  lemma {:induction false} StatesMatchExactly(received: Text, expected: Text)
    requires Utf8.WellFormed(received) && Utf8.WellFormed(expected)
    ensures StatesMatch(received, expected) <==> received == expected
  {
    Utf8.EncodeInjective(received, expected);
  }

  /** The state check, before anything else of a callback is looked at. */
  predicate StateAccepted(c: Cell, e: Event)
    requires e.Callback?
  {
    && e.state != [] && c.state.Some? && c.state.value != []
    && c.stateExpires.Some? && c.stateExpires.value != 0 && c.stateExpires.value >= e.now
    && StatesMatch(e.state, c.state.value)
  }

  predicate IsHexUnit(u: Unit) {
    IsDigit(u) || 'a' as int <= u <= 'f' as int || 'A' as int <= u <= 'F' as int
  }

  /** `/^0x[0-9a-fA-F]{40}$/` */
  predicate WalletText(w: Text) {
    |w| == 42 && w[0] == '0' as int && w[1] == 'x' as int && forall i | 2 <= i < 42 :: IsHexUnit(w[i])
  }

  /** Everything after the state check: no error, a code, and claims the portal believes. */
  predicate ClaimsAccepted(e: Event)
    requires e.Callback?
  {
    && e.error == [] && e.code != [] && e.configured
    && e.exchange.Claims? && e.exchange.wallet.Some? && WalletText(e.exchange.wallet.value)
    && e.exchange.identityActive != Some(false)
    && (e.exchange.orgId.Some? ==> e.exchange.orgId.value == e.orgId)
  }

  function Step(c: Cell, e: Event): Cell {
    match e
    case Login(configured, drawn, now) =>
      if configured then Cell(Some(drawn), Some(now + STATE_TTL_MS), None, None, None) else c
    case Callback(_, orgId, _, _, _, _, exchange, clock) =>
      var cleared := c.(state := None, stateExpires := None);
      if StateAccepted(c, e) && ClaimsAccepted(e) then
        cleared.(wallet := Some(LowerAscii(exchange.wallet.value)), orgId := Some(orgId),
                 verifiedAt := if exchange.verifiedAt.Some? then exchange.verifiedAt else Some(clock))
      else cleared
  }

  // ---- the routes, on the mutable session ----

  class PortalSession {
    var state: Option<Text>
    var stateExpires: Option<int>
    var wallet: Option<Text>
    var orgId: Option<int>
    var verifiedAt: Option<Text>

    constructor ()
      ensures Value() == EMPTY
    {
      state, stateExpires, wallet, orgId, verifiedAt := None, None, None, None, None;
    }

    function Value(): Cell
      reads this
    {
      Cell(state, stateExpires, wallet, orgId, verifiedAt)
    }

    method LoginRoute(e: Event)
      requires e.Login?
      modifies this
      ensures Value() == Step(old(Value()), e)
    {
      if !e.configured { return; }
      state := Some(e.drawn);
      stateExpires := Some(e.now + STATE_TTL_MS);
      wallet := None;
      orgId := None;
      verifiedAt := None;
    }

    /** True when the browser is sent on to the dashboard. */
    method CallbackRoute(e: Event) returns (signedIn: bool)
      requires e.Callback?
      modifies this
      ensures Value() == Step(old(Value()), e)
      ensures signedIn <==> StateAccepted(old(Value()), e) && ClaimsAccepted(e)
    {
      var expected, expires := state, stateExpires;
      state := None;
      stateExpires := None;
      if e.state == [] || expected.None? || expected.value == [] || expires.None? || expires.value == 0
         || expires.value < e.now || !StatesMatch(e.state, expected.value) {
        return false;
      }
      if e.error != [] || e.code == [] || !e.configured || e.exchange.NoClaims? { return false; }
      var claims := e.exchange;
      if claims.wallet.None? || !WalletText(claims.wallet.value) { return false; }
      if claims.identityActive == Some(false) { return false; }
      if claims.orgId.Some? && claims.orgId.value != e.orgId { return false; }
      wallet := Some(LowerAscii(claims.wallet.value));
      orgId := Some(e.orgId);
      verifiedAt := if claims.verifiedAt.Some? then claims.verifiedAt else Some(e.clock);
      return true;
    }
  }

  // ---- every run of one browser ----

  function After(es: seq<Event>): Cell {
    if es == [] then EMPTY else Step(After(es[..|es| - 1]), es[|es| - 1])
  }

  predicate LoginAt(es: seq<Event>, i: int) { 0 <= i < |es| && es[i].Login? && es[i].configured }

  /** i is the latest login of the run. */
  ghost predicate LatestLogin(es: seq<Event>, i: int) {
    LoginAt(es, i) && forall k | i < k < |es| :: !LoginAt(es, k)
  }

  /** j is the first callback after position i. */
  ghost predicate FirstCallback(es: seq<Event>, i: int, j: int) {
    0 <= i < j < |es| && es[j].Callback? && forall k | i < k < j :: !es[k].Callback?
  }

  /** Without a pending state, nothing but a login changes the session. */
  lemma Idle(c: Cell, e: Event)
    requires c.state.None? && c.stateExpires.None? && !(e.Login? && e.configured)
    ensures Step(c, e) == c
  {
  }

  lemma CallbackSettles(c: Cell, e: Event)
    requires e.Callback?
    ensures Step(c, e).state.None? && Step(c, e).stateExpires.None?
  {
  }

  ghost predicate NoCallbackAfter(es: seq<Event>, i: int) {
    0 <= i < |es| && forall k | i < k < |es| :: !es[k].Callback?
  }

  // Only the latest login and the first callback after it matter to the session.

  lemma {:induction false} NoLogin(es: seq<Event>)
    requires forall i | 0 <= i < |es| :: !LoginAt(es, i)
    ensures After(es) == EMPTY
  {
    if es == [] {
    } else {
      var n := |es| - 1;
      assert forall i | 0 <= i < n :: LoginAt(es[..n], i) == LoginAt(es, i);
      NoLogin(es[..n]);
      assert !LoginAt(es, n);
      Idle(EMPTY, es[n]);
    }
  }

  /** Dropping the last event keeps an earlier latest login. */
  lemma EarlierLogin(es: seq<Event>, i: int)
    requires LatestLogin(es, i) && i < |es| - 1
    ensures LatestLogin(es[..|es| - 1], i)
    ensures !(es[|es| - 1].Login? && es[|es| - 1].configured)
  {
    var n := |es| - 1;
    assert forall k | 0 <= k < n :: LoginAt(es[..n], k) == LoginAt(es, k);
    assert !LoginAt(es, n);
  }

  /** Until a callback comes, the session holds the login's state for five minutes, and no wallet. */
  lemma {:induction false} PendingLogin(es: seq<Event>, i: int)
    requires LatestLogin(es, i) && NoCallbackAfter(es, i)
    ensures After(es) == Cell(Some(es[i].drawn), Some(es[i].now + 300_000), None, None, None)
  {
    var n := |es| - 1;
    if i == n {
    } else {
      EarlierLogin(es, i);
      PendingLogin(es[..n], i);
    }
  }

  lemma {:induction false} AnsweredLogin(es: seq<Event>, i: int, j: int)
    requires LatestLogin(es, i) && FirstCallback(es, i, j)
    ensures After(es) == Step(Cell(Some(es[i].drawn), Some(es[i].now + 300_000), None, None, None), es[j])
    ensures After(es).state.None? && After(es).stateExpires.None?
  {
    var n := |es| - 1;
    EarlierLogin(es, i);
    CallbackSettles(Cell(Some(es[i].drawn), Some(es[i].now + 300_000), None, None, None), es[j]);
    if j < n {
      assert FirstCallback(es[..n], i, j);
      AnsweredLogin(es[..n], i, j);
      Idle(After(es[..n]), es[n]);
    } else {
      assert NoCallbackAfter(es[..n], i);
      PendingLogin(es[..n], i);
    }
  }

  /** A 0x address of 40 hex digits of either case. */
  predicate HexAddress(w: Text) {
    |w| == 42 && w[..2] == Units("0x") && forall i | 2 <= i < 42 :: w[i] in Units("0123456789abcdefABCDEF")
  }

  /**
   The callback answers the login: it brings the state the login drew, byte for byte and within
   five minutes, no error and a code; the portal is configured; and the exchange returned a
   wallet, an identity that is not inactive, and no organization or the portal's own.
   */
  predicate Answers(login: Event, callback: Event) {
    && login.Login? && callback.Callback?
    && login.drawn != [] && Utf8.Encode(callback.state) == Utf8.Encode(login.drawn) && callback.state != []
    && login.now + 300_000 != 0 && callback.now <= login.now + 300_000
    && callback.error == [] && callback.code != [] && callback.configured
    && callback.exchange.Claims? && callback.exchange.wallet.Some? && HexAddress(callback.exchange.wallet.value)
    && (callback.exchange.identityActive.None? || callback.exchange.identityActive == Some(true))
    && (callback.exchange.orgId.None? || callback.exchange.orgId == Some(callback.orgId))
  }

  /** What such an answer leaves in the session. */
  function SignedIn(callback: Event): Cell
    requires callback.Callback? && callback.exchange.Claims? && callback.exchange.wallet.Some?
  {
    var claims := callback.exchange;
    Cell(None, None, Some(LowerAscii(claims.wallet.value)), Some(callback.orgId),
         Some(if claims.verifiedAt.Some? then claims.verifiedAt.value else callback.clock))
  }

  lemma AddressExactly(w: Text)
    ensures WalletText(w) <==> HexAddress(w)
  {
    assert |w| >= 2 ==> w[..2] == [w[0], w[1]];
    forall u: Unit ensures IsHexUnit(u) <==> u in Units("0123456789abcdefABCDEF") { HexUnits(u); }
  }

  lemma HexUnits(u: Unit)
    ensures IsHexUnit(u) <==> u in Units("0123456789abcdefABCDEF")
  {
    var t := Units("0123456789abcdefABCDEF");
    if 48 <= u <= 57 {
      assert t[u - 48] == u;
    } else if 97 <= u <= 102 {
      assert t[u - 87] == u;
    } else if 65 <= u <= 70 {
      assert t[u - 49] == u;
    }
  }

  /** One callback on a session whose login is still to be answered. */
  lemma AnswerExactly(login: Event, callback: Event)
    requires login.Login? && callback.Callback?
    ensures Step(Cell(Some(login.drawn), Some(login.now + 300_000), None, None, None), callback) ==
      if Answers(login, callback) then SignedIn(callback) else EMPTY
  {
    hide WalletText, HexAddress, LowerAscii;
    if callback.exchange.Claims? && callback.exchange.wallet.Some? {
      AddressExactly(callback.exchange.wallet.value);
      var active, orgId, verifiedAt :=
        callback.exchange.identityActive, callback.exchange.orgId, callback.exchange.verifiedAt;
      assert active.Some? ==> active == if active.value then Some(true) else Some(false);
      assert orgId.Some? ==> orgId == Some(orgId.value);
      assert verifiedAt.Some? ==> verifiedAt == Some(verifiedAt.value);
    }
  }

  /**
   The session holds a wallet exactly when the first callback after the browser's latest login
   answered it. It then holds what that callback's exchange returned, with the portal's own
   organization; otherwise neither wallet, organization nor time.
   */
  lemma {:induction false} WalletExactly(es: seq<Event>, w: Text)
    ensures After(es).wallet == Some(w) <==> exists i, j ::
      LatestLogin(es, i) && FirstCallback(es, i, j) && Answers(es[i], es[j])
        && LowerAscii(es[j].exchange.wallet.value) == w
    ensures forall i, j | LatestLogin(es, i) && FirstCallback(es, i, j) && Answers(es[i], es[j]) ::
      After(es) == SignedIn(es[j])
    ensures After(es).wallet.None? ==> After(es).orgId.None? && After(es).verifiedAt.None?
  {
    hide Answers, LowerAscii;
    if exists i :: LoginAt(es, i) {
      var i := LastLogin(es);
      forall i' | LatestLogin(es, i') ensures i' == i {
      }
      if exists k :: i < k < |es| && es[k].Callback? {
        var j := NextCallback(es, i);
        AnsweredLogin(es, i, j);
        AnswerExactly(es[i], es[j]);
        forall j' | FirstCallback(es, i, j') ensures j' == j {
        }
        assert Answers(es[i], es[j]) ==> After(es) == SignedIn(es[j]);
      } else {
        PendingLogin(es, i);
        assert forall j :: !FirstCallback(es, i, j);
      }
    } else {
      NoLogin(es);
    }
  }

  lemma {:induction false} LastLogin(es: seq<Event>) returns (i: nat)
    requires exists i :: LoginAt(es, i)
    ensures LatestLogin(es, i)
  {
    var n := |es| - 1;
    if LoginAt(es, n) {
      i := n;
    } else {
      assert forall k | 0 <= k < n :: LoginAt(es[..n], k) == LoginAt(es, k);
      i := LastLogin(es[..n]);
      assert forall k | i < k < n :: !LoginAt(es[..n], k);
    }
  }

  lemma NextCallback(es: seq<Event>, i: nat) returns (j: nat)
    requires exists k :: i < k < |es| && es[k].Callback?
    ensures FirstCallback(es, i, j)
  {
    j := i + 1;
    while !es[j].Callback?
      invariant i < j < |es|
      invariant forall k | i < k < j :: !es[k].Callback?
      invariant exists k :: j <= k < |es| && es[k].Callback?
      decreases |es| - j
    {
      j := j + 1;
    }
  }

  predicate AcceptedAt(es: seq<Event>, j: int) {
    0 <= j < |es| && es[j].Callback? && StateAccepted(After(es[..j]), es[j])
  }

  /** An accepted state is the one drawn by the login just before the callback. */
  lemma AcceptedState(es: seq<Event>, j: nat) returns (i: nat)
    requires AcceptedAt(es, j)
    ensures i < j && LoginAt(es, i) && StatesMatch(es[j].state, es[i].drawn)
    ensures forall k | i < k < j :: !es[k].Callback?
  {
    var before := es[..j];
    if forall k | 0 <= k < j :: !LoginAt(before, k) {
      NoLogin(before);
    }
    i := LastLogin(before);
    if exists k :: i < k < |before| && before[k].Callback? {
      var k := NextCallback(before, i);
      AnsweredLogin(before, i, k);
    } else {
      assert forall k | i < k < j :: before[k] == es[k];
      PendingLogin(before, i);
    }
  }

  /** If logins draw distinct states, each state is accepted at most once. */
  lemma StateOnce(es: seq<Event>, j: nat, k: nat)
    requires forall a, b | LoginAt(es, a) && LoginAt(es, b) && StatesMatch(es[a].drawn, es[b].drawn) :: a == b
    requires AcceptedAt(es, j) && AcceptedAt(es, k) && StatesMatch(es[j].state, es[k].state)
    ensures j == k
  {
    var a := AcceptedState(es, j);
    var b := AcceptedState(es, k);
    assert StatesMatch(es[a].drawn, es[b].drawn);
  }

  /** A login always clears the wallet, and only the callback that answers it sets one. */
  lemma {:induction false} LoginClears(es: seq<Event>, e: Event)
    requires e.Login? && e.configured
    ensures After(es + [e]).wallet.None? && After(es + [e]).orgId.None?
  {
    assert (es + [e])[..|es|] == es;
  }
}
