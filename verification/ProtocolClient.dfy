/**
 What the tables must hold for a client to be served: its row, not revoked, and a registered
 callback that the redirect spells.
 */
module ProtocolClient {
  import opened Texts
  import opened Callbacks
  import opened Protocol
  import CallbackFacts
  import Credentials
  import CredentialText

  /** The application table holds this row for the client id. */
  predicate AppRow(w: World, clientId: Text, app: App) {
    Trim(clientId) != [] && Trim(clientId) in w.apps && w.apps[Trim(clientId)] == app
  }

  /** It does, and the row is not revoked. */
  predicate ClientAt(w: World, clientId: Text, app: App) { AppRow(w, clientId, app) && !app.revoked }

  /** Entry i is the first of the list that the redirect spells. */
  ghost predicate FirstSpelled(list: seq<Text>, i: int, normalized: Text) {
    && 0 <= i < |list| && CallbackFacts.Pins(list[i], normalized)
    && forall j | 0 <= j < i :: !CallbackFacts.Pins(list[j], normalized)
  }

  /** A short redirect that obeys the transport rule spells the registered callback. */
  ghost predicate CallbackAt(cfg: Config, w: World, app: App, redirectUri: Text, registered: Text) {
    && Trim(redirectUri) != [] && |redirectUri| <= 2048
    && CanonicalizeCallback(redirectUri).Some?
    && var (url, normalized) := CanonicalizeCallback(redirectUri).value;
    && CallbackFacts.Safe(url, cfg.mode)
    && (app.orgId, app.slug) in w.callbacks
    && exists i :: FirstSpelled(w.callbacks[(app.orgId, app.slug)], i, normalized)
                   && w.callbacks[(app.orgId, app.slug)][i] == registered
  }

  /** The lengths the two request schemas admit. */
  predicate FormFits(f: Form) {
    8 <= |f.clientId| <= 128 && f.orgId > 0 && 8 <= |f.redirectUri| <= 2048 && 8 <= |f.state| <= 512
  }

  predicate BodyFits(b: Body) {
    && 8 <= |b.clientId| <= 128 && 16 <= |b.clientSecret| <= 512
    && 32 <= |b.code| <= 512 && 8 <= |b.redirectUri| <= 2048
  }

  lemma FormFitsExactly(f: Form)
    ensures FormOk(f) <==> FormFits(f)
  {
  }

  lemma BodyFitsExactly(b: Body)
    ensures BodyOk(b) <==> BodyFits(b)
  {
  }

  /** The secret derives the key of the application's row. */
  ghost predicate SecretMatches(cfg: Config, b: Body, app: App) {
    CredentialText.Derives(cfg.kdf, b.clientSecret, app.secretHash)
  }

  lemma SecretExactly(cfg: Config, b: Body, app: App)
    ensures SecretOk(cfg, b, app) <==> SecretMatches(cfg, b, app)
  {
    CredentialText.VerifiesExactly(cfg.kdf, b.clientSecret, app.secretHash);
    hide CredentialText.Derives, Credentials.VerifyClientSecret;
  }

  /** The registry's answer names a role. */
  predicate HoldsRole(role: Text) { role != [] && role != [0x4E, 0x4F, 0x4E, 0x45] }

  lemma RoleExactly(role: Text)
    ensures NoRole() == [0x4E, 0x4F, 0x4E, 0x45]
    ensures HoldsRole(role) <==> role != [] && role != NoRole()
  {
    assert Units("NONE") == [0x4E, 0x4F, 0x4E, 0x45];
  }

  // ---- the reason of a denial ----

  /** What each reason says of the readings. */
  predicate True(d: Denial, organization: Option<bool>, identity: Standing, expired: bool, role: Text,
                 app: Option<(bool, bool)>)
  {
    match d
    case OrganizationNotFound => organization == None
    case IdentityNotRegistered => !identity.registered
    case IdentityRevoked => !identity.active
    case OrganizationSuspended => organization == Some(false)
    case RoleExpired => expired
    case NotAMember => !HoldsRole(role)
    case ApplicationNotRegistered => app.Some? && !app.value.0
    case AppAccessNotGranted => app.Some? && !app.value.1
  }

  /** The order in which they are useful to a partner. */
  function Rank(d: Denial): nat {
    match d
    case OrganizationNotFound => 0
    case IdentityNotRegistered => 1
    case IdentityRevoked => 2
    case OrganizationSuspended => 3
    case RoleExpired => 4
    case NotAMember => 5
    case ApplicationNotRegistered => 6
    case AppAccessNotGranted => 7
  }

  /** The reason given is true, and no reason before it is; without a reason none is. */
  lemma DenialExactly(organization: Option<bool>, identity: Standing, expired: bool, role: Text,
                      app: Option<(bool, bool)>, d: Denial)
    ensures DecideAccess(organization, identity, expired, role, app) == Some(d) <==>
      && True(d, organization, identity, expired, role, app)
      && forall e: Denial | Rank(e) < Rank(d) :: !True(e, organization, identity, expired, role, app)
    ensures DecideAccess(organization, identity, expired, role, app) == None <==>
      forall e: Denial :: !True(e, organization, identity, expired, role, app)
  {
    RoleExactly(role);
    hide NoRole, HoldsRole;
    var o := DecideAccess(organization, identity, expired, role, app);
    assert o.Some? ==> True(o.value, organization, identity, expired, role, app);
  }

  lemma FoundExactly(w: World, clientId: Text)
    ensures FindApp(w, clientId).Some? ==> AppRow(w, clientId, FindApp(w, clientId).value)
    ensures forall app | AppRow(w, clientId, app) :: FindApp(w, clientId) == Some(app)
  {
    hide Trim;
  }

  lemma {:induction false} FirstMatchAt(list: seq<Text>, n: Text) returns (i: int)
    ensures FirstMatch(list, n).Some? ==> FirstSpelled(list, i, n) && FirstMatch(list, n) == Some(list[i])
  {
    hide CanonicalizeCallback, Trim;
    i := 0;
    if list == [] || CallbackFacts.Pins(list[0], n) {
    } else {
      var rest := FirstMatchAt(list[1..], n);
      i := rest + 1;
      assert FirstMatch(list, n) == FirstMatch(list[1..], n);
      hide CallbackFacts.Pins;
      if FirstMatch(list, n).Some? {
        forall j | 0 <= j < i ensures !CallbackFacts.Pins(list[j], n) {
          if j > 0 { assert list[j] == list[1..][j - 1]; }
        }
      }
    }
  }

  lemma FirstSpelledOnce(list: seq<Text>, i: int, j: int, n: Text)
    requires FirstSpelled(list, i, n) && FirstSpelled(list, j, n)
    ensures i == j
  {
  }

  /** The check of the redirect, for an application that is not revoked. */
  lemma AcceptedAt(cfg: Config, w: World, app: App, redirectUri: Text)
    requires !app.revoked
    ensures Accepts(cfg, w, app, redirectUri).Accepted? ==>
      CallbackAt(cfg, w, app, redirectUri, Accepts(cfg, w, app, redirectUri).registered)
    ensures forall registered | CallbackAt(cfg, w, app, redirectUri, registered) ::
      Accepts(cfg, w, app, redirectUri).Accepted? && Accepts(cfg, w, app, redirectUri).registered == registered
  {
    var list := CallbackList(w, app);
    var s := Some(Subject(app.revoked, list));
    hide CanonicalizeCallback, Trim, CallbackFacts.Safe;
    CallbackFacts.AcceptedExactly(s, Some(redirectUri), cfg.mode);
    if CanonicalizeCallback(redirectUri).Some? {
      var n := CanonicalizeCallback(redirectUri).value.1;
      ReturnsFirst(s, redirectUri, cfg.mode);
      var i := FirstMatchAt(list, n);
      forall registered | CallbackAt(cfg, w, app, redirectUri, registered)
        ensures Accepts(cfg, w, app, redirectUri).Accepted?
        ensures Accepts(cfg, w, app, redirectUri).registered == registered
      {
        var k :| FirstSpelled(list, k, n) && list[k] == registered;
        assert list[k] in list && CallbackFacts.Pins(list[k], n);
        hide CheckCallback;
        FirstSpelledOnce(list, i, k, n);
      }
    }
  }

  lemma ReturnsFirst(app: Option<Subject>, uri: Text, mode: Mode)
    ensures CheckCallback(app, Some(uri), mode).Accepted? ==>
      app.Some? && CanonicalizeCallback(uri).Some?
      && FirstMatch(app.value.callbacks, CanonicalizeCallback(uri).value.1)
        == Some(CheckCallback(app, Some(uri), mode).registered)
  {
    hide CanonicalizeCallback, Trim, CheckTransport, FirstMatch;
  }
}
