/**
 * The middleware (middleware.ts) with its two gates (agenticsAccess.ts, petroTinsAccess.ts): a refused request gets
 * a bodiless 404, Astro renders its 404 page for the same request, and the middleware runs again for that render.
 */
module AgenticsGate {
  import opened Ordering
  import Owners = Owner
  import opened AgenticsPath

  // ── Responses ─────────────────────────────────────────────────────────────

  datatype Response = Response(status: int, body: Option<string>, headers: map<string, string>)

  const MARKER := "X-Astro-Reroute"

  /** The two long values stand for themselves; only the names of the headers matter here. */
  const CONTENT_POLICY := "content policy"
  const PERMISSIONS := "permissions policy"

  function SecurityHeaders(production: bool): map<string, string> {
    var all := map[
      "Content-Security-Policy-Report-Only" := CONTENT_POLICY, "Permissions-Policy" := PERMISSIONS,
      "X-Frame-Options" := "DENY", "X-Content-Type-Options" := "nosniff",
      "Referrer-Policy" := "strict-origin-when-cross-origin",
      "Cross-Origin-Opener-Policy" := "same-origin", "Cross-Origin-Resource-Policy" := "same-origin"];
    if production then all["Strict-Transport-Security" := "max-age=86400; includeSubDomains"] else all
  }

  const NOT_FOUND_HEADERS := map["Cache-Control" := "no-store", "X-Robots-Tag" := "noindex, nofollow"]

  function With(r: Response, headers: map<string, string>): Response { r.(headers := r.headers + headers) }

  function WithoutMarker(r: Response): Response { r.(headers := r.headers - {MARKER}) }

  /** /(^|,)\s*cookie\s*(,|$)/i, with blanks for white space, at `i`, `j` and `k`. */
  predicate CookieAt(vary: string, i: nat, j: nat, k: nat) {
    && i <= j && j + 6 <= k <= |vary|
    && (i == 0 || vary[i - 1] == ',') && (k == |vary| || vary[k] == ',')
    && (forall n | i <= n < j :: vary[n] == ' ') && (forall n | j + 6 <= n < k :: vary[n] == ' ')
    && Lowered(vary[j..j + 6]) == "cookie"
  }

  predicate NamesCookie(vary: string) {
    exists i, j, k | 0 <= i <= |vary| && 0 <= j <= |vary| && 0 <= k <= |vary| :: CookieAt(vary, i, j, k)
  }

  function OwnerVary(headers: map<string, string>): string {
    if "Vary" !in headers || headers["Vary"] == "" then "Cookie"
    else if NamesCookie(headers["Vary"]) then headers["Vary"]
    else headers["Vary"] + ", Cookie"
  }

  function WithOwnerHeaders(r: Response): Response {
    With(r, map[
      "Cache-Control" := "private, no-store",
      "Vary" := OwnerVary(r.headers),
      "X-Robots-Tag" := "noindex, nofollow"
    ])
  }

  // ── Viewers ───────────────────────────────────────────────────────────────

  datatype Viewer = Viewer(tenantId: Option<string>, isDemo: bool)

  datatype Config = Config(vaultPublic: bool, petroPublic: bool, owner: string, production: bool)

  predicate HasTenant(v: Viewer) { v.tenantId.Some? && v.tenantId.value != "" }

  predicate IsOwner(c: Config, v: Viewer) { HasTenant(v) && Owners.IsOwner(v.tenantId.value, c.owner) }

  predicate CanAccessVault(c: Config, session: Option<Viewer>) {
    match session
    case None => false
    case Some(v) => if v.isDemo || !HasTenant(v) then false else c.vaultPublic || IsOwner(c, v)
  }

  predicate CanAccessPetroTins(c: Config, session: Option<Viewer>) {
    c.petroPublic || (session.Some? && !session.value.isDemo && IsOwner(c, session.value))
  }

  // ── One pass of the middleware ────────────────────────────────────────────

  /** A Request object; `id` tells objects apart. */
  datatype Request = Request(id: nat, pathname: string)

  datatype Geoblock = Passes | Blocks(r: Response) | Fails

  datatype Legacy = NoLegacy | Respond(r: Response) | Rewrite(r: Response)

  /** app.ts: it cannot be loaded, answers on its own, or goes on to the next handler and adds the headers. */
  datatype App = LoadFails(login: Response) | Answers(r: Response) | CallsNext

  /**
   * What the pass is for, and what the code around the middleware answers in it: the sessions each gate resolves
   * (None too where resolving fails), the geoblock, the legacy table, the public paths, app.ts and the page.
   */
  datatype Pass = Pass(
    request: Request, routePattern: string, petroSession: Option<Viewer>, vaultSession: Option<Viewer>,
    geo: Geoblock, legacy: Legacy, isPublic: bool, needsHeaders: bool, publicHeaders: map<string, string>,
    app: App, page: Response)

  datatype Gate = Open | Owner | Hidden(hasSession: bool) | NotFoundPage(hasSession: bool)

  /** The two WeakMaps of refused requests. */
  datatype Memory = Memory(petro: map<Request, bool>, vault: map<Request, bool>)

  /** `ranPage`: the matched route ran; `ranRewritten`: the page a legacy address was rewritten to. */
  datatype Outcome = Outcome(
    response: Response, petro: Gate, vault: Gate, ranApp: bool, ranPage: bool, ranRewritten: bool, refused: bool)

  /** Neither gate has refused the request. */
  predicate Unremembered(m: Memory, q: Request) { q !in m.petro && q !in m.vault }

  function GateOf(
    isPublic: bool, refused: map<Request, bool>, p: Pass, guarded: bool, access: bool, session: bool): Gate
  {
    if isPublic then Open
    else if p.request in refused && p.routePattern == "/404" then NotFoundPage(refused[p.request])
    else if !guarded then Open
    else if access then Owner
    else Hidden(session)
  }

  function PetroTinsGate(c: Config, m: Memory, p: Pass): Gate {
    GateOf(c.petroPublic, m.petro, p, IsPetroTinsPath(p.request.pathname),
      CanAccessPetroTins(c, p.petroSession), p.petroSession.Some?)
  }

  function VaultGate(c: Config, m: Memory, p: Pass): Gate {
    GateOf(c.vaultPublic, m.vault, p, IsVaultPath(p.request.pathname),
      CanAccessVault(c, p.vaultSession), p.vaultSession.Some?)
  }

  /** A handler's answer, and whether it and app.ts ran. */
  datatype Ran = Ran(response: Response, app: bool, next: bool)

  function RunAppOf(c: Config, p: Pass, next: Response): Ran {
    match p.app
    case LoadFails(login) => Ran(login, false, false)
    case Answers(r) => Ran(r, true, false)
    case CallsNext => Ran(With(next, SecurityHeaders(c.production)), true, true)
  }

  /** A gate's refusal or 404 render: through app.ts for a viewer with a session. */
  function Through(c: Config, p: Pass, hasSession: bool, next: Response): Ran {
    if hasSession then RunAppOf(c, p, next) else Ran(With(next, SecurityHeaders(c.production)), false, true)
  }

  function RouteOf(c: Config, p: Pass): (Ran, bool) {
    if p.legacy.Respond? then (Ran(p.legacy.r, false, false), false)
    else if p.legacy.Rewrite? then
      (Ran(With(p.legacy.r, SecurityHeaders(c.production) + p.publicHeaders), false, false), true)
    else if p.isPublic then
      var page := if p.needsHeaders then With(p.page, SecurityHeaders(c.production) + p.publicHeaders) else p.page;
      (Ran(page, false, true), false)
    else (RunAppOf(c, p, p.page), false)
  }

  const REFUSAL := Response(404, None, map[])

  function Headed(o: Outcome): Outcome {
    var a := if o.response.status == 404 then With(o.response, NOT_FOUND_HEADERS) else o.response;
    var b := if o.petro == Owner then WithOwnerHeaders(a) else a;
    o.(response := if o.vault == Owner then WithOwnerHeaders(b) else b)
  }

  /** The gate that has something to say, if one has. */
  function Deciding(petro: Gate, vault: Gate): Gate { if petro == Open then vault else petro }

  function Gates(c: Config, m: Memory, p: Pass): (Gate, Gate) {
    var petro := PetroTinsGate(c, m, p);
    (petro, if petro == Open then VaultGate(c, m, p) else Open)
  }

  /** The pass up to its last lines, which add headers. */
  function Decided(c: Config, p: Pass, petro: Gate, vault: Gate): Outcome {
    match Deciding(petro, vault)
    case Hidden(hasSession) =>
      var ran := Through(c, p, hasSession, REFUSAL);
      Outcome(ran.response, petro, vault, ran.app, false, false, ran.next)
    case NotFoundPage(hasSession) =>
      var ran := Through(c, p, hasSession, p.page);
      Outcome(WithoutMarker(ran.response), petro, vault, ran.app, ran.next, false, false)
    case _ =>
      var (ran, rewritten) := RouteOf(c, p);
      Outcome(ran.response, petro, vault, ran.app, ran.next, rewritten, false)
  }

  const ASSET_PATHS := ["/favicon.ico", "/favicon.webp"]

  predicate SkipsGeoblock(pathname: string) {
    "/_astro/" <= pathname || "/assets/" <= pathname || pathname in ASSET_PATHS
  }

  predicate Blocked(p: Pass) { !SkipsGeoblock(p.request.pathname) && p.geo.Blocks? }

  function OutcomeOf(c: Config, m: Memory, p: Pass): Outcome {
    if Blocked(p) then Outcome(p.geo.r, Open, Open, false, false, false, false)
    else var (petro, vault) := Gates(c, m, p); Headed(Decided(c, p, petro, vault))
  }

  /** A refusal is remembered by the gate that made it. */
  function Remembered(m: Memory, q: Request, o: Outcome): Memory {
    if !o.refused then m
    else if o.petro.Hidden? then m.(petro := m.petro[q := o.petro.hasSession])
    else if o.vault.Hidden? then m.(vault := m.vault[q := o.vault.hasSession])
    else m
  }

  function After(c: Config, m: Memory, p: Pass): Memory { Remembered(m, p.request, OutcomeOf(c, m, p)) }

  class Middleware {
    const c: Config
    var petroRefused: map<Request, bool>
    var vaultRefused: map<Request, bool>

    function Mem(): Memory
      reads this
    {
      Memory(petroRefused, vaultRefused)
    }

    constructor (c: Config)
      ensures this.c == c && Mem() == Memory(map[], map[])
    {
      this.c := c;
      petroRefused, vaultRefused := map[], map[];
    }

    method PetroTinsRefusal(q: Request, hasSession: bool) returns (r: Response)
      modifies this
      ensures r == REFUSAL && vaultRefused == old(vaultRefused) && petroRefused == old(petroRefused)[q := hasSession]
    {
      petroRefused := petroRefused[q := hasSession];
      r := REFUSAL;
    }

    method AgenticsRefusal(q: Request, hasSession: bool) returns (r: Response)
      modifies this
      ensures r == REFUSAL && petroRefused == old(petroRefused) && vaultRefused == old(vaultRefused)[q := hasSession]
    {
      vaultRefused := vaultRefused[q := hasSession];
      r := REFUSAL;
    }

    /** runApp with `refuse` as the handler, by the gate `petro` tells. */
    method Refuse(p: Pass, petro: bool, hasSession: bool) returns (ran: Ran)
      modifies this
      ensures ran == Through(c, p, hasSession, REFUSAL)
      ensures Mem() == if !ran.next then old(Mem())
        else if petro then old(Mem()).(petro := old(petroRefused)[p.request := hasSession])
        else old(Mem()).(vault := old(vaultRefused)[p.request := hasSession])
    {
      if hasSession {
        if p.app.LoadFails? { return Ran(p.app.login, false, false); }
        if p.app.Answers? { return Ran(p.app.r, true, false); }
      }
      var r;
      if petro { r := PetroTinsRefusal(p.request, hasSession); } else { r := AgenticsRefusal(p.request, hasSession); }
      ran := Ran(With(r, SecurityHeaders(c.production)), hasSession, true);
    }

    /** The last lines of onRequest. */
    method LastHeaders(before: Outcome) returns (o: Outcome)
      ensures o == Headed(before)
    {
      var res := before.response;
      if res.status == 404 { res := With(res, NOT_FOUND_HEADERS); }
      if before.petro == Owner { res := WithOwnerHeaders(res); }
      if before.vault == Owner { res := WithOwnerHeaders(res); }
      o := before.(response := res);
    }

    method OnRequest(p: Pass) returns (o: Outcome)
      modifies this
      ensures o == OutcomeOf(c, old(Mem()), p) && Mem() == After(c, old(Mem()), p)
    {
      hide SkipsGeoblock, PetroTinsGate, VaultGate, RouteOf, Through, With, WithoutMarker, WithOwnerHeaders;
      if !SkipsGeoblock(p.request.pathname) && p.geo.Blocks? {
        return Outcome(p.geo.r, Open, Open, false, false, false, false);
      }
      var petro := PetroTinsGate(c, Mem(), p);
      var vault := if petro == Open then VaultGate(c, Mem(), p) else Open;
      var ran: Ran;
      var refused, rewritten := false, false;
      if petro.Hidden? {
        ran := Refuse(p, true, petro.hasSession);
        refused, ran := ran.next, ran.(next := false);
      } else if petro.NotFoundPage? {
        ran := Through(c, p, petro.hasSession, p.page);
        ran := ran.(response := WithoutMarker(ran.response));
      } else if vault.Hidden? {
        ran := Refuse(p, false, vault.hasSession);
        refused, ran := ran.next, ran.(next := false);
      } else if vault.NotFoundPage? {
        ran := Through(c, p, vault.hasSession, p.page);
        ran := ran.(response := WithoutMarker(ran.response));
      } else {
        var routed := RouteOf(c, p);
        ran, rewritten := routed.0, routed.1;
      }
      o := LastHeaders(Outcome(ran.response, petro, vault, ran.app, ran.next, rewritten, refused));
    }
  }

  // ── What one pass keeps ───────────────────────────────────────────────────

  /**
   * With the flag false, any pass on a Vault path but the 404 render of a refused request runs a page for the owner
   * alone, and a viewer without a session never reaches app.ts.
   */
  lemma {:induction false} VaultPageIsTheOwners(c: Config, m: Memory, p: Pass)
    requires !c.vaultPublic && IsVaultPath(p.request.pathname) && !Blocked(p)
    requires p.routePattern == "/404" ==> Unremembered(m, p.request)
    ensures var o := OutcomeOf(c, m, p);
      && (o.vault == Owner <==>
        p.vaultSession.Some? && !p.vaultSession.value.isDemo && IsOwner(c, p.vaultSession.value))
      && (o.vault != Owner ==> o.vault.Hidden? && !o.ranPage && !o.ranRewritten)
      && (o.ranApp ==> p.vaultSession.Some?)
  {
    hide IsVaultPath, IsPetroTinsPath, IsDoorPath, With, WithOwnerHeaders, WithoutMarker;
    ThreeKindsOfPath(p.request.pathname);
    assert PetroTinsGate(c, m, p) == Open;
  }

  /** A signed-in viewer, not the demo, whose tenant id is the owner's but for capital letters. */
  predicate SignedInAs(session: Option<Viewer>, owner: string) {
    && session.Some? && !session.value.isDemo && session.value.tenantId.Some?
    && var id := session.value.tenantId.value;
    && id != "" && |id| == |owner|
    && forall i | 0 <= i < |id| :: owner[i] == if 'A' <= id[i] <= 'Z' then (id[i] as int + 32) as char else id[i]
  }

  lemma OwnerIsSignedIn(c: Config, session: Option<Viewer>)
    ensures SignedInAs(session, c.owner) <==> session.Some? && !session.value.isDemo && IsOwner(c, session.value)
  {
    if session.Some? && session.value.tenantId.Some? {
      Owners.OwnerByCharacter(session.value.tenantId.value, c.owner);
    }
  }

  /**
   * With the flag false, a pass on a Vault path lets in exactly the viewers signed in as the owner, whose page then
   * runs unless an answer comes before it, and no page runs for anyone else.
   */
  lemma {:induction false} VaultLetsInTheOwnerExactly(c: Config, m: Memory, p: Pass)
    requires !c.vaultPublic && IsVaultPath(p.request.pathname) && !Blocked(p)
    requires p.routePattern == "/404" ==> Unremembered(m, p.request)
    ensures OutcomeOf(c, m, p).vault ==
      if SignedInAs(p.vaultSession, c.owner) then Owner else Hidden(p.vaultSession.Some?)
    ensures OutcomeOf(c, m, p).ranPage || OutcomeOf(c, m, p).ranRewritten ==> SignedInAs(p.vaultSession, c.owner)
    ensures SignedInAs(p.vaultSession, c.owner) && p.app.CallsNext? && p.legacy.NoLegacy? ==> OutcomeOf(c, m, p).ranPage
  {
    OwnerIsSignedIn(c, p.vaultSession);
    assert PetroTinsGate(c, m, p) == Open by { ThreeKindsOfPath(p.request.pathname); }
    hide SignedInAs, Owners.IsOwner, IsVaultPath, IsPetroTinsPath, IsDoorPath, With, WithOwnerHeaders, SecurityHeaders;
  }

  /** While PetroTins is not public, its pages run for a viewer signed in as the owner alone, and for that viewer. */
  lemma {:induction false} PetroTinsLetsInTheOwnerExactly(c: Config, m: Memory, p: Pass)
    requires !c.petroPublic && IsPetroTinsPath(p.request.pathname) && !Blocked(p)
    requires p.routePattern == "/404" ==> Unremembered(m, p.request)
    ensures OutcomeOf(c, m, p).petro ==
      if SignedInAs(p.petroSession, c.owner) then Owner else Hidden(p.petroSession.Some?)
    ensures OutcomeOf(c, m, p).ranPage || OutcomeOf(c, m, p).ranRewritten ==> SignedInAs(p.petroSession, c.owner)
    ensures SignedInAs(p.petroSession, c.owner) && p.app.CallsNext? && p.legacy.NoLegacy? ==> OutcomeOf(c, m, p).ranPage
  {
    OwnerIsSignedIn(c, p.petroSession);
    hide SignedInAs, IsOwner, IsVaultPath, IsPetroTinsPath, IsDoorPath, With, WithOwnerHeaders, SecurityHeaders;
    ThreeKindsOfPath(p.request.pathname);
    assert VaultGate(c, m, p) == Open;
  }

  /** A page Astro routes below /dashboard/agentics/ runs for the owner alone, however its address is spelled. */
  lemma {:induction false} RoutedVaultPageIsTheOwners(
      c: Config, m: Memory, p: Pass, lead: string, name: string, tail: string)
    requires !c.vaultPublic && !Blocked(p) && (p.routePattern == "/404" ==> Unremembered(m, p.request))
    requires lead == "" || lead == "/"
    requires '%' !in name && NoCut(name) && HasText(name)
    requires Decode(p.request.pathname, RESERVED) == Some(lead + DOOR + "/" + name + tail)
    requires OutcomeOf(c, m, p).ranPage || OutcomeOf(c, m, p).ranRewritten
    ensures SignedInAs(p.vaultSession, c.owner)
  {
    hide *;
    EverySpellingOfAVaultPageIsGated(p.request.pathname, lead, name, tail);
    VaultLetsInTheOwnerExactly(c, m, p);
  }

  /** A pass asks app.ts: for a refusal or 404 render with a session, or for a page that is not public, once let in. */
  predicate AsksApp(c: Config, m: Memory, p: Pass) {
    && !Blocked(p)
    && var (petro, vault) := Gates(c, m, p);
    match Deciding(petro, vault)
    case Hidden(hasSession) => hasSession
    case NotFoundPage(hasSession) => hasSession
    case _ => !p.isPublic && p.legacy.NoLegacy?
  }

  lemma GatesIgnoreApp(c: Config, m: Memory, p: Pass, app: App)
    ensures Gates(c, m, p.(app := app)) == Gates(c, m, p)
    ensures AsksApp(c, m, p.(app := app)) == AsksApp(c, m, p)
  {
  }

  lemma AppRunsWhenAsked(c: Config, m: Memory, p: Pass)
    ensures OutcomeOf(c, m, p).ranApp <==> AsksApp(c, m, p) && !p.app.LoadFails?
    ensures AsksApp(c, m, p) && p.app.LoadFails? ==>
      var o := OutcomeOf(c, m, p); !o.ranPage && !o.ranRewritten && !o.refused
    ensures !Blocked(p) && Gates(c, m, p) == (Open, Open) && p.isPublic && p.legacy.NoLegacy? ==>
      OutcomeOf(c, m, p).ranPage
  {
    hide Gates, With, WithoutMarker, WithOwnerHeaders, SkipsGeoblock, SecurityHeaders;
  }

  lemma NotAskedIsIgnored(c: Config, m: Memory, p: Pass, app: App)
    requires !AsksApp(c, m, p)
    ensures OutcomeOf(c, m, p.(app := app)) == OutcomeOf(c, m, p)
  {
    GatesIgnoreApp(c, m, p, app);
    hide Gates, Headed, With, WithoutMarker, SkipsGeoblock, SecurityHeaders;
  }

  /**
   * Nothing app.ts does can break a public page: what it does shows in a pass exactly when the viewer has a session
   * and is refused, or is let in to a page that is neither public nor a legacy address; where it cannot be loaded then,
   * no page runs.
   */
  lemma {:induction false} AppMattersExactly(c: Config, m: Memory, p: Pass)
    ensures (exists app :: OutcomeOf(c, m, p.(app := app)) != OutcomeOf(c, m, p)) <==> AsksApp(c, m, p)
    ensures OutcomeOf(c, m, p).ranApp <==> AsksApp(c, m, p) && !p.app.LoadFails?
    ensures AsksApp(c, m, p) && p.app.LoadFails? ==>
      var o := OutcomeOf(c, m, p); !o.ranPage && !o.ranRewritten && !o.refused
    ensures !Blocked(p) && Gates(c, m, p) == (Open, Open) && p.isPublic && p.legacy.NoLegacy? ==>
      OutcomeOf(c, m, p).ranPage
  {
    hide *;
    AppRunsWhenAsked(c, m, p);
    if AsksApp(c, m, p) {
      var other := if p.app.LoadFails? then CallsNext else LoadFails(p.page);
      GatesIgnoreApp(c, m, p, other);
      AppRunsWhenAsked(c, m, p.(app := other));
      assert OutcomeOf(c, m, p.(app := other)) != OutcomeOf(c, m, p);
    } else {
      forall app ensures OutcomeOf(c, m, p.(app := app)) == OutcomeOf(c, m, p) { NotAskedIsIgnored(c, m, p, app); }
    }
  }

  /** A geoblock that fails lets the request through, and an asset is never blocked. */
  lemma {:induction false} GeoblockFailsOpen(c: Config, m: Memory, p: Pass)
    requires p.geo.Fails? || SkipsGeoblock(p.request.pathname)
    ensures OutcomeOf(c, m, p) == OutcomeOf(c, m, p.(geo := Passes))
  {
    var q, gates := p.(geo := Passes), Gates(c, m, p);
    GatesIgnoreTheGeoblock(c, m, p);
    DecidedIgnoresTheGeoblock(c, p, gates.0, gates.1);
    hide Gates, Headed, Decided;
  }

  /** An asset's path, which the geoblock is not asked about. */
  predicate IsAsset(pathname: string) {
    "/_astro/" <= pathname || "/assets/" <= pathname || pathname == "/favicon.ico" || pathname == "/favicon.webp"
  }

  /** What the geoblock blocks is its own answer, and nothing else runs or is remembered; nothing else is changed. */
  lemma {:induction false} GeoblockStopsExactly(c: Config, m: Memory, p: Pass)
    ensures p.geo.Blocks? && !IsAsset(p.request.pathname) ==>
      OutcomeOf(c, m, p) == Outcome(p.geo.r, Open, Open, false, false, false, false) && After(c, m, p) == m
    ensures !(p.geo.Blocks? && !IsAsset(p.request.pathname)) ==>
      OutcomeOf(c, m, p) == OutcomeOf(c, m, p.(geo := Passes))
  {
    var q, gates := p.(geo := Passes), Gates(c, m, p);
    GatesIgnoreTheGeoblock(c, m, p);
    DecidedIgnoresTheGeoblock(c, p, gates.0, gates.1);
    hide Gates, Headed, Decided;
  }

  lemma GatesIgnoreTheGeoblock(c: Config, m: Memory, p: Pass)
    ensures Gates(c, m, p.(geo := Passes)) == Gates(c, m, p)
  {
  }

  lemma DecidedIgnoresTheGeoblock(c: Config, p: Pass, petro: Gate, vault: Gate)
    ensures Decided(c, p.(geo := Passes), petro, vault) == Decided(c, p, petro, vault)
  {
    hide With, WithoutMarker, SecurityHeaders;
  }

  lemma OpenVaultIsNotGated(c: Config, m: Memory, p: Pass, session: Option<Viewer>)
    requires c.vaultPublic
    ensures OutcomeOf(c, m, p).vault == Open && After(c, m, p).vault == m.vault
    ensures OutcomeOf(c, m, p.(vaultSession := session)) == OutcomeOf(c, m, p)
  {
    hide With, WithoutMarker, SecurityHeaders, PetroTinsGate, SkipsGeoblock;
    PetroIgnoresTheVault(c, m, p, session);
  }

  lemma PetroIgnoresTheVault(c: Config, m: Memory, p: Pass, session: Option<Viewer>)
    ensures PetroTinsGate(c, m, p.(vaultSession := session)) == PetroTinsGate(c, m, p)
  {
  }

  /** The headers added at the end change nothing but the headers. */
  lemma HeadingKeeps(c: Config, m: Memory, p: Pass)
    requires !Blocked(p)
    ensures OutcomeOf(c, m, p).petro == Gates(c, m, p).0 && OutcomeOf(c, m, p).vault == Gates(c, m, p).1
    ensures var o := OutcomeOf(c, m, p); o.refused ==> Deciding(o.petro, o.vault).Hidden?
    ensures var o := OutcomeOf(c, m, p);
      o.ranApp && Deciding(o.petro, o.vault).Hidden? ==> Deciding(o.petro, o.vault).hasSession
    ensures var o := OutcomeOf(c, m, p);
      o.ranApp && Deciding(o.petro, o.vault).NotFoundPage? ==> Deciding(o.petro, o.vault).hasSession
  {
    hide RouteOf, Gates, With, WithOwnerHeaders, WithoutMarker;
  }

  /** Strict-Transport-Security is for production alone; the other six headers are always there. */
  lemma SecurityHeadersAre(production: bool)
    ensures SecurityHeaders(production).Keys == {"Content-Security-Policy-Report-Only", "Permissions-Policy",
        "X-Frame-Options", "X-Content-Type-Options", "Referrer-Policy", "Cross-Origin-Opener-Policy",
        "Cross-Origin-Resource-Policy"} + if production then {"Strict-Transport-Security"} else {}
    ensures var h := SecurityHeaders(production);
      h["X-Frame-Options"] == "DENY" && h["X-Content-Type-Options"] == "nosniff"
  {
  }

  /** The answer `r` with headers set on it, and with those of a 404 if it is one. */
  function Sent(r: Response, headers: map<string, string>): Response {
    var all := r.headers + headers;
    r.(headers :=
      if r.status == 404 then all + map["Cache-Control" := "no-store", "X-Robots-Tag" := "noindex, nofollow"] else all)
  }

  /**
   * What is sent where no gate has a say: a legacy address' own answer or the page it is rewritten to, a public page
   * as it is or with the public headers, and else what app.ts makes of the page, or the login page without it.
   */
  lemma {:induction false} OrdinaryAnswersExactly(c: Config, m: Memory, p: Pass)
    requires !Blocked(p) && Gates(c, m, p) == (Open, Open)
    ensures OutcomeOf(c, m, p).response ==
      if p.legacy.Respond? then Sent(p.legacy.r, map[])
      else if p.legacy.Rewrite? then Sent(p.legacy.r, SecurityHeaders(c.production) + p.publicHeaders)
      else if p.isPublic && p.needsHeaders then Sent(p.page, SecurityHeaders(c.production) + p.publicHeaders)
      else if p.isPublic then Sent(p.page, map[])
      else if p.app.LoadFails? then Sent(p.app.login, map[])
      else if p.app.Answers? then Sent(p.app.r, map[])
      else Sent(p.page, SecurityHeaders(c.production))
  {
    hide Gates, SecurityHeaders;
    assert forall h: map<string, string> :: h + map[] == h;
  }

  lemma OwnerVaryNamesCookie(headers: map<string, string>)
    ensures NamesCookie(OwnerVary(headers))
  {
    if "Vary" !in headers || headers["Vary"] == "" {
      assert "Cookie"[0..0 + 6] == "Cookie";
      assert CookieAt("Cookie", 0, 0, 6);
    } else if !NamesCookie(headers["Vary"]) {
      var n, v := |headers["Vary"]|, headers["Vary"] + ", Cookie";
      assert v[n + 2..n + 2 + 6] == "Cookie";
      assert CookieAt(v, n + 1, n + 2, n + 8);
    }
  }

  /** Vary is made to name the cookie, keeps what it named, and is left alone where it named the cookie already. */
  lemma OwnerVaryExactly(headers: map<string, string>)
    ensures NamesCookie(OwnerVary(headers))
    ensures "Vary" in headers ==>
      headers["Vary"] <= OwnerVary(headers) && (NamesCookie(headers["Vary"]) ==> OwnerVary(headers) == headers["Vary"])
  {
    OwnerVaryNamesCookie(headers);
    assert !NamesCookie("");
    hide NamesCookie;
  }

  /** Every 404 but the geoblock's own leaves unstored and unindexed; the owner's answers leave private. */
  lemma {:induction false} HeadersOnTheWayOut(c: Config, m: Memory, p: Pass)
    requires !Blocked(p)
    ensures var o := OutcomeOf(c, m, p); var h := o.response.headers;
      && (o.response.status == 404 || o.petro == Owner || o.vault == Owner ==>
          && "Cache-Control" in h && "X-Robots-Tag" in h && h["X-Robots-Tag"] == "noindex, nofollow"
          && (h["Cache-Control"] == "no-store" || h["Cache-Control"] == "private, no-store"))
      && (o.petro == Owner || o.vault == Owner ==>
          && "Cache-Control" in h && h["Cache-Control"] == "private, no-store" && "Vary" in h && NamesCookie(h["Vary"]))
  {
    var (petro, vault) := Gates(c, m, p);
    hide Gates, NamesCookie, OwnerVary;
    var o := Decided(c, p, petro, vault);
    assert OutcomeOf(c, m, p) == Headed(o);
    hide OutcomeOf, Decided;
    var a := if o.response.status == 404 then With(o.response, NOT_FOUND_HEADERS) else o.response;
    OwnerVaryNamesCookie(a.headers);
    OwnerVaryNamesCookie(WithOwnerHeaders(a).headers);
  }

  /** Adding the owner's headers keeps what Vary named. */
  predicate KeepsVary(before: map<string, string>, after: map<string, string>) {
    "Vary" in before ==>
      && "Vary" in after && before["Vary"] <= after["Vary"]
      && (NamesCookie(before["Vary"]) ==> after["Vary"] == before["Vary"])
  }

  lemma OwnerHeadersKeepVary(r: Response)
    ensures KeepsVary(r.headers, WithOwnerHeaders(r).headers)
  {
    OwnerVaryExactly(r.headers);
    hide NamesCookie, OwnerVary;
  }

  lemma HeadedKeepsVary(o: Outcome)
    ensures KeepsVary(o.response.headers, Headed(o).response.headers)
  {
    var a := if o.response.status == 404 then With(o.response, NOT_FOUND_HEADERS) else o.response;
    var b := if o.petro == Owner then WithOwnerHeaders(a) else a;
    OwnerHeadersKeepVary(a);
    OwnerHeadersKeepVary(b);
    OwnerVaryNamesCookie(a.headers);
    hide NamesCookie, OwnerVary;
  }

  /** The owner's page keeps what its Vary named. */
  lemma {:induction false} OwnersPageKeepsItsVary(c: Config, m: Memory, p: Pass)
    requires !Blocked(p) && (OutcomeOf(c, m, p).vault == Owner || OutcomeOf(c, m, p).petro == Owner)
    requires p.legacy.NoLegacy? && !p.isPublic && p.app.CallsNext?
    ensures KeepsVary(p.page.headers, OutcomeOf(c, m, p).response.headers)
  {
    OwnerDecides(c, m, p);
    hide *;
    var o := Decided(c, p, Gates(c, m, p).0, Gates(c, m, p).1);
    OwnerIsAnswered(c, p, Gates(c, m, p).0, Gates(c, m, p).1);
    HeadedKeepsVary(o);
    VaryIsNoSecurityHeader(c.production, p.page);
    PassedOn(p.page.headers, o.response.headers, OutcomeOf(c, m, p).response.headers);
  }

  lemma OwnerDecides(c: Config, m: Memory, p: Pass)
    requires !Blocked(p) && (OutcomeOf(c, m, p).vault == Owner || OutcomeOf(c, m, p).petro == Owner)
    ensures Deciding(Gates(c, m, p).0, Gates(c, m, p).1) == Owner
    ensures OutcomeOf(c, m, p) == Headed(Decided(c, p, Gates(c, m, p).0, Gates(c, m, p).1))
  {
    HeadingKeeps(c, m, p);
    hide PetroTinsGate, VaultGate, Decided, Headed;
  }

  lemma OwnerIsAnswered(c: Config, p: Pass, petro: Gate, vault: Gate)
    requires Deciding(petro, vault) == Owner && p.legacy.NoLegacy? && !p.isPublic && p.app.CallsNext?
    ensures Decided(c, p, petro, vault).response == With(p.page, SecurityHeaders(c.production))
  {
    hide SecurityHeaders, With;
  }

  lemma VaryIsNoSecurityHeader(production: bool, r: Response)
    ensures "Vary" in r.headers ==>
      var h := With(r, SecurityHeaders(production)).headers; "Vary" in h && h["Vary"] == r.headers["Vary"]
  {
  }

  lemma PassedOn(a: map<string, string>, b: map<string, string>, d: map<string, string>)
    requires ("Vary" in a ==> "Vary" in b && b["Vary"] == a["Vary"]) && KeepsVary(b, d)
    ensures KeepsVary(a, d)
  {
    hide NamesCookie;
  }

  // ── Every sequence of passes ──────────────────────────────────────────────

  function Run(c: Config, passes: seq<Pass>): Memory {
    if passes == [] then Memory(map[], map[])
    else After(c, Run(c, passes[..|passes| - 1]), passes[|passes| - 1])
  }

  /** The outcome of pass `i` of a run. */
  function At(c: Config, passes: seq<Pass>, i: nat): Outcome
    requires i < |passes|
  {
    OutcomeOf(c, Run(c, passes[..i]), passes[i])
  }

  /**
   * Once the flag is true the Vault gate stays out of the way of every pass: it decides none, remembers nothing, and
   * the session it would ask for makes no difference.
   */
  lemma {:induction false} OpenVaultNeverDecides(c: Config, passes: seq<Pass>, i: nat, session: Option<Viewer>)
    requires c.vaultPublic && i < |passes|
    ensures At(c, passes, i).vault == Open && Run(c, passes).vault == map[]
    ensures At(c, passes[i := passes[i].(vaultSession := session)], i) == At(c, passes, i)
  {
    hide OutcomeOf, After;
    OpenVaultIsNotGated(c, Run(c, passes[..i]), passes[i], session);
    assert passes[i := passes[i].(vaultSession := session)][..i] == passes[..i];
    OpenVaultRemembersNothing(c, passes);
  }

  lemma {:induction false} OpenVaultRemembersNothing(c: Config, passes: seq<Pass>)
    requires c.vaultPublic
    ensures Run(c, passes).vault == map[]
  {
    hide OutcomeOf, After;
    if passes != [] {
      var front, last := passes[..|passes| - 1], passes[|passes| - 1];
      OpenVaultRemembersNothing(c, front);
      OpenVaultIsNotGated(c, Run(c, front), last, None);
    }
  }

  /** Pass `j` refused the request by the Vault gate. */
  predicate RefusedAt(c: Config, passes: seq<Pass>, j: nat, q: Request)
    requires j < |passes|
  {
    passes[j].request == q && At(c, passes, j).refused && At(c, passes, j).vault.Hidden?
  }

  /** The last refusal of `q` by the Vault gate among the passes: what the gate remembers of it. */
  lemma {:induction false} MemoryIsTheLastRefusal(c: Config, passes: seq<Pass>, q: Request) returns (j: nat)
    requires q in Run(c, passes).vault
    ensures j < |passes| && RefusedAt(c, passes, j, q)
    ensures At(c, passes, j).vault == Hidden(Run(c, passes).vault[q])
    ensures forall k | j < k < |passes| :: !RefusedAt(c, passes, k, q)
    decreases |passes|
  {
    hide *;
    NothingRemembered(c, passes, q);
    var front, last := passes[..|passes| - 1], |passes| - 1;
    if RefusedAt(c, passes, last, q) {
      j := last;
      LastRefusalIsKept(c, passes, q);
    } else {
      NotRefusedKept(c, passes, q);
      j := MemoryIsTheLastRefusal(c, front, q);
      forall k | 0 <= k < last
        ensures RefusedAt(c, passes, k, q) == RefusedAt(c, front, k, q) && At(c, passes, k) == At(c, front, k)
      {
        SameBefore(c, passes, k, q);
      }
    }
  }

  lemma NothingRemembered(c: Config, passes: seq<Pass>, q: Request)
    requires q in Run(c, passes).vault
    ensures passes != []
  {
  }

  lemma LastRefusalIsKept(c: Config, passes: seq<Pass>, q: Request)
    requires passes != [] && q in Run(c, passes).vault
    requires RefusedAt(c, passes, |passes| - 1, q)
    ensures At(c, passes, |passes| - 1).vault == Hidden(Run(c, passes).vault[q])
  {
  }

  lemma SameBefore(c: Config, passes: seq<Pass>, k: nat, q: Request)
    requires k < |passes| - 1
    ensures var front := passes[..|passes| - 1];
      RefusedAt(c, passes, k, q) == RefusedAt(c, front, k, q) && At(c, passes, k) == At(c, front, k)
  {
    hide OutcomeOf, Run;
    assert passes[..|passes| - 1][..k] == passes[..k];
  }

  lemma NotRefusedKept(c: Config, passes: seq<Pass>, q: Request)
    requires passes != [] && q in Run(c, passes).vault
    requires !RefusedAt(c, passes, |passes| - 1, q)
    ensures var m := Run(c, passes[..|passes| - 1]); q in m.vault && Run(c, passes).vault[q] == m.vault[q]
  {
    var m, p := Run(c, passes[..|passes| - 1]), passes[|passes| - 1];
    hide OutcomeOf;
    assert Run(c, passes) == Remembered(m, p.request, OutcomeOf(c, m, p));
  }

  /**
   * Two-pass safety, with the flag false, over any passes on any requests: a pass is the 404 render of a refused
   * request only after that request was refused, with the session flag of its last refusal; it then runs the 404
   * page, and app.ts only if that flag is true.
   */
  lemma {:induction false} TwoPassSafety(c: Config, passes: seq<Pass>, i: nat) returns (j: nat)
    requires !c.vaultPublic && i < |passes| && At(c, passes, i).vault.NotFoundPage?
    ensures j < i && RefusedAt(c, passes, j, passes[i].request)
    ensures At(c, passes, j).vault == Hidden(At(c, passes, i).vault.hasSession)
    ensures forall k | j < k < i :: !RefusedAt(c, passes, k, passes[i].request)
    ensures passes[i].routePattern == "/404" && !At(c, passes, i).refused
    ensures At(c, passes, i).ranApp ==> At(c, passes, i).vault.hasSession
    ensures !At(c, passes, j).ranPage && IsVaultPath(passes[i].request.pathname)
  {
    var p, m := passes[i], Run(c, passes[..i]);
    assert !Blocked(p);
    HeadingKeeps(c, m, p);
    assert Gates(c, m, p).1.NotFoundPage?;
    assert p.request in m.vault && m.vault[p.request] == At(c, passes, i).vault.hasSession && p.routePattern == "/404";
    hide OutcomeOf, Run, IsVaultPath;
    j := MemoryIsTheLastRefusal(c, passes[..i], p.request);
    forall k | 0 <= k < i ensures RefusedAt(c, passes[..i], k, p.request) == RefusedAt(c, passes, k, p.request)
      && At(c, passes[..i], k) == At(c, passes, k)
    {
      assert passes[..i][..k] == passes[..k];
    }
    RefusedPass(c, passes, j, p.request);
  }

  /** A refused request's page did not run, it is a Vault path's, and app.ts ran only for a viewer with a session. */
  lemma RefusedPass(c: Config, passes: seq<Pass>, j: nat, q: Request)
    requires j < |passes| && RefusedAt(c, passes, j, q)
    ensures !At(c, passes, j).ranPage && IsVaultPath(q.pathname)
    ensures At(c, passes, j).ranApp ==> At(c, passes, j).vault.hasSession
  {
    var m, p := Run(c, passes[..j]), passes[j];
    hide IsVaultPath, IsPetroTinsPath, Run, With;
    HeadingKeeps(c, m, p);
  }

  /**
   * After a refusal app.ts runs again on the request only if the pass goes by a refusal with a session, or decides
   * afresh that the viewer is the owner.
   */
  lemma {:induction false} AppAfterRefusal(c: Config, passes: seq<Pass>, j: nat, i: nat)
    requires !c.vaultPublic && j < i < |passes| && RefusedAt(c, passes, j, passes[i].request)
    requires At(c, passes, i).ranApp
    ensures var o := At(c, passes, i);
      || (o.vault.Hidden? && o.vault.hasSession)
      || (o.vault.NotFoundPage? && o.vault.hasSession)
      || (o.vault == Owner && CanAccessVault(c, passes[i].vaultSession))
  {
    var m, p := Run(c, passes[..i]), passes[i];
    assert !Blocked(p);
    assert p.request !in m.petro by {
      hide OutcomeOf, RefusedAt, At, Run, IsVaultPath, IsPetroTinsPath, IsDoorPath;
      RefusedPass(c, passes, j, p.request);
      ThreeKindsOfPath(p.request.pathname);
      if p.request in m.petro { PetroMemoryIsPetroPaths(c, passes[..i], p.request); }
    }
    assert !IsPetroTinsPath(p.request.pathname) by {
      hide *;
      RefusedPass(c, passes, j, p.request);
      VaultIsNotPetroTins(p.request.pathname);
    }
    hide IsVaultPath, IsPetroTinsPath, Run, With, RefusedAt;
    assert PetroTinsGate(c, m, p) == Open by { hide OutcomeOf; }
    HeadingKeeps(c, m, p);
    hide OutcomeOf;
  }

  lemma VaultIsNotPetroTins(pathname: string)
    requires IsVaultPath(pathname)
    ensures !IsPetroTinsPath(pathname)
  {
    hide IsVaultPath, IsPetroTinsPath, IsDoorPath;
    ThreeKindsOfPath(pathname);
  }

  /** The PetroTins gate remembers requests for PetroTins paths only. */
  lemma {:induction false} PetroMemoryIsPetroPaths(c: Config, passes: seq<Pass>, q: Request)
    requires q in Run(c, passes).petro
    ensures IsPetroTinsPath(q.pathname)
    decreases |passes|
  {
    var front, p := passes[..|passes| - 1], passes[|passes| - 1];
    if q in Run(c, front).petro {
      PetroMemoryIsPetroPaths(c, front, q);
    } else {
      assert !Blocked(p);
      hide IsPetroTinsPath, IsVaultPath;
      HeadingKeeps(c, Run(c, front), p);
      hide OutcomeOf;
    }
  }

  // ── What the viewer sees ──────────────────────────────────────────────────

  predicate AsksForThe404Page(r: Response) {
    r.status == 404 && r.body.None? && !(MARKER in r.headers && r.headers[MARKER] == "no")
  }

  /** Astro's merge of its 404 page into the bodiless 404 it replaces. */
  function Merged(page: Response, original: Response): Response {
    Response(if original.status == 200 then page.status else original.status, page.body,
      page.headers + (original.headers - {"Content-Type"}))
  }

  /** What Astro sends: the first pass's answer, or its 404 page for the same request merged into it. */
  function Rendered(c: Config, m: Memory, p: Pass): Response {
    var first := OutcomeOf(c, m, p).response;
    if AsksForThe404Page(first) then
      Merged(OutcomeOf(c, After(c, m, p), p.(routePattern := "/404")).response, first)
    else WithoutMarker(first)
  }

  /** Astro's 404 page, as the next handler answers it. */
  predicate Is404Page(page: Response) {
    page.status == 404 && page.body.Some? && MARKER in page.headers && page.headers[MARKER] == "no"
  }

  /** A pass on a path that does not exist: no gate, legacy address or public path, and Astro's 404 route. */
  predicate OnUnknownPath(c: Config, m: Memory, p: Pass) {
    && !Blocked(p) && Gates(c, m, p) == (Open, Open) && Unremembered(m, p.request)
    && p.legacy.NoLegacy? && !p.isPublic && p.routePattern == "/404"
  }

  predicate IsHidden(c: Config, m: Memory, p: Pass, hasSession: bool) {
    && !Blocked(p) && Unremembered(m, p.request)
    && Deciding(Gates(c, m, p).0, Gates(c, m, p).1) == Hidden(hasSession)
  }

  /** The pass that renders the 404 page of a request just refused is decided by what its gate remembered. */
  lemma RerenderIsNotFoundPage(c: Config, m: Memory, p: Pass, hasSession: bool)
    requires IsHidden(c, m, p, hasSession) && Through(c, p, hasSession, REFUSAL).next
    ensures var again := p.(routePattern := "/404"); var gates := Gates(c, After(c, m, p), again);
      !Blocked(again) && Deciding(gates.0, gates.1) == NotFoundPage(hasSession) && gates.0 != Owner && gates.1 != Owner
  {
    hide IsVaultPath, IsPetroTinsPath, IsDoorPath, CanAccessVault, CanAccessPetroTins;
    hide With, WithOwnerHeaders, Through, RouteOf;
    ThreeKindsOfPath(p.request.pathname);
    assert OutcomeOf(c, m, p).refused;
    hide Headed;
    HeadingKeeps(c, m, p);
  }

  lemma HiddenIsNobodys(c: Config, m: Memory, p: Pass, hasSession: bool)
    requires IsHidden(c, m, p, hasSession)
    ensures Gates(c, m, p).0 != Owner && Gates(c, m, p).1 != Owner
  {
  }

  /** The bodiless 404 with every header of its way out: nothing of them is the page's own. */
  lemma PlainHeaders(production: bool)
    ensures MARKER !in SecurityHeaders(production) && MARKER !in NOT_FOUND_HEADERS
    ensures "Content-Type" !in SecurityHeaders(production) && "Content-Type" !in NOT_FOUND_HEADERS
  {
  }

  /** The page of a path that does not exist: the 404 page with the security and the not-found headers. */
  function Shown404(c: Config, page: Response): Response {
    WithoutMarker(With(With(page, SecurityHeaders(c.production)), NOT_FOUND_HEADERS))
  }

  /** A refusal's 404 page, merged into the refusal, is the page of a path that does not exist. */
  lemma MergedRefusal(c: Config, page: Response)
    requires Is404Page(page)
    ensures var sec := SecurityHeaders(c.production);
      Merged(With(WithoutMarker(With(page, sec)), NOT_FOUND_HEADERS), With(With(REFUSAL, sec), NOT_FOUND_HEADERS))
        == Shown404(c, page)
    ensures AsksForThe404Page(With(With(REFUSAL, SecurityHeaders(c.production)), NOT_FOUND_HEADERS))
  {
    PlainHeaders(c.production);
    var sec, nf := SecurityHeaders(c.production), NOT_FOUND_HEADERS;
    hide SecurityHeaders;
    assert (map[] + sec + nf) - {"Content-Type"} == sec + nf;
    assert ((page.headers + sec) - {MARKER}) + nf + (sec + nf) == (page.headers + sec + nf) - {MARKER};
  }

  /** A signed-out visitor of a hidden path sees the 404 page, by way of no sign-in: app.ts runs in neither pass. */
  lemma {:induction false} SignedOutSeesThe404Page(c: Config, m: Memory, p: Pass)
    requires IsHidden(c, m, p, false) && Is404Page(p.page)
    ensures Rendered(c, m, p) == Shown404(c, p.page)
    ensures !OutcomeOf(c, m, p).ranApp && !OutcomeOf(c, After(c, m, p), p.(routePattern := "/404")).ranApp
  {
    hide *;
    RefusedAnswer(c, m, p, false);
    RerenderIsNotFoundPage(c, m, p, false);
    RerenderAnswer(c, After(c, m, p), p.(routePattern := "/404"), false);
    MergedRefusal(c, p.page);
    RenderedTwice(c, m, p);
  }

  /** The first pass on a hidden path: the bodiless 404, by way of app.ts for a viewer with a session. */
  lemma RefusedAnswer(c: Config, m: Memory, p: Pass, hasSession: bool)
    requires IsHidden(c, m, p, hasSession) && (hasSession ==> p.app.CallsNext?)
    ensures OutcomeOf(c, m, p).response == With(With(REFUSAL, SecurityHeaders(c.production)), NOT_FOUND_HEADERS)
    ensures OutcomeOf(c, m, p).ranApp == hasSession && Through(c, p, hasSession, REFUSAL).next
  {
    HiddenIsNobodys(c, m, p, hasSession);
    hide Gates, SecurityHeaders, WithOwnerHeaders;
  }

  lemma RerenderAnswer(c: Config, m: Memory, p: Pass, hasSession: bool)
    requires !Blocked(p) && Is404Page(p.page) && (hasSession ==> p.app.CallsNext?)
    requires Deciding(Gates(c, m, p).0, Gates(c, m, p).1) == NotFoundPage(hasSession)
    requires Gates(c, m, p).0 != Owner && Gates(c, m, p).1 != Owner
    ensures OutcomeOf(c, m, p).response ==
      With(WithoutMarker(With(p.page, SecurityHeaders(c.production))), NOT_FOUND_HEADERS)
    ensures OutcomeOf(c, m, p).ranApp == hasSession
  {
    hide Gates, SecurityHeaders, WithOwnerHeaders;
  }

  lemma RenderedTwice(c: Config, m: Memory, p: Pass)
    requires AsksForThe404Page(OutcomeOf(c, m, p).response)
    ensures Rendered(c, m, p) ==
      Merged(OutcomeOf(c, After(c, m, p), p.(routePattern := "/404")).response, OutcomeOf(c, m, p).response)
  {
  }

  /** What an unknown path shows a viewer, as the application answers. */
  lemma UnknownShows(c: Config, m: Memory, p: Pass)
    requires OnUnknownPath(c, m, p) && Is404Page(p.page) && p.app.CallsNext?
    ensures Rendered(c, m, p) == Shown404(c, p.page)
  {
    PlainHeaders(c.production);
    var sec := SecurityHeaders(c.production);
    hide Gates, SecurityHeaders;
    assert OutcomeOf(c, m, p).response == With(With(p.page, sec), NOT_FOUND_HEADERS);
    hide OutcomeOf;
  }

  lemma HiddenShows(c: Config, m: Memory, p: Pass)
    requires IsHidden(c, m, p, true) && Is404Page(p.page) && p.app.CallsNext?
    ensures Rendered(c, m, p) == Shown404(c, p.page)
  {
    hide *;
    RefusedAnswer(c, m, p, true);
    RerenderIsNotFoundPage(c, m, p, true);
    RerenderAnswer(c, After(c, m, p), p.(routePattern := "/404"), true);
    MergedRefusal(c, p.page);
    RenderedTwice(c, m, p);
  }

  /** app.ts's own answer, or its failure to load, with the headers of the way out. */
  function OwnAnswer(app: App): Response
    requires !app.CallsNext?
  {
    var r := if app.LoadFails? then app.login else app.r;
    if r.status == 404 then With(r, NOT_FOUND_HEADERS) else r
  }

  lemma HiddenStops(c: Config, m: Memory, p: Pass)
    requires IsHidden(c, m, p, true) && !p.app.CallsNext?
    ensures OutcomeOf(c, m, p).response == OwnAnswer(p.app) && After(c, m, p) == m
  {
    HiddenIsNobodys(c, m, p, true);
    hide Gates, With;
  }

  lemma UnknownStops(c: Config, m: Memory, p: Pass)
    requires OnUnknownPath(c, m, p) && !p.app.CallsNext?
    ensures OutcomeOf(c, m, p).response == OwnAnswer(p.app) && After(c, m, p) == m
  {
    hide Gates, With;
  }

  /** Not remembered, a request is decided by its path and viewer, whatever route is being rendered. */
  lemma RouteAloneDecidesNothing(c: Config, m: Memory, p: Pass)
    requires Unremembered(m, p.request)
    ensures Gates(c, m, p.(routePattern := "/404")) == Gates(c, m, p)
    ensures Blocked(p.(routePattern := "/404")) == Blocked(p)
  {
  }

  /**
   * A hidden path looks like one that does not exist: any viewer with a session, signed in or demo, who is refused
   * on a Vault or PetroTins path is sent exactly what the same viewer is sent on an unknown path, whatever app.ts
   * answers them.
   */
  lemma {:induction false} HiddenLooksUnknown(c: Config, m: Memory, p: Pass, u: Pass)
    requires IsHidden(c, m, p, true) && OnUnknownPath(c, m, u)
    requires p.app == u.app && p.page == u.page && Is404Page(p.page)
    ensures Rendered(c, m, p) == Rendered(c, m, u)
  {
    if p.app.CallsNext? {
      hide *;
      HiddenShows(c, m, p);
      UnknownShows(c, m, u);
    } else {
      hide Gates, OutcomeOf, OwnAnswer, With, AsksForThe404Page, WithoutMarker, Is404Page, After;
      var again, uAgain := p.(routePattern := "/404"), u.(routePattern := "/404");
      RouteAloneDecidesNothing(c, m, p);
      HiddenStops(c, m, p);
      HiddenStops(c, m, again);
      UnknownStops(c, m, u);
      assert u == uAgain;
    }
  }
}
