/**
 * Agent API keys (agentKeys.ts): the life of a key row under concurrent calls, and the cache in front of the table.
 * Tokens are told apart by where they come from: sha256 is taken to be injective, and a minted token to be new.
 */
module AgentKeys {
  import opened Ordering
  import opened Statements

  type Id = nat

  /** A bearer text: one this module minted, or any other, which may still have the form of a key. */
  datatype Token = Minted(n: nat) | Other(text: string, keyShaped: bool)

  /** /^avk_[0-9a-f]{48}$/ */
  predicate KeyShaped(t: Token) { t.Minted? || t.keyShaped }

  datatype Hash = Sha(token: Token)

  datatype Status = Pending | Active | Revoked

  datatype KeyRow = KeyRow(tenant: string, domain: string, challenge: string, keyHash: Option<Hash>, status: Status)

  /** What an authentication answers: the active key's row and domain. */
  datatype Hit = Hit(id: Id, domain: string)

  const TTL_MS := 60_000

  // ── The statements ────────────────────────────────────────────────────────

  predicate Activatable(rows: map<Id, KeyRow>, id: Id, tenant: string) {
    id in rows && rows[id].tenant == tenant && rows[id].status == Pending
  }

  function ActivatedRows(rows: map<Id, KeyRow>, id: Id, tenant: string, token: Token): map<Id, KeyRow> {
    if Activatable(rows, id, tenant) then rows[id := rows[id].(keyHash := Some(Sha(token)), status := Active)] else rows
  }

  predicate Revocable(rows: map<Id, KeyRow>, id: Id, tenant: string) {
    id in rows && rows[id].tenant == tenant && rows[id].status != Revoked
  }

  function RevokedRows(rows: map<Id, KeyRow>, id: Id, tenant: string): map<Id, KeyRow> {
    if Revocable(rows, id, tenant) then rows[id := rows[id].(status := Revoked)] else rows
  }

  function OfTenant(rows: map<Id, KeyRow>, tenant: string): set<Id> {
    set id | id in rows && rows[id].tenant == tenant
  }

  predicate HasPending(rows: map<Id, KeyRow>, tenant: string, domain: string) {
    exists id :: id in rows && rows[id].tenant == tenant && rows[id].domain == domain && rows[id].status == Pending
  }

  /** The row `id` answers for `token`: WHERE key_hash = ? AND status = 'active'. */
  predicate Authenticates(rows: map<Id, KeyRow>, id: Id, token: Token) {
    id in rows && rows[id].status == Active && rows[id].keyHash == Some(Sha(token))
  }

  /** The table's own answer for a token. */
  ghost function TableAnswer(rows: map<Id, KeyRow>, token: Token): (hit: Option<Hit>)
    ensures hit.Some? ==> Authenticates(rows, hit.value.id, token) && hit.value.domain == rows[hit.value.id].domain
    ensures hit.None? ==> forall id :: !Authenticates(rows, id, token)
  {
    if exists id :: Authenticates(rows, id, token) then
      var id :| Authenticates(rows, id, token);
      Some(Hit(id, rows[id].domain))
    else None
  }

  // ── The machine ───────────────────────────────────────────────────────────

  /** How far an activateAgentKey call has come; an issued token is returned once the row is read back. */
  datatype Progress = Checking | Proven | Refused | Issued(token: Token) | Lost(token: Token) | Returned(token: Token)

  /** One activateAgentKey call, from the row it read on. */
  datatype Activation = Activation(id: Id, tenant: string, domain: string, challenge: string, progress: Progress)

  /** The token a call has minted. */
  function TokenOf(c: Activation): Option<Token> {
    match c.progress
    case Issued(t) => Some(t)
    case Lost(t) => Some(t)
    case Returned(t) => Some(t)
    case _ => None
  }

  /** One startAgentKey call that saw no pending row. */
  datatype Start = Start(tenant: string, domain: string, inserted: bool)

  /** A write of key_hash: which row, with the domain and challenge the DNS match was for. */
  datatype Write = Write(id: Id, token: Token, provenDomain: string, provenChallenge: string)

  /** A cached answer; when its lookup began and read the table is kept to state its age. */
  datatype Entry = Entry(hit: Option<Hit>, expiresAt: int, startedAt: int, readAt: int)

  datatype Lookup = Lookup(token: Token, startedAt: int, read: Option<(Option<Hit>, int)>, stored: bool)

  datatype Answer = Answer(token: Token, hit: Option<Hit>, at: int, lookupMs: int)

  datatype State = State(
    now: int, rows: map<Id, KeyRow>, nextId: Id, minted: nat,
    starts: seq<Start>, activations: seq<Activation>, writes: seq<Write>,
    cache: map<Token, Entry>, lookups: seq<Lookup>, answers: seq<Answer>)

  datatype Action =
    | Tick(ms: nat)
    | StartLook(tenant: string, domain: string)
    | StartInsert(k: nat, challenge: string)
    | ActivateLook(id: Id, tenant: string)
    | ActivateDns(k: nat, ok: bool)
    | ActivateMint(k: nat, reply: Reply)
    | ActivateReturn(k: nat)
    | Revoke(id: Id, tenant: string)
    | DeleteTenant(tenant: string)
    | AuthBegin(token: Token)
    | AuthRead(k: nat)
    | AuthStore(k: nat)
    | Forget(ids: set<Id>)

  function Init(now: int): State { State(now, map[], 0, 0, [], [], [], map[], [], []) }

  predicate Fresh(cache: map<Token, Entry>, token: Token, now: int) { token in cache && now < cache[token].expiresAt }

  function Forgotten(cache: map<Token, Entry>, ids: set<Id>): map<Token, Entry> {
    map t | t in cache && !(cache[t].hit.Some? && cache[t].hit.value.id in ids) :: cache[t]
  }

  function WithProgress(s: State, k: nat, p: Progress): State
    requires k < |s.activations|
  {
    s.(activations := s.activations[k := s.activations[k].(progress := p)])
  }

  function KeyStep(s: State, a: Action): State {
    match a
    case StartLook(tenant, domain) =>
      if HasPending(s.rows, tenant, domain) then s else s.(starts := s.starts + [Start(tenant, domain, false)])
    case StartInsert(k, challenge) =>
      if k < |s.starts| && !s.starts[k].inserted then
        s.(starts := s.starts[k := s.starts[k].(inserted := true)], nextId := s.nextId + 1,
           rows := s.rows[s.nextId := KeyRow(s.starts[k].tenant, s.starts[k].domain, challenge, None, Pending)])
      else s
    case ActivateLook(id, tenant) =>
      if Activatable(s.rows, id, tenant) then
        s.(activations := s.activations + [
          Activation(id, tenant, s.rows[id].domain, s.rows[id].challenge, Checking)])
      else s
    case ActivateDns(k, ok) =>
      if k < |s.activations| && s.activations[k].progress == Checking then
        WithProgress(s, k, if ok then Proven else Refused)
      else s
    case ActivateMint(k, reply) =>
      if k < |s.activations| && s.activations[k].progress == Proven then
        var c, t := s.activations[k], Minted(s.minted);
        var after := WithProgress(s, k, if reply == Done then Issued(t) else Lost(t)).(minted := s.minted + 1);
        if Applied(reply) && Activatable(s.rows, c.id, c.tenant) then
          after.(rows := ActivatedRows(s.rows, c.id, c.tenant, t),
            writes := s.writes + [Write(c.id, t, c.domain, c.challenge)])
        else after
      else s
    case ActivateReturn(k) =>
      if k < |s.activations| && s.activations[k].progress.Issued? && s.activations[k].id in s.rows then
        WithProgress(s, k, Returned(s.activations[k].progress.token))
      else s
    case Revoke(id, tenant) => s.(rows := RevokedRows(s.rows, id, tenant))
    case DeleteTenant(tenant) => s.(rows := s.rows - OfTenant(s.rows, tenant))
    case _ => s
  }

  ghost function AuthStep(s: State, a: Action): State {
    match a
    case AuthBegin(token) =>
      if !KeyShaped(token) then s.(answers := s.answers + [Answer(token, None, s.now, 0)])
      else if Fresh(s.cache, token, s.now) then
        var e := s.cache[token];
        s.(answers := s.answers + [Answer(token, e.hit, s.now, e.expiresAt - TTL_MS - e.startedAt)])
      else s.(lookups := s.lookups + [Lookup(token, s.now, None, false)])
    case AuthRead(k) =>
      if k < |s.lookups| && s.lookups[k].read.None? then
        var l := s.lookups[k];
        s.(lookups := s.lookups[k := l.(read := Some((TableAnswer(s.rows, l.token), s.now)))])
      else s
    case AuthStore(k) =>
      if k < |s.lookups| && s.lookups[k].read.Some? && !s.lookups[k].stored then
        var l := s.lookups[k];
        var (hit, readAt) := l.read.value;
        s.(lookups := s.lookups[k := l.(stored := true)],
           cache := s.cache[l.token := Entry(hit, s.now + TTL_MS, l.startedAt, readAt)],
           answers := s.answers + [Answer(l.token, hit, s.now, s.now - l.startedAt)])
      else s
    case Forget(ids) => s.(cache := Forgotten(s.cache, ids))
    case _ => s
  }

  ghost function Next(s: State, a: Action): State {
    match a
    case Tick(ms) => s.(now := s.now + ms)
    case AuthBegin(_) => AuthStep(s, a)
    case AuthRead(_) => AuthStep(s, a)
    case AuthStore(_) => AuthStep(s, a)
    case Forget(_) => AuthStep(s, a)
    case _ => KeyStep(s, a)
  }

  ghost function Exec(s: State, actions: seq<Action>): State {
    if actions == [] then s else Next(Exec(s, actions[..|actions| - 1]), actions[|actions| - 1])
  }

  /** The state after the first `n` actions. */
  ghost function At(now: int, actions: seq<Action>, n: nat): State
    requires n <= |actions|
  {
    Exec(Init(now), actions[..n])
  }

  // ── What one step can do ──────────────────────────────────────────────────

  /** A call is matched or refused, then mints a token and hears of its UPDATE or not, then reads its row back. */
  predicate ActivationMoves(s: State, c: Activation, d: Activation) {
    d == c ||
    match c.progress
    case Checking => d in {c.(progress := Proven), c.(progress := Refused)}
    case Proven => d in {c.(progress := Issued(Minted(s.minted))), c.(progress := Lost(Minted(s.minted)))}
    case Issued(t) => d == c.(progress := Returned(t)) && c.id in s.rows
    case _ => false
  }

  lemma ActivationMovesOnly(s: State, k: nat, a: Action)
    requires k < |s.activations|
    ensures k < |Next(s, a).activations| && ActivationMoves(s, s.activations[k], Next(s, a).activations[k])
  {
  }

  /** A step can make of an activateAgentKey call exactly these. */
  lemma {:induction false} ActivationMovesExactly(s: State, k: nat, d: Activation)
    requires k < |s.activations|
    ensures (exists a :: k < |Next(s, a).activations| && Next(s, a).activations[k] == d) <==>
      ActivationMoves(s, s.activations[k], d)
  {
    var c := s.activations[k];
    forall a ensures ActivationMoves(s, c, Next(s, a).activations[k]) { ActivationMovesOnly(s, k, a); }
    if ActivationMoves(s, c, d) {
      var a := if d == c then Tick(0)
        else if c.progress == Checking then ActivateDns(k, d.progress == Proven)
        else if c.progress == Proven then ActivateMint(k, if d.progress.Issued? then Done else ThrewLost)
        else ActivateReturn(k);
      assert Next(s, a).activations[k] == d;
    }
  }

  /** The k-th lookup has read the table and answers so once it is stored. */
  predicate LookupAnswers(s: State, k: nat, x: Answer) {
    && k < |s.lookups| && s.lookups[k].read.Some? && !s.lookups[k].stored
    && x == Answer(s.lookups[k].token, s.lookups[k].read.value.0, s.now, s.now - s.lookups[k].startedAt)
  }

  predicate CacheAnswers(s: State, x: Answer) {
    && KeyShaped(x.token) && x.token in s.cache && s.now < s.cache[x.token].expiresAt
    && var e := s.cache[x.token]; x == Answer(x.token, e.hit, s.now, e.expiresAt - 60_000 - e.startedAt)
  }

  /** An authentication can be answered so at this moment: by form, from the cache, or by a lookup that is done. */
  ghost predicate MayAnswer(s: State, x: Answer) {
    || (!KeyShaped(x.token) && x == Answer(x.token, None, s.now, 0))
    || CacheAnswers(s, x)
    || exists k :: LookupAnswers(s, k, x)
  }

  lemma AnswersOnly(s: State, a: Action)
    ensures var t, n := Next(s, a), |s.answers|;
      n <= |t.answers| <= n + 1 && (|t.answers| == n + 1 ==> t.answers[..n] == s.answers && MayAnswer(s, t.answers[n]))
  {
    hide TableAnswer;
    if a.AuthStore? && |Next(s, a).answers| > |s.answers| {
      assert LookupAnswers(s, a.k, Next(s, a).answers[|s.answers|]);
    }
  }

  lemma AnswerNow(s: State, x: Answer) returns (a: Action)
    requires MayAnswer(s, x)
    ensures Next(s, a).answers == s.answers + [x]
  {
    hide TableAnswer;
    if k :| LookupAnswers(s, k, x) {
      a := AuthStore(k);
    } else {
      a := AuthBegin(x.token);
    }
  }

  /** A step can give exactly these answers. */
  lemma {:induction false} AnswersExactly(s: State, x: Answer)
    ensures (exists a :: Next(s, a).answers == s.answers + [x]) <==> MayAnswer(s, x)
  {
    hide MayAnswer, Next;
    forall a | Next(s, a).answers == s.answers + [x] ensures MayAnswer(s, x) {
      AnswersOnly(s, a);
      assert Next(s, a).answers[|s.answers|] == x;
    }
    if MayAnswer(s, x) {
      var a := AnswerNow(s, x);
    }
  }

  // ── The life of a row ─────────────────────────────────────────────────────

  predicate RowSound(s: State, id: Id)
    requires id in s.rows
  {
    var r := s.rows[id];
    && id < s.nextId
    && (r.status == Pending ==> r.keyHash.None?)
    && (r.status == Active ==> r.keyHash.Some?)
    && (r.keyHash.None? ==> forall w | w in s.writes :: w.id != id)
    && (r.keyHash.Some? ==> exists w :: w in s.writes && w.id == id && r.keyHash == Some(Sha(w.token)))
  }

  /** A call is of its row's tenant, holds its row's domain and challenge, and a token only after its DNS match. */
  predicate ActivationSound(s: State, c: Activation) {
    && c.id < s.nextId
    && (c.id in s.rows ==> s.rows[c.id].tenant == c.tenant)
    && (c.id in s.rows ==> s.rows[c.id].domain == c.domain && s.rows[c.id].challenge == c.challenge)
    && (TokenOf(c).Some? ==> TokenOf(c).value.Minted? && TokenOf(c).value.n < s.minted)
  }

  /** A write came from a call on that row, with the row's own challenge proven. */
  predicate WriteSound(s: State, w: Write) {
    && w.id < s.nextId
    && (w.id in s.rows ==> s.rows[w.id].domain == w.provenDomain && s.rows[w.id].challenge == w.provenChallenge)
    && exists c :: c in s.activations && c.id == w.id && TokenOf(c) == Some(w.token)
        && c.domain == w.provenDomain && c.challenge == w.provenChallenge
  }

  ghost predicate KeyInv(s: State) {
    && (forall id | id in s.rows :: RowSound(s, id))
    && (forall c | c in s.activations :: ActivationSound(s, c))
    && (forall w | w in s.writes :: WriteSound(s, w))
    && (forall i, j | 0 <= i < j < |s.activations| && TokenOf(s.activations[i]).Some? ::
          TokenOf(s.activations[i]) != TokenOf(s.activations[j]))
    && (forall i, j | 0 <= i < j < |s.writes| :: s.writes[i].id != s.writes[j].id)
  }

  lemma InsertKeepsKeyInv(s: State, k: nat, challenge: string)
    requires KeyInv(s)
    ensures KeyInv(KeyStep(s, StartInsert(k, challenge)))
  {
  }

  /** A step of one call that leaves rows and writes alone and gives it no new token. */
  lemma ProgressKeepsKeyInv(s: State, k: nat, p: Progress)
    requires KeyInv(s) && k < |s.activations|
    requires TokenOf(s.activations[k].(progress := p)) == TokenOf(s.activations[k])
    ensures KeyInv(WithProgress(s, k, p))
  {
    var t := WithProgress(s, k, p);
    forall c | c in t.activations ensures ActivationSound(t, c) {
      assert ActivationSound(s, s.activations[k]);
      if c in s.activations { assert ActivationSound(s, c); }
    }
    forall w | w in t.writes ensures WriteSound(t, w) {
      assert WriteSound(s, w);
      var c :| c in s.activations && c.id == w.id && TokenOf(c) == Some(w.token)
        && c.domain == w.provenDomain && c.challenge == w.provenChallenge;
      if c == s.activations[k] { assert t.activations[k] in t.activations; } else {
        var i :| 0 <= i < |s.activations| && s.activations[i] == c;
        assert t.activations[i] == c;
      }
    }
    forall id | id in t.rows ensures RowSound(t, id) { assert RowSound(s, id); }
  }

  lemma MintKeepsActivations(s: State, k: nat, reply: Reply)
    requires KeyInv(s) && k < |s.activations| && s.activations[k].progress == Proven
    ensures var t := KeyStep(s, ActivateMint(k, reply));
      && (forall c | c in t.activations :: ActivationSound(t, c))
      && (forall i, j | 0 <= i < j < |t.activations| && TokenOf(t.activations[i]).Some? ::
            TokenOf(t.activations[i]) != TokenOf(t.activations[j]))
      && TokenOf(t.activations[k]) == Some(Minted(s.minted))
  {
    var t := KeyStep(s, ActivateMint(k, reply));
    forall d | d in t.activations ensures ActivationSound(t, d) {
      assert ActivationSound(s, s.activations[k]);
      if d in s.activations { assert ActivationSound(s, d); }
    }
    forall i, j | 0 <= i < j < |t.activations| && TokenOf(t.activations[i]).Some?
      ensures TokenOf(t.activations[i]) != TokenOf(t.activations[j])
    {
      assert ActivationSound(s, s.activations[i]) && ActivationSound(s, s.activations[j]);
    }
  }

  /** A write already made stays sound, and so does the one this step makes. */
  lemma MintKeepsWrite(s: State, k: nat, reply: Reply, w: Write)
    requires KeyInv(s) && k < |s.activations| && s.activations[k].progress == Proven
    requires w in KeyStep(s, ActivateMint(k, reply)).writes
    ensures WriteSound(KeyStep(s, ActivateMint(k, reply)), w)
  {
    var t := KeyStep(s, ActivateMint(k, reply));
    assert ActivationSound(s, s.activations[k]);
    if w in s.writes {
      assert WriteSound(s, w);
      var d :| d in s.activations && d.id == w.id && TokenOf(d) == Some(w.token)
        && d.domain == w.provenDomain && d.challenge == w.provenChallenge;
      var i :| 0 <= i < |s.activations| && s.activations[i] == d;
      assert t.activations[i] == d;
    } else {
      assert t.activations[k] in t.activations;
    }
  }

  lemma MintKeepsRow(s: State, k: nat, reply: Reply, id: Id)
    requires KeyInv(s) && k < |s.activations| && s.activations[k].progress == Proven
    requires id in KeyStep(s, ActivateMint(k, reply)).rows
    ensures RowSound(KeyStep(s, ActivateMint(k, reply)), id)
  {
  }

  lemma MintKeepsKeyInv(s: State, k: nat, reply: Reply)
    requires KeyInv(s) && k < |s.activations| && s.activations[k].progress == Proven
    ensures KeyInv(KeyStep(s, ActivateMint(k, reply)))
  {
    var t := KeyStep(s, ActivateMint(k, reply));
    forall i, j | 0 <= i < j < |t.writes| ensures t.writes[i].id != t.writes[j].id {
      assert s.writes[i] in s.writes;
      if j == |s.writes| { assert RowSound(s, s.activations[k].id); }
    }
    hide KeyStep, RowSound, WriteSound, ActivationSound;
    MintKeepsActivations(s, k, reply);
    forall w | w in t.writes ensures WriteSound(t, w) { MintKeepsWrite(s, k, reply, w); }
    forall id | id in t.rows ensures RowSound(t, id) { MintKeepsRow(s, k, reply, id); }
  }

  /** A step that at most reads a row for a new call, or revokes or deletes rows. */
  ghost predicate MildStep(s: State, t: State) {
    && t.nextId == s.nextId && t.minted == s.minted && t.writes == s.writes
    && (t.activations == s.activations || exists c ::
         && t.activations == s.activations + [c]
         && c.progress == Checking && c.id in s.rows
         && s.rows[c.id].tenant == c.tenant
         && s.rows[c.id].domain == c.domain && s.rows[c.id].challenge == c.challenge)
    && forall id | id in t.rows ::
         && id in s.rows
         && (t.rows[id] == s.rows[id] || t.rows[id] == s.rows[id].(status := Revoked))
  }

  lemma OtherStepsAreMild(s: State, a: Action)
    requires !a.StartInsert? && !a.ActivateMint? && !a.ActivateDns? && !a.ActivateReturn?
    ensures MildStep(s, Next(s, a))
  {
    if a.ActivateLook? && Activatable(s.rows, a.id, a.tenant) {
      assert Next(s, a).activations == s.activations + [Next(s, a).activations[|s.activations|]];
    }
  }

  lemma MildStepKeepsActivation(s: State, t: State, c: Activation)
    requires KeyInv(s) && MildStep(s, t) && c in t.activations
    ensures ActivationSound(t, c)
  {
    if c in s.activations { assert ActivationSound(s, c); } else { assert RowSound(s, c.id); }
  }

  lemma MildStepKeepsKeyInv(s: State, t: State)
    requires KeyInv(s) && MildStep(s, t)
    ensures KeyInv(t)
  {
    forall id | id in t.rows ensures RowSound(t, id) { assert RowSound(s, id); }
    forall w | w in t.writes ensures WriteSound(t, w) { assert WriteSound(s, w); }
    hide ActivationSound, RowSound, WriteSound;
    forall c | c in t.activations ensures ActivationSound(t, c) { MildStepKeepsActivation(s, t, c); }
  }

  lemma NextKeepsKeyInv(s: State, a: Action)
    requires KeyInv(s)
    ensures KeyInv(Next(s, a))
  {
    hide KeyInv, AuthStep, RowSound, WriteSound, ActivationSound;
    if a.StartInsert? {
      InsertKeepsKeyInv(s, a.k, a.challenge);
    } else if a.ActivateMint? {
      if Next(s, a) != s { MintKeepsKeyInv(s, a.k, a.reply); }
    } else if a.ActivateDns? {
      if Next(s, a) != s { ProgressKeepsKeyInv(s, a.k, if a.ok then Proven else Refused); }
    } else if a.ActivateReturn? {
      if Next(s, a) != s { ProgressKeepsKeyInv(s, a.k, Returned(s.activations[a.k].progress.token)); }
    } else {
      hide *;
      OtherStepsAreMild(s, a);
      MildStepKeepsKeyInv(s, Next(s, a));
    }
  }

  lemma {:induction false} RunsKeepKeyInv(now: int, actions: seq<Action>)
    ensures KeyInv(Exec(Init(now), actions))
  {
    if actions != [] {
      RunsKeepKeyInv(now, actions[..|actions| - 1]);
      NextKeepsKeyInv(Exec(Init(now), actions[..|actions| - 1]), actions[|actions| - 1]);
    }
  }

  /**
   * In every run, however many calls race, key_hash is written at most once on a row; each write followed a DNS
   * match by a call of the row's own tenant on that row, against the row's own domain and challenge; and a row that
   * has a hash has the one written.
   */
  lemma {:induction false} KeyHashIsWrittenOnce(now: int, actions: seq<Action>, i: nat, j: nat)
    requires var w := Exec(Init(now), actions).writes; i < |w| && j < |w| && w[i].id == w[j].id
    ensures i == j
    ensures var s := Exec(Init(now), actions); var w := s.writes[i];
      w.id in s.rows ==>
        && s.rows[w.id].domain == w.provenDomain && s.rows[w.id].challenge == w.provenChallenge
        && s.rows[w.id].keyHash == Some(Sha(w.token)) && s.rows[w.id].status != Pending
        && exists c | c in s.activations ::
          c.id == w.id && c.tenant == s.rows[w.id].tenant && TokenOf(c) == Some(w.token)
  {
    RunsKeepKeyInv(now, actions);
    var s := Exec(Init(now), actions);
    var w := s.writes[i];
    assert WriteSound(s, w);
    var c :| c in s.activations && c.id == w.id && TokenOf(c) == Some(w.token)
      && c.domain == w.provenDomain && c.challenge == w.provenChallenge;
    assert ActivationSound(s, c);
    if w.id in s.rows { assert RowSound(s, w.id); }
  }

  /** One step of a row: it goes pending, active, revoked, or is deleted for good; revoked and deleted are final. */
  predicate RowOnlyForward(s: State, t: State, id: Id) {
    && s.nextId <= t.nextId && s.now <= t.now && (id in s.rows ==> id < s.nextId)
    && (id < s.nextId && id !in s.rows ==> id !in t.rows)
    && (id in s.rows && id in t.rows ==>
      && t.rows[id].tenant == s.rows[id].tenant && t.rows[id].domain == s.rows[id].domain
      && t.rows[id].challenge == s.rows[id].challenge
      && (s.rows[id].status == Revoked ==> t.rows[id] == s.rows[id])
      && (s.rows[id].status == Active ==> t.rows[id].keyHash == s.rows[id].keyHash && t.rows[id].status != Pending)
      && (t.rows[id].keyHash != s.rows[id].keyHash ==> s.rows[id].status == Pending && t.rows[id].status != Pending))
  }

  lemma MildStepRowOnlyForward(s: State, t: State, id: Id)
    requires MildStep(s, t) && s.now <= t.now && (id in s.rows ==> RowSound(s, id))
    ensures RowOnlyForward(s, t, id)
  {
  }

  lemma StepRowOnlyForward(s: State, a: Action, id: Id)
    requires KeyInv(s)
    ensures RowOnlyForward(s, Next(s, a), id)
  {
    assert id in s.rows ==> RowSound(s, id);
    hide KeyInv;
    if a.StartInsert? || a.ActivateMint? || a.ActivateDns? || a.ActivateReturn? {
      hide AuthStep;
    } else {
      assert s.now <= Next(s, a).now by { hide RowSound, TableAnswer; }
      hide *;
      OtherStepsAreMild(s, a);
      MildStepRowOnlyForward(s, Next(s, a), id);
    }
  }

  /** One more action of a run is one more step. */
  lemma AtNext(now: int, actions: seq<Action>, n: nat)
    requires n < |actions|
    ensures At(now, actions, n + 1) == Next(At(now, actions, n), actions[n])
  {
    hide Next;
    assert actions[..n + 1][..n] == actions[..n];
  }

  lemma RowOnlyForwardChains(s: State, t: State, u: State, id: Id)
    requires RowOnlyForward(s, t, id) && RowOnlyForward(t, u, id)
    ensures RowOnlyForward(s, u, id)
  {
  }

  lemma RowForwardOfItself(s: State, id: Id)
    requires KeyInv(s)
    ensures RowOnlyForward(s, s, id)
  {
  }

  lemma {:induction false} RowsOnlyForward(now: int, actions: seq<Action>, m: nat, n: nat, id: Id)
    requires m <= n <= |actions|
    ensures RowOnlyForward(At(now, actions, m), At(now, actions, n), id)
  {
    if m == n {
      RunsKeepKeyInv(now, actions[..m]);
      RowForwardOfItself(At(now, actions, m), id);
    } else {
      RunsKeepKeyInv(now, actions[..n - 1]);
      assert KeyInv(At(now, actions, n - 1));
      hide *;
      RowsOnlyForward(now, actions, m, n - 1, id);
      AtNext(now, actions, n - 1);
      StepRowOnlyForward(At(now, actions, n - 1), actions[n - 1], id);
      RowOnlyForwardChains(At(now, actions, m), At(now, actions, n - 1), At(now, actions, n), id);
    }
  }

  /** No row but its own ever answers for a call's token, and only through the write that call made. */
  lemma {:induction false} AuthenticatesByWrite(s: State, c: Activation, id: Id, token: Token)
    requires KeyInv(s) && c in s.activations && TokenOf(c) == Some(token) && Authenticates(s.rows, id, token)
    ensures id == c.id && exists w :: w in s.writes && w.id == c.id && w.token == token
  {
  }

  /** Calls stay in their place, keep their row and keep a token once they have one; writes only add up. */
  ghost predicate CallsOnlyGrow(s: State, t: State) {
    && s.writes <= t.writes && |s.activations| <= |t.activations|
    && forall k | 0 <= k < |s.activations| ::
        && t.activations[k].id == s.activations[k].id
        && (TokenOf(s.activations[k]).Some? ==> TokenOf(t.activations[k]) == TokenOf(s.activations[k]))
  }

  lemma StepCallsOnlyGrow(s: State, a: Action)
    ensures CallsOnlyGrow(s, Next(s, a))
  {
  }

  lemma {:induction false} RunCallsOnlyGrow(now: int, actions: seq<Action>, m: nat, n: nat)
    requires m <= n <= |actions|
    ensures CallsOnlyGrow(At(now, actions, m), At(now, actions, n))
    decreases n
  {
    if m < n {
      hide Next;
      RunCallsOnlyGrow(now, actions, m, n - 1);
      assert actions[..n][..n - 1] == actions[..n - 1];
      StepCallsOnlyGrow(At(now, actions, n - 1), actions[n - 1]);
    }
  }

  /**
   * Of all the plaintext keys ever returned for one row, at most one authenticates at any time in the run: however
   * many activateAgentKey calls race on the row and answer ok, the others' keys are dead.
   */
  lemma {:induction false} OneKeyPerRow(
      now: int, actions: seq<Action>, j: nat, k: nat, m: nat, n: nat, idJ: Id, idK: Id)
    requires m <= |actions| && n <= |actions|
    requires j < |At(now, actions, m).activations| && TokenOf(At(now, actions, m).activations[j]).Some?
    requires k < |At(now, actions, n).activations| && TokenOf(At(now, actions, n).activations[k]).Some?
    requires Authenticates(At(now, actions, m).rows, idJ, TokenOf(At(now, actions, m).activations[j]).value)
    requires Authenticates(At(now, actions, n).rows, idK, TokenOf(At(now, actions, n).activations[k]).value)
    requires At(now, actions, m).activations[j].id == At(now, actions, n).activations[k].id
    ensures idJ == idK == At(now, actions, m).activations[j].id
    ensures TokenOf(At(now, actions, m).activations[j]) == TokenOf(At(now, actions, n).activations[k])
  {
    hide Exec, Next, RowSound, WriteSound, ActivationSound;
    var s, t, end := At(now, actions, m), At(now, actions, n), At(now, actions, |actions|);
    RunsKeepKeyInv(now, actions[..m]);
    RunsKeepKeyInv(now, actions[..n]);
    RunsKeepKeyInv(now, actions[..|actions|]);
    AuthenticatesByWrite(s, s.activations[j], idJ, TokenOf(s.activations[j]).value);
    AuthenticatesByWrite(t, t.activations[k], idK, TokenOf(t.activations[k]).value);
    RunCallsOnlyGrow(now, actions, m, |actions|);
    RunCallsOnlyGrow(now, actions, n, |actions|);
    var v :| v in s.writes && v.id == s.activations[j].id && v.token == TokenOf(s.activations[j]).value;
    var w :| w in t.writes && w.id == t.activations[k].id && w.token == TokenOf(t.activations[k]).value;
    assert v in end.writes && w in end.writes;
  }

  /** Writes made after the state `s` carry tokens minted after it. */
  ghost predicate LaterWritesAreNewer(s: State, t: State) {
    s.minted <= t.minted && forall w | w in t.writes && w !in s.writes :: w.token.Minted? && s.minted <= w.token.n
  }

  lemma StepWritesAreNewer(s: State, a: Action)
    ensures LaterWritesAreNewer(s, Next(s, a))
  {
    hide TableAnswer;
  }

  lemma {:induction false} RunWritesAreNewer(now: int, actions: seq<Action>, m: nat, n: nat)
    requires m <= n <= |actions|
    ensures LaterWritesAreNewer(At(now, actions, m), At(now, actions, n))
    decreases n
  {
    hide Next, Exec;
    if m < n {
      RunWritesAreNewer(now, actions, m, n - 1);
      AtNext(now, actions, n - 1);
      StepWritesAreNewer(At(now, actions, n - 1), actions[n - 1]);
    }
  }

  /** A token that is not minted yet is on no write. */
  lemma WritesAreMinted(s: State, w: Write)
    requires KeyInv(s) && w in s.writes
    ensures w.token.Minted? && w.token.n < s.minted
  {
    assert WriteSound(s, w);
    var c :| c in s.activations && c.id == w.id && TokenOf(c) == Some(w.token)
      && c.domain == w.provenDomain && c.challenge == w.provenChallenge;
    assert ActivationSound(s, c);
  }

  /** The key a call mints is on its row at once exactly when its UPDATE was applied to the row still pending. */
  lemma {:induction false} MintedKeyLivesExactly(s: State, k: nat, reply: Reply)
    requires KeyInv(s) && k < |s.activations| && s.activations[k].progress == Proven
    ensures var c := s.activations[k];
      (exists id :: Authenticates(KeyStep(s, ActivateMint(k, reply)).rows, id, Minted(s.minted))) <==>
        && reply != ThrewLost
        && c.id in s.rows && s.rows[c.id].tenant == c.tenant && s.rows[c.id].status == Pending
  {
    var c, t := s.activations[k], KeyStep(s, ActivateMint(k, reply));
    if Applied(reply) && Activatable(s.rows, c.id, c.tenant) {
      assert Authenticates(t.rows, c.id, Minted(s.minted));
    } else {
      assert t.rows == s.rows;
      forall id ensures !Authenticates(t.rows, id, Minted(s.minted)) {
        if Authenticates(s.rows, id, Minted(s.minted)) { AuthenticatedIsMinted(s, id, Minted(s.minted)); }
      }
    }
  }

  lemma AuthenticatedIsMinted(s: State, id: Id, token: Token)
    requires KeyInv(s) && Authenticates(s.rows, id, token)
    ensures token.Minted? && token.n < s.minted
  {
    assert RowSound(s, id);
    var w :| w in s.writes && w.id == id && s.rows[id].keyHash == Some(Sha(w.token));
    WritesAreMinted(s, w);
  }

  /** What the minting step of a call makes of its row, its token and the list of writes. */
  lemma MintIsAStep(s: State, k: nat, reply: Reply)
    requires k < |s.activations| && s.activations[k].progress == Proven
    ensures var c, t := s.activations[k], Next(s, ActivateMint(k, reply));
      && t.minted == s.minted + 1 && t.nextId == s.nextId
      && k < |t.activations| && t.activations[k].id == c.id && TokenOf(t.activations[k]) == Some(Minted(s.minted))
      && if Applied(reply) && Activatable(s.rows, c.id, c.tenant) then
        c.id in t.rows && t.rows[c.id].status == Active && t.rows[c.id].keyHash == Some(Sha(Minted(s.minted)))
      else t.writes == s.writes
  {
  }

  /**
   * Which of the keys that racing calls return are alive: in any run, the key a call minted at step `m` authenticates
   * at a later state `n` exactly when its UPDATE was applied while the row was still pending, and the row has been
   * neither revoked nor deleted since.
   */
  lemma {:induction false} ReturnedKeyLivesExactly(
      now: int, actions: seq<Action>, m: nat, n: nat, k: nat, reply: Reply)
    requires m < n <= |actions| && actions[m] == ActivateMint(k, reply)
    requires k < |At(now, actions, m).activations| && At(now, actions, m).activations[k].progress == Proven
    ensures var s, u := At(now, actions, m), At(now, actions, n); var c := s.activations[k];
      (exists id :: Authenticates(u.rows, id, Minted(s.minted))) <==>
        && reply != ThrewLost
        && c.id in s.rows && s.rows[c.id].tenant == c.tenant && s.rows[c.id].status == Pending
        && c.id in u.rows && u.rows[c.id].status != Revoked
  {
    var s, t, u := At(now, actions, m), At(now, actions, m + 1), At(now, actions, n);
    var c, token := s.activations[k], Minted(s.minted);
    RunsKeepKeyInv(now, actions[..m]);
    RunsKeepKeyInv(now, actions[..n]);
    assert KeyInv(s) && KeyInv(u);
    hide Exec, At, KeyInv;
    AtNext(now, actions, m);
    MintIsAStep(s, k, reply);
    hide Next;
    RunCallsOnlyGrow(now, actions, m + 1, n);
    RowsOnlyForward(now, actions, m + 1, n, c.id);
    assert u.activations[k] in u.activations && TokenOf(u.activations[k]) == Some(token) && u.activations[k].id == c.id;
    forall id | Authenticates(u.rows, id, token)
      ensures id == c.id && exists w :: w in u.writes && w.id == c.id && w.token == token
    {
      AuthenticatesByWrite(u, u.activations[k], id, token);
    }
    if Applied(reply) && Activatable(s.rows, c.id, c.tenant) {
      if c.id in u.rows && u.rows[c.id].status != Revoked { assert Authenticates(u.rows, c.id, token); }
    } else {
      RunWritesAreNewer(now, actions, m + 1, n);
      forall w | w in u.writes ensures w.token != token {
        if w in s.writes { WritesAreMinted(s, w); }
      }
    }
  }

  // ── The cache ─────────────────────────────────────────────────────────────

  /** Some moment of the run, not after its end, at which the clock showed `at` and the table answered `hit`. */
  ghost predicate AnsweredAt(now: int, actions: seq<Action>, token: Token, hit: Option<Hit>, at: int) {
    exists m | 0 <= m <= |actions| ::
      At(now, actions, m).now == at && TableAnswer(At(now, actions, m).rows, token) == hit
  }

  lemma AnsweredStays(now: int, actions: seq<Action>, a: Action, token: Token, hit: Option<Hit>, at: int)
    requires AnsweredAt(now, actions, token, hit, at)
    ensures AnsweredAt(now, actions + [a], token, hit, at)
  {
    var m :| 0 <= m <= |actions| && At(now, actions, m).now == at
      && TableAnswer(At(now, actions, m).rows, token) == hit;
    assert (actions + [a])[..m] == actions[..m];
    assert At(now, actions + [a], m) == At(now, actions, m);
  }

  ghost predicate EntrySound(now: int, actions: seq<Action>, token: Token, e: Entry) {
    && AnsweredAt(now, actions, token, e.hit, e.readAt)
    && e.startedAt <= e.readAt <= e.expiresAt - TTL_MS
    && e.expiresAt - TTL_MS <= Exec(Init(now), actions).now
  }

  ghost predicate LookupSound(now: int, actions: seq<Action>, l: Lookup) {
    && l.startedAt <= Exec(Init(now), actions).now
    && (l.read.Some? ==>
      && AnsweredAt(now, actions, l.token, l.read.value.0, l.read.value.1)
      && l.startedAt <= l.read.value.1 <= Exec(Init(now), actions).now)
  }

  /** The answer was the table's at a moment less than the cache time and one lookup's duration before it. */
  ghost predicate AnswerSound(now: int, actions: seq<Action>, x: Answer) {
    && x.at <= Exec(Init(now), actions).now && x.lookupMs >= 0
    && exists at :: x.at - at < TTL_MS + x.lookupMs && at <= x.at && AnsweredAt(now, actions, x.token, x.hit, at)
  }

  ghost predicate CacheInv(now: int, actions: seq<Action>) {
    var s := Exec(Init(now), actions);
    && (forall t | t in s.cache :: EntrySound(now, actions, t, s.cache[t]))
    && (forall l | l in s.lookups :: LookupSound(now, actions, l))
    && (forall x | x in s.answers :: AnswerSound(now, actions, x))
  }

  /** A text without the form of a key is no minted token, so the table has no answer for it either. */
  lemma {:induction false} OtherTextsNeverMatch(s: State, token: Token)
    requires KeyInv(s)
    ensures token.Other? ==> TableAnswer(s.rows, token).None?
  {
  }

  lemma OldFactsStay(now: int, actions: seq<Action>, a: Action, s: State)
    requires CacheInv(now, actions) && s == Exec(Init(now), actions)
    ensures
      && (forall t | t in s.cache :: EntrySound(now, actions + [a], t, s.cache[t]))
      && (forall l | l in s.lookups :: LookupSound(now, actions + [a], l))
      && (forall x | x in s.answers :: AnswerSound(now, actions + [a], x))
  {
    var t := Exec(Init(now), actions + [a]);
    assert (actions + [a])[..|actions|] == actions;
    assert s.now <= t.now;
    forall k | k in s.cache ensures EntrySound(now, actions + [a], k, s.cache[k]) {
      AnsweredStays(now, actions, a, k, s.cache[k].hit, s.cache[k].readAt);
    }
    forall l | l in s.lookups ensures LookupSound(now, actions + [a], l) {
      assert LookupSound(now, actions, l);
      if l.read.Some? { AnsweredStays(now, actions, a, l.token, l.read.value.0, l.read.value.1); }
    }
    forall x | x in s.answers ensures AnswerSound(now, actions + [a], x) {
      assert AnswerSound(now, actions, x);
      var at :| x.at - at < TTL_MS + x.lookupMs && at <= x.at && AnsweredAt(now, actions, x.token, x.hit, at);
      AnsweredStays(now, actions, a, x.token, x.hit, at);
    }
  }

  lemma AnsweredNow(now: int, actions: seq<Action>, token: Token)
    ensures var s := Exec(Init(now), actions); AnsweredAt(now, actions, token, TableAnswer(s.rows, token), s.now)
  {
    assert actions[..|actions|] == actions;
    assert At(now, actions, |actions|) == Exec(Init(now), actions);
  }

  lemma NewAnswerIsSound(now: int, actions: seq<Action>, a: Action)
    requires CacheInv(now, actions) && KeyInv(Exec(Init(now), actions)) && a.AuthBegin?
    ensures var s, t := Exec(Init(now), actions), Exec(Init(now), actions + [a]);
      forall x | x in t.answers && x !in s.answers :: AnswerSound(now, actions + [a], x)
  {
    hide AnsweredAt, TableAnswer;
    var s, t := Exec(Init(now), actions), Exec(Init(now), actions + [a]);
    assert (actions + [a])[..|actions|] == actions;
    OldFactsStay(now, actions, a, Exec(Init(now), actions));
    if !KeyShaped(a.token) {
      OtherTextsNeverMatch(s, a.token);
      AnsweredNow(now, actions + [a], a.token);
    } else if Fresh(s.cache, a.token, s.now) {
      assert EntrySound(now, actions + [a], a.token, s.cache[a.token]);
    }
  }

  lemma NewReadIsSound(now: int, actions: seq<Action>, k: nat)
    requires CacheInv(now, actions)
    ensures var t := Exec(Init(now), actions + [AuthRead(k)]);
      k < |t.lookups| ==> LookupSound(now, actions + [AuthRead(k)], t.lookups[k])
  {
    var s, more := Exec(Init(now), actions), actions + [AuthRead(k)];
    assert more[..|actions|] == actions;
    OldFactsStay(now, actions, AuthRead(k), Exec(Init(now), actions));
    if k < |s.lookups| {
      assert s.lookups[k] in s.lookups;
      AnsweredNow(now, more, s.lookups[k].token);
    }
  }

  /** A step that begins, reads or stores no lookup answers nothing, and at most drops cache entries. */
  lemma OtherStepsOnlyDrop(s: State, a: Action)
    requires !a.AuthBegin? && !a.AuthRead? && !a.AuthStore?
    ensures Next(s, a).lookups == s.lookups && Next(s, a).answers == s.answers
    ensures forall t | t in Next(s, a).cache :: t in s.cache && Next(s, a).cache[t] == s.cache[t]
  {
  }

  lemma BeginKeepsCacheInv(now: int, actions: seq<Action>, token: Token)
    requires CacheInv(now, actions) && KeyInv(Exec(Init(now), actions))
    ensures CacheInv(now, actions + [AuthBegin(token)])
  {
    hide LookupSound, EntrySound, AnswerSound, TableAnswer, KeyInv;
    assert (actions + [AuthBegin(token)])[..|actions|] == actions;
    OldFactsStay(now, actions, AuthBegin(token), Exec(Init(now), actions));
    NewAnswerIsSound(now, actions, AuthBegin(token));
    LookupJustBegun(now, actions + [AuthBegin(token)], token);
  }

  /** A read changes one lookup and nothing else of the cache's side. */
  lemma ReadChangesOneLookup(s: State, k: nat)
    ensures var t := Next(s, AuthRead(k));
      && t.cache == s.cache && t.answers == s.answers
      && forall l | l in t.lookups :: l in s.lookups || (k < |t.lookups| && l == t.lookups[k])
  {
    hide TableAnswer;
  }

  lemma ReadKeepsCacheInv(now: int, actions: seq<Action>, k: nat)
    requires CacheInv(now, actions)
    ensures CacheInv(now, actions + [AuthRead(k)])
  {
    var s, more := Exec(Init(now), actions), actions + [AuthRead(k)];
    assert more[..|actions|] == actions;
    assert Exec(Init(now), more) == Next(s, AuthRead(k));
    hide LookupSound, EntrySound, AnswerSound, Next, Exec;
    ReadChangesOneLookup(s, k);
    OldFactsStay(now, actions, AuthRead(k), Exec(Init(now), actions));
    NewReadIsSound(now, actions, k);
  }

  lemma StoreChangesOneEntry(s: State, k: nat)
    ensures Next(s, AuthStore(k)).now == s.now
    ensures var t := Next(s, AuthStore(k));
      if k < |s.lookups| && s.lookups[k].read.Some? && !s.lookups[k].stored then
        var l := s.lookups[k];
        var (hit, readAt) := l.read.value;
        && t.lookups == s.lookups[k := l.(stored := true)]
        && t.cache == s.cache[l.token := Entry(hit, s.now + TTL_MS, l.startedAt, readAt)]
        && t.answers == s.answers + [Answer(l.token, hit, s.now, s.now - l.startedAt)]
      else t == s
  {
    hide TableAnswer;
  }

  lemma StoreKeepsCacheInv(now: int, actions: seq<Action>, k: nat)
    requires CacheInv(now, actions)
    ensures CacheInv(now, actions + [AuthStore(k)])
  {
    var s, more := Exec(Init(now), actions), actions + [AuthStore(k)];
    assert more[..|actions|] == actions;
    assert Exec(Init(now), more) == Next(s, AuthStore(k));
    hide LookupSound, EntrySound, AnswerSound, Next, Exec;
    StoreChangesOneEntry(s, k);
    OldFactsStay(now, actions, AuthStore(k), Exec(Init(now), actions));
    if k < |s.lookups| && s.lookups[k].read.Some? && !s.lookups[k].stored {
      var t, l := Next(s, AuthStore(k)), s.lookups[k];
      assert l in s.lookups;
      StoredIsSound(now, more, l);
      hide CacheInv;
      forall m | m in t.lookups ensures LookupSound(now, more, m) { assert m in s.lookups || m == l.(stored := true); }
      forall x | x in t.answers ensures AnswerSound(now, more, x) { }
    }
  }

  lemma StepKeepsCacheInv(now: int, actions: seq<Action>, a: Action)
    requires CacheInv(now, actions) && KeyInv(Exec(Init(now), actions))
    ensures CacheInv(now, actions + [a])
  {
    if a.AuthBegin? {
      hide *;
      BeginKeepsCacheInv(now, actions, a.token);
    } else if a.AuthRead? {
      hide *;
      ReadKeepsCacheInv(now, actions, a.k);
    } else if a.AuthStore? {
      hide *;
      StoreKeepsCacheInv(now, actions, a.k);
    } else {
      hide LookupSound, EntrySound, AnswerSound, Next, KeyInv;
      assert (actions + [a])[..|actions|] == actions;
      OldFactsStay(now, actions, a, Exec(Init(now), actions));
      OtherStepsOnlyDrop(Exec(Init(now), actions), a);
    }
  }

  lemma LookupJustBegun(now: int, actions: seq<Action>, token: Token)
    ensures LookupSound(now, actions, Lookup(token, Exec(Init(now), actions).now, None, false))
  {
  }

  /** Storing a sound lookup makes a sound entry and a sound answer. */
  lemma StoredIsSound(now: int, actions: seq<Action>, l: Lookup)
    requires LookupSound(now, actions, l) && l.read.Some?
    ensures var t := Exec(Init(now), actions).now;
      && LookupSound(now, actions, l.(stored := true))
      && EntrySound(now, actions, l.token, Entry(l.read.value.0, t + TTL_MS, l.startedAt, l.read.value.1))
      && AnswerSound(now, actions, Answer(l.token, l.read.value.0, t, t - l.startedAt))
  {
  }

  lemma {:induction false} RunsKeepCacheInv(now: int, actions: seq<Action>)
    ensures CacheInv(now, actions)
  {
    if actions != [] {
      var front, a := actions[..|actions| - 1], actions[|actions| - 1];
      assert actions == front + [a];
      RunsKeepCacheInv(now, front);
      RunsKeepKeyInv(now, front);
      StepKeepsCacheInv(now, front, a);
    }
  }

  /**
   * Every answer of authenticateAgentKey, cached or not, is what the table itself answered at some moment of the
   * run less than KEY_CACHE_TTL_MS and the duration of one lookup before it.
   */
  lemma {:induction false} AnswersAreFresh(now: int, actions: seq<Action>, x: Answer) returns (m: nat)
    requires x in Exec(Init(now), actions).answers
    ensures m <= |actions| && x.at - At(now, actions, m).now < TTL_MS + x.lookupMs
    ensures TableAnswer(At(now, actions, m).rows, x.token) == x.hit
  {
    RunsKeepCacheInv(now, actions);
    assert AnswerSound(now, actions, x);
    var at :| x.at - at < TTL_MS + x.lookupMs && at <= x.at && AnsweredAt(now, actions, x.token, x.hit, at);
    m :| 0 <= m <= |actions| && At(now, actions, m).now == at
      && TableAnswer(At(now, actions, m).rows, x.token) == x.hit;
  }

  /** The row was deleted or revoked: it has an id already given out, and cannot answer. */
  predicate Dead(s: State, id: Id) { id < s.nextId && (id !in s.rows || s.rows[id].status == Revoked) }

  /** A revoked or deleted key authenticates no more once the cache time and one lookup have passed. */
  lemma {:induction false} RevokedKeysStop(now: int, actions: seq<Action>, r: nat, id: Id, x: Answer)
    requires r <= |actions| && Dead(At(now, actions, r), id)
    requires x in Exec(Init(now), actions).answers && x.at >= At(now, actions, r).now + TTL_MS + x.lookupMs
    ensures x.hit.Some? ==> x.hit.value.id != id
  {
    var m := AnswersAreFresh(now, actions, x);
    if m < r { RowsOnlyForward(now, actions, m, r, id); } else { RowsOnlyForward(now, actions, r, m, id); }
  }

  /** Revoking touches nothing but the status of the tenant's own row, and revokes it whatever its status was. */
  lemma RevokeIsAStep(s: State, id: Id, tenant: string)
    ensures var t := Next(s, Revoke(id, tenant));
      && t.rows.Keys == s.rows.Keys && t.now == s.now && t.nextId == s.nextId
      && (forall other | other in s.rows && other != id :: t.rows[other] == s.rows[other])
      && (id in s.rows ==>
        t.rows[id] == if s.rows[id].tenant == tenant then s.rows[id].(status := Revoked) else s.rows[id])
  {
  }

  /** Deleting an account removes exactly its rows. */
  lemma DeleteIsAStep(s: State, tenant: string)
    ensures var t := Next(s, DeleteTenant(tenant));
      && t.now == s.now && t.nextId == s.nextId
      && (forall id :: id in t.rows <==> id in s.rows && s.rows[id].tenant != tenant)
      && (forall id | id in t.rows :: t.rows[id] == s.rows[id])
  {
  }

  /**
   * Once a tenant revoked its row, or deleted its account, no token ever authenticates as the row again, and past the
   * cache time and one lookup no answer names it.
   */
  lemma {:induction false} RevokedOrDeletedIsFinal(
      now: int, actions: seq<Action>, m: nat, n: nat, id: Id, tenant: string)
    requires m < n <= |actions| && actions[m] in {Revoke(id, tenant), DeleteTenant(tenant)}
    requires id in At(now, actions, m).rows && At(now, actions, m).rows[id].tenant == tenant
    ensures var u := At(now, actions, n);
      && (id in u.rows ==> actions[m].Revoke? && u.rows[id].status == Revoked)
      && (forall token :: !Authenticates(u.rows, id, token))
    ensures forall x | x in Exec(Init(now), actions).answers
        && x.at >= At(now, actions, m).now + 60_000 + x.lookupMs ::
      x.hit.Some? ==> x.hit.value.id != id
  {
    var s := At(now, actions, m);
    RunsKeepKeyInv(now, actions[..m]);
    assert RowSound(s, id);
    AtNext(now, actions, m);
    RevokeIsAStep(s, id, tenant);
    DeleteIsAStep(s, tenant);
    hide Next, Exec, At, KeyInv;
    assert Dead(At(now, actions, m + 1), id);
    RowsOnlyForward(now, actions, m + 1, n, id);
    forall x | x in Exec(Init(now), actions).answers && x.at >= s.now + 60_000 + x.lookupMs
      ensures x.hit.Some? ==> x.hit.value.id != id
    {
      RevokedKeysStop(now, actions, m + 1, id, x);
    }
  }

  /** forgetAgentKeys: no cached hit names a forgotten id, and every other entry is unchanged. */
  lemma ForgetDropsExactly(cache: map<Token, Entry>, ids: set<Id>)
    ensures var after := Forgotten(cache, ids);
      && (forall t | t in after :: t in cache && after[t] == cache[t]
            && (after[t].hit.Some? ==> after[t].hit.value.id !in ids))
      && (forall t | t in cache && (cache[t].hit.Some? ==> cache[t].hit.value.id !in ids) :: t in after)
  {
  }

  predicate Names(hit: Option<Hit>, id: Id) { hit.Some? && hit.value.id == id }

  ghost predicate CacheNames(cache: map<Token, Entry>, id: Id) { exists t :: t in cache && Names(cache[t].hit, id) }

  /** Some answer given between the two states names the id. */
  predicate AnsweredWith(s: State, t: State, id: Id) {
    exists i :: |s.answers| <= i < |t.answers| && Names(t.answers[i].hit, id)
  }

  /** The lookup has read a hit on the id and not stored it yet. */
  predicate InFlight(l: Lookup, id: Id) { l.read.Some? && !l.stored && Names(l.read.value.0, id) }

  /** The id is dead, and neither the cache nor a lookup in flight names it. */
  ghost predicate Quiet(s: State, id: Id) {
    && Dead(s, id) && !CacheNames(s.cache, id) && forall l | l in s.lookups :: !InFlight(l, id)
  }

  lemma DeadIsNoAnswer(s: State, id: Id, token: Token)
    requires Dead(s, id)
    ensures !Names(TableAnswer(s.rows, token), id)
  {
  }

  lemma AuthStepLeavesRows(s: State, a: Action)
    ensures AuthStep(s, a).rows == s.rows && AuthStep(s, a).nextId == s.nextId
  {
    hide TableAnswer;
  }

  lemma BeginStaysQuiet(s: State, token: Token, id: Id)
    requires Quiet(s, id)
    ensures var t := AuthStep(s, AuthBegin(token));
      !CacheNames(t.cache, id) && (forall l | l in t.lookups :: !InFlight(l, id)) && !AnsweredWith(s, t, id)
  {
    if token in s.cache { assert !Names(s.cache[token].hit, id); }
  }

  lemma ReadStaysQuiet(s: State, k: nat, id: Id)
    requires Quiet(s, id)
    ensures var t := AuthStep(s, AuthRead(k));
      !CacheNames(t.cache, id) && (forall l | l in t.lookups :: !InFlight(l, id)) && !AnsweredWith(s, t, id)
  {
    if k < |s.lookups| { DeadIsNoAnswer(s, id, s.lookups[k].token); }
    hide TableAnswer, Dead;
    var t := AuthStep(s, AuthRead(k));
    assert t.cache == s.cache && t.answers == s.answers;
    forall l | l in t.lookups ensures !InFlight(l, id) {
      if l !in s.lookups { assert l == t.lookups[k]; }
    }
  }

  lemma StoreStaysQuiet(s: State, k: nat, id: Id)
    requires Quiet(s, id)
    ensures var t := AuthStep(s, AuthStore(k));
      !CacheNames(t.cache, id) && (forall l | l in t.lookups :: !InFlight(l, id)) && !AnsweredWith(s, t, id)
  {
    hide TableAnswer, Dead;
    var t := AuthStep(s, AuthStore(k));
    if t != s {
      assert s.lookups[k] in s.lookups && !InFlight(s.lookups[k], id);
      forall c | c in t.cache ensures !Names(t.cache[c].hit, id) {
        if c != s.lookups[k].token { assert c in s.cache && !Names(s.cache[c].hit, id); }
      }
      forall l | l in t.lookups ensures !InFlight(l, id) {
        if l !in s.lookups { assert l == t.lookups[k]; }
      }
    }
  }

  lemma ForgetStaysQuiet(s: State, ids: set<Id>, id: Id)
    requires Quiet(s, id)
    ensures var t := AuthStep(s, Forget(ids));
      !CacheNames(t.cache, id) && (forall l | l in t.lookups :: !InFlight(l, id)) && !AnsweredWith(s, t, id)
  {
    hide TableAnswer, Dead;
    var t := AuthStep(s, Forget(ids));
    forall c | c in t.cache ensures !Names(t.cache[c].hit, id) {
      assert c in s.cache && !Names(s.cache[c].hit, id);
    }
  }

  lemma AuthStepStaysQuiet(s: State, a: Action, id: Id)
    requires Quiet(s, id) && (a.AuthBegin? || a.AuthRead? || a.AuthStore? || a.Forget?)
    ensures Quiet(AuthStep(s, a), id) && !AnsweredWith(s, AuthStep(s, a), id)
  {
    AuthStepLeavesRows(s, a);
    hide AuthStep, CacheNames, InFlight, AnsweredWith;
    match a
    case AuthBegin(token) => BeginStaysQuiet(s, token, id);
    case AuthRead(k) => ReadStaysQuiet(s, k, id);
    case AuthStore(k) => StoreStaysQuiet(s, k, id);
    case Forget(ids) => ForgetStaysQuiet(s, ids, id);
  }

  lemma KeyStepLeavesTheCache(s: State, a: Action)
    ensures KeyStep(s, a).cache == s.cache && KeyStep(s, a).lookups == s.lookups && KeyStep(s, a).answers == s.answers
  {
  }

  lemma StepStaysQuiet(s: State, a: Action, id: Id)
    requires KeyInv(s) && Quiet(s, id)
    ensures Quiet(Next(s, a), id) && !AnsweredWith(s, Next(s, a), id)
  {
    if a.AuthBegin? || a.AuthRead? || a.AuthStore? || a.Forget? {
      AuthStepStaysQuiet(s, a, id);
      hide AuthStep, KeyInv, CacheNames, InFlight;
    } else {
      StepRowOnlyForward(s, a, id);
      KeyStepLeavesTheCache(s, a);
      hide KeyStep, AuthStep, KeyInv, CacheNames, InFlight;
    }
  }

  lemma {:induction false} RunStaysQuiet(s: State, more: seq<Action>, id: Id)
    requires KeyInv(s) && Quiet(s, id)
    ensures var t := Exec(s, more);
      KeyInv(t) && Quiet(t, id) && |s.answers| <= |t.answers| && !AnsweredWith(s, t, id)
  {
    if more != [] {
      var front, a := more[..|more| - 1], more[|more| - 1];
      RunStaysQuiet(s, front, id);
      var t := Exec(s, front);
      assert Exec(s, more) == Next(t, a);
      hide Exec, Quiet, KeyInv;
      StepStaysQuiet(t, a, id);
      NextKeepsKeyInv(t, a);
      StepOnlyAnswers(t, a);
    }
  }

  /** A step at most adds to the answers. */
  lemma StepOnlyAnswers(s: State, a: Action)
    ensures s.answers <= Next(s, a).answers
  {
    hide TableAnswer;
  }

  /**
   * What forgetAgentKeys can promise: once a dead id is named by no cached hit, which is so right after it was
   * forgotten, it can come back into the cache, and into an answer, exactly when a lookup that read it before is
   * still to store it.
   */
  lemma {:induction false} ForgottenReturnsExactly(now: int, actions: seq<Action>, id: Id)
    requires var s := Exec(Init(now), actions); Dead(s, id) && !CacheNames(s.cache, id)
    ensures var s := Exec(Init(now), actions);
      && ((exists more :: CacheNames(Exec(s, more).cache, id)) <==> exists l :: l in s.lookups && InFlight(l, id))
      && ((exists more :: AnsweredWith(s, Exec(s, more), id)) <==> exists l :: l in s.lookups && InFlight(l, id))
  {
    var s := Exec(Init(now), actions);
    RunsKeepKeyInv(now, actions);
    if exists l :: l in s.lookups && InFlight(l, id) {
      var k :| 0 <= k < |s.lookups| && InFlight(s.lookups[k], id);
      hide *;
      var more := StoringReturns(s, k, id);
      assert CacheNames(Exec(s, more).cache, id) && AnsweredWith(s, Exec(s, more), id);
    } else {
      hide Exec, CacheNames, AnsweredWith, InFlight, Dead, KeyInv;
      assert Quiet(s, id);
      hide Quiet;
      forall more ensures !CacheNames(Exec(s, more).cache, id) && !AnsweredWith(s, Exec(s, more), id) {
        RunStaysQuiet(s, more, id);
        QuietNamesNothing(Exec(s, more), id);
      }
    }
  }

  lemma QuietNamesNothing(s: State, id: Id)
    requires Quiet(s, id)
    ensures !CacheNames(s.cache, id)
  {
  }

  lemma StoringReturns(s: State, k: nat, id: Id) returns (more: seq<Action>)
    requires k < |s.lookups| && InFlight(s.lookups[k], id)
    ensures CacheNames(Exec(s, more).cache, id) && AnsweredWith(s, Exec(s, more), id)
  {
    more := [AuthStore(k)];
    assert more[..|more| - 1] == [] && Exec(s, []) == s;
    var t := Exec(s, more);
    assert t == Next(s, AuthStore(k));
    hide Exec;
    assert s.lookups[k].token in t.cache && Names(t.cache[s.lookups[k].token].hit, id);
    assert |s.answers| < |t.answers| && Names(t.answers[|s.answers|].hit, id);
  }

  lemma ForgetLeavesTheRest(s: State, ids: set<Id>, id: Id)
    requires id in ids
    ensures var t := Next(s, Forget(ids));
      !CacheNames(t.cache, id) && t.rows == s.rows && t.nextId == s.nextId && t.lookups == s.lookups
  {
    ForgetDropsExactly(s.cache, ids);
  }

  /**
   * The promise of forgetAgentKeys for a key whose row is gone: once forgotten, it stops authenticating for good
   * exactly when no lookup that read it before was still under way.
   */
  lemma {:induction false} ForgettingIsFinalExactly(now: int, actions: seq<Action>, ids: set<Id>, id: Id)
    requires id in ids && Dead(Exec(Init(now), actions), id)
    ensures var s := Exec(Init(now), actions); var t := Next(s, Forget(ids));
      (forall more :: !CacheNames(Exec(t, more).cache, id) && !AnsweredWith(t, Exec(t, more), id)) <==>
        forall l | l in s.lookups :: !InFlight(l, id)
  {
    var s, longer := Exec(Init(now), actions), actions + [Forget(ids)];
    var t := Next(s, Forget(ids));
    assert longer[..|longer| - 1] == actions;
    assert Exec(Init(now), longer) == t;
    ForgetLeavesTheRest(s, ids, id);
    assert Dead(t, id);
    hide *;
    ForgottenReturnsExactly(now, longer, id);
  }

  // ── Pending claims ────────────────────────────────────────────────────────

  predicate PendingFor(r: KeyRow, tenant: string, domain: string) {
    r.status == Pending && r.tenant == tenant && r.domain == domain
  }

  /** At most one pending row per tenant and domain. */
  ghost predicate OnePending(rows: map<Id, KeyRow>) {
    forall i, j | i in rows && j in rows && rows[i].status == Pending && rows[j].status == Pending
      && rows[i].tenant == rows[j].tenant && rows[i].domain == rows[j].domain :: i == j
  }

  /** The insert of step `n` still finds no pending row for its tenant and domain. */
  predicate InsertsAlone(s: State, a: Action) {
    a.StartInsert? && a.k < |s.starts| && !s.starts[a.k].inserted ==>
      !HasPending(s.rows, s.starts[a.k].tenant, s.starts[a.k].domain)
  }

  lemma StepKeepsOnePending(s: State, a: Action)
    requires KeyInv(s) && OnePending(s.rows)
    ensures OnePending(Next(s, a).rows) <==> InsertsAlone(s, a)
  {
    var t := Next(s, a);
    if a.StartInsert? && a.k < |s.starts| && !s.starts[a.k].inserted {
      var r := t.rows[s.nextId];
      assert forall id | id in s.rows :: RowSound(s, id);
      assert forall id | id in s.rows :: t.rows[id] == s.rows[id];
      if HasPending(s.rows, r.tenant, r.domain) {
        var id :| id in s.rows && s.rows[id].tenant == r.tenant && s.rows[id].domain == r.domain
          && s.rows[id].status == Pending;
        assert t.rows[id] == s.rows[id] && id != s.nextId;
      }
    } else {
      RowsKeepTheirPair(s, a);
    }
  }

  lemma RowsKeepTheirPair(s: State, a: Action)
    requires !(a.StartInsert? && a.k < |s.starts| && !s.starts[a.k].inserted)
    ensures var t := Next(s, a);
      forall id | id in t.rows :: id in s.rows
        && t.rows[id].tenant == s.rows[id].tenant && t.rows[id].domain == s.rows[id].domain
        && (t.rows[id].status == Pending ==> s.rows[id].status == Pending)
  {
  }

  /**
   * "One pending row per tenant+domain" holds throughout a run exactly when every insert still finds none pending:
   * the SELECT before it is not enough when two calls race.
   */
  lemma {:induction false} OnePendingExactly(now: int, actions: seq<Action>)
    ensures (forall n | 0 <= n <= |actions| :: OnePending(At(now, actions, n).rows)) <==>
      (forall n | 0 <= n < |actions| :: InsertsAlone(At(now, actions, n), actions[n]))
  {
    if actions == [] {
      assert At(now, actions, 0).rows == map[];
    } else {
      var front, last := actions[..|actions| - 1], |actions| - 1;
      assert front == actions[..last];
      RunsKeepKeyInv(now, actions[..last]);
      assert KeyInv(At(now, actions, last)) && At(now, actions, last) == At(now, front, last) by {
        assert front[..last] == front;
      }
      hide *;
      OnePendingExactly(now, front);
      AtNext(now, actions, last);
      if OnePending(At(now, actions, last).rows) { StepKeepsOnePending(At(now, actions, last), actions[last]); }
      OneMorePrefix(now, actions);
    }
  }

  /** Quantifying over the prefixes of a run, split at its last action. */
  lemma OneMorePrefix(now: int, actions: seq<Action>)
    requires actions != []
    ensures var front, last := actions[..|actions| - 1], |actions| - 1;
      && ((forall n | 0 <= n <= |actions| :: OnePending(At(now, actions, n).rows)) <==>
          (forall n | 0 <= n <= last :: OnePending(At(now, front, n).rows))
          && OnePending(At(now, actions, last + 1).rows))
      && ((forall n | 0 <= n < |actions| :: InsertsAlone(At(now, actions, n), actions[n])) <==>
          (forall n | 0 <= n < last :: InsertsAlone(At(now, front, n), front[n]))
          && InsertsAlone(At(now, actions, last), actions[last]))
  {
    hide OnePending, InsertsAlone, Exec;
    var front, last := actions[..|actions| - 1], |actions| - 1;
    forall n | 0 <= n <= last ensures At(now, actions, n) == At(now, front, n) { assert front[..n] == actions[..n]; }
  }

  // ── Three traces ──────────────────────────────────────────────────────────

  lemma {:induction false} Then(trace: seq<Action>, s: State, a: Action) returns (longer: seq<Action>, t: State)
    requires s == Exec(Init(0), trace)
    ensures longer == trace + [a] && t == Next(s, a) == Exec(Init(0), longer)
  {
    longer, t := trace + [a], Next(s, a);
    assert longer[..|longer| - 1] == trace;
  }

  /** Two racing starts both see nothing pending and leave two pending rows for one domain. */
  lemma {:induction false} RacingStartsLeaveTwoPending() returns (trace: seq<Action>)
    ensures !OnePending(Exec(Init(0), trace).rows)
  {
    var s := Init(0);
    trace := [];
    trace, s := Then(trace, s, StartLook("t", "d.example"));
    trace, s := Then(trace, s, StartLook("t", "d.example"));
    trace, s := Then(trace, s, StartInsert(0, "c0"));
    trace, s := Then(trace, s, StartInsert(1, "c1"));
    assert 0 in s.rows && 1 in s.rows && s.rows[0].status == s.rows[1].status == Pending;
  }

  lemma {:induction false} TwoProvenCalls() returns (trace: seq<Action>, s: State)
    ensures s == Exec(Init(0), trace) && s.minted == 0 && s.now == 0 && s.cache == map[] && s.lookups == []
    ensures s.rows == map[0 := KeyRow("t", "d.example", "c", None, Pending)]
    ensures s.activations ==
      [Activation(0, "t", "d.example", "c", Proven), Activation(0, "t", "d.example", "c", Proven)]
  {
    s := Init(0);
    trace := [];
    trace, s := Then(trace, s, StartLook("t", "d.example"));
    trace, s := Then(trace, s, StartInsert(0, "c"));
    trace, s := Then(trace, s, ActivateLook(0, "t"));
    trace, s := Then(trace, s, ActivateLook(0, "t"));
    trace, s := Then(trace, s, ActivateDns(0, true));
    trace, s := Then(trace, s, ActivateDns(1, true));
  }

  lemma {:induction false} BothKeysMinted() returns (trace: seq<Action>, s: State)
    ensures s == Exec(Init(0), trace)
    ensures s.rows == map[0 := KeyRow("t", "d.example", "c", Some(Sha(Minted(0))), Active)]
    ensures s.activations == [
      Activation(0, "t", "d.example", "c", Issued(Minted(0))), Activation(0, "t", "d.example", "c", Issued(Minted(1)))]
  {
    trace, s := TwoProvenCalls();
    trace, s := Then(trace, s, ActivateMint(0, Done));
    trace, s := Then(trace, s, ActivateMint(1, Done));
  }

  /** Two racing activations both answer ok with a plaintext key; the second key is not on the row. */
  lemma {:induction false} LosersKeyIsReturnedDead() returns (trace: seq<Action>)
    ensures var s := Exec(Init(0), trace);
      && |s.activations| == 2 && s.activations[0].progress == Returned(Minted(0))
      && s.activations[1].progress == Returned(Minted(1))
      && Authenticates(s.rows, 0, Minted(0)) && TableAnswer(s.rows, Minted(1)).None?
  {
    var s: State;
    trace, s := BothKeysMinted();
    trace, s := Then(trace, s, ActivateReturn(0));
    trace, s := Then(trace, s, ActivateReturn(1));
  }

  lemma {:induction false} ReadBeforeDeletion() returns (trace: seq<Action>, s: State)
    ensures s == Exec(Init(0), trace) && s.cache == map[] && s.rows.Keys == {0} && s.rows[0].tenant == "t"
    ensures s.lookups == [Lookup(Minted(0), 0, Some((Some(Hit(0, "d.example")), 0)), false)]
  {
    trace, s := TwoProvenCalls();
    trace, s := Then(trace, s, ActivateMint(0, Done));
    trace, s := Then(trace, s, AuthBegin(Minted(0)));
    assert Authenticates(s.rows, 0, Minted(0)) && s.rows.Keys == {0};
    trace, s := Then(trace, s, AuthRead(0));
  }

  /** A lookup in flight while the account is deleted puts a forgotten key back in the cache. */
  lemma {:induction false} LookupInFlightOutlivesForget() returns (trace: seq<Action>)
    ensures var s := Exec(Init(0), trace);
      s.rows == map[] && Minted(0) in s.cache && s.cache[Minted(0)].hit == Some(Hit(0, "d.example"))
  {
    var s: State;
    trace, s := ReadBeforeDeletion();
    trace, s := Then(trace, s, DeleteTenant("t"));
    assert s.rows == map[];
    trace, s := Then(trace, s, Forget({0}));
    assert s.cache == map[];
    trace, s := Then(trace, s, AuthStore(0));
  }

  // ── The calls themselves ──────────────────────────────────────────────────

  class KeyTable {
    var rows: map<Id, KeyRow>
    var nextId: Id

    ghost predicate Valid()
      reads this
    {
      forall id | id in rows :: id < nextId
    }

    constructor ()
      ensures Valid() && rows == map[]
    {
      rows, nextId := map[], 0;
    }

    /** Starts or resumes a claim: a pending row of the pair is used again, else one is made. */
    method StartAgentKey(tenant: string, domain: string, challenge: string) returns (id: Id)
      requires Valid()
      modifies this
      ensures Valid() && id in rows && PendingFor(rows[id], tenant, domain)
      ensures rows[id].tenant == tenant && rows[id].domain == domain && rows[id].status == Pending
      ensures if HasPending(old(rows), tenant, domain) then rows == old(rows)
        else id !in old(rows) && rows == old(rows)[id := KeyRow(tenant, domain, challenge, None, Pending)]
      ensures id in old(rows) <==>
        exists i :: i in old(rows) && old(rows)[i].tenant == tenant && old(rows)[i].domain == domain
          && old(rows)[i].status == Pending
    {
      var found :=
        set i | i in rows && rows[i].tenant == tenant && rows[i].domain == domain && rows[i].status == Pending;
      if found != {} {
        id :| id in found;
      } else {
        forall i | i in rows
          ensures !(rows[i].tenant == tenant && rows[i].domain == domain && rows[i].status == Pending)
        {
          assert i !in found;
        }
        id := nextId;
        nextId := nextId + 1;
        rows := rows[id := KeyRow(tenant, domain, challenge, None, Pending)];
      }
    }

    /** With the DNS answer and the new token given: the key is issued only on a match, while the row is pending. */
    method ActivateAgentKey(tenant: string, id: Id, dnsMatches: bool, token: Token) returns (plaintext: Option<Token>)
      requires Valid()
      modifies this
      ensures Valid()
      ensures plaintext == None || plaintext == Some(token)
      ensures plaintext.Some? <==>
        id in old(rows) && old(rows)[id].tenant == tenant && old(rows)[id].status == Pending && dnsMatches
      ensures rows == if plaintext.Some? then ActivatedRows(old(rows), id, tenant, token) else old(rows)
      ensures plaintext.Some? ==>
        && rows.Keys == old(rows).Keys && Authenticates(rows, id, token)
        && rows[id] == old(rows)[id].(keyHash := Some(Sha(token)), status := Active)
        && forall other | other in old(rows) && other != id :: rows[other] == old(rows)[other]
    {
      if id !in rows || rows[id].tenant != tenant { return None; }
      if rows[id].status != Pending { return None; }
      if !dnsMatches { return None; }
      rows := rows[id := rows[id].(keyHash := Some(Sha(token)), status := Active)];
      plaintext := Some(token);
    }

    method RevokeAgentKey(tenant: string, id: Id) returns (revoked: bool)
      requires Valid()
      modifies this
      ensures Valid() && rows == RevokedRows(old(rows), id, tenant)
      ensures revoked <==> id in old(rows) && old(rows)[id].tenant == tenant && old(rows)[id].status != Revoked
      ensures rows.Keys == old(rows).Keys
      ensures revoked ==> rows[id] == old(rows)[id].(status := Revoked)
      ensures forall other | other in old(rows) && (!revoked || other != id) :: rows[other] == old(rows)[other]
    {
      revoked := id in rows && rows[id].tenant == tenant && rows[id].status != Revoked;
      if revoked { rows := rows[id := rows[id].(status := Revoked)]; }
    }
  }

  /** `hit` is an answer the table can give for `token`. */
  predicate IsAnswer(rows: map<Id, KeyRow>, token: Token, hit: Option<Hit>) {
    match hit
    case Some(h) =>
      && h.id in rows && rows[h.id].status == Active && rows[h.id].keyHash == Some(Sha(token))
      && h.domain == rows[h.id].domain
    case None => forall id | id in rows :: rows[id].status != Active || rows[id].keyHash != Some(Sha(token))
  }

  class KeyCache {
    var entries: map<Token, Entry>

    constructor ()
      ensures entries == map[]
    {
      entries := map[];
    }

    /** The clock is read at `startedAt` for the cache and at `storedAt` for the new entry. */
    method AuthenticateAgentKey(token: Token, table: KeyTable, startedAt: int, readAt: int, storedAt: int)
      returns (hit: Option<Hit>)
      modifies this
      ensures !KeyShaped(token) ==> hit == None && entries == old(entries)
      ensures KeyShaped(token) && token in old(entries) && startedAt < old(entries)[token].expiresAt ==>
        hit == old(entries)[token].hit && entries == old(entries)
      ensures KeyShaped(token) && (token in old(entries) ==> startedAt >= old(entries)[token].expiresAt) ==>
        && IsAnswer(table.rows, token, hit)
        && entries == old(entries)[token := Entry(hit, storedAt + 60_000, startedAt, readAt)]
    {
      if !KeyShaped(token) { return None; }
      if token in entries && startedAt < entries[token].expiresAt { return entries[token].hit; }
      var found :=
        set id | id in table.rows && table.rows[id].status == Active && table.rows[id].keyHash == Some(Sha(token));
      if found == {} {
        forall id | id in table.rows
          ensures table.rows[id].status != Active || table.rows[id].keyHash != Some(Sha(token))
        {
          assert id !in found;
        }
        hit := None;
      } else {
        var id :| id in found;
        hit := Some(Hit(id, table.rows[id].domain));
      }
      entries := entries[token := Entry(hit, storedAt + TTL_MS, startedAt, readAt)];
    }

    method ForgetAgentKeys(ids: set<Id>)
      modifies this
      ensures entries == Forgotten(old(entries), ids)
    {
      if ids == {} {
        assert entries == Forgotten(entries, ids);
        return;
      }
      var left := entries.Keys;
      while left != {}
        invariant left <= old(entries).Keys
        invariant forall t :: t in entries <==>
          t in old(entries) && (t in left || !(old(entries)[t].hit.Some? && old(entries)[t].hit.value.id in ids))
        invariant forall t | t in entries :: entries[t] == old(entries)[t]
        decreases left
      {
        var t :| t in left;
        var e := entries[t];
        if e.hit.Some? && e.hit.value.id in ids { entries := entries - {t}; }
        left := left - {t};
      }
    }
  }
}
