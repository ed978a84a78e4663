/**
 * sendOpeningNotices of agenticsSignup.ts: one admin call that works through the accounts still to be told. What
 * the database, the mail server and the clock answer during the call is given as one `Turn` per selected row.
 */
module OpeningBatch {
  import opened Ordering
  import opened Owner
  import opened Stamps
  import opened SignupTable
  import opened Statements
  import opened OnceOnlyMail

  const BATCH_MAX := 200
  const BATCH_DEFAULT := 100

  datatype Lookup = Address | NoAddress | LookupThrew

  /** One try of markOpened: when it runs and how it ends. */
  datatype Try = Try(at: int, reply: Reply)

  /** The answers one pass through the loop body meets. */
  datatype Turn = Turn(
    clock: int,
    at: int,
    claim: Reply,
    lookup: Lookup,
    noAddressMark: Try,
    send: SendResult,
    marks: seq<Try>,
    release: Reply)

  predicate ThreeTries(t: Turn) { |t.marks| == 3 }

  datatype Outcome = Skipped | NotClaimed | NoEmail | Failed | TimedOut | SentOut

  datatype Report = Report(
    dryRun: bool, waiting: nat, sent: nat, failed: nat, timedOut: nat, noEmail: nat, remaining: nat)

  // ── The queries ───────────────────────────────────────────────────────────

  function Waiting(rows: map<Tenant, Row>, owner: string): set<Tenant> {
    set t | t in rows && rows[t].openedNotifiedAt.None? && t != owner
  }

  function Selectable(rows: map<Tenant, Row>, owner: string, now: int): set<Tenant> {
    set t | t in rows && OpeningClaimable(rows[t], now) && t != owner
  }

  /** ORDER BY created_at ASC, tenant_id ASC. */
  predicate Before(rows: map<Tenant, Row>, a: Tenant, b: Tenant)
    requires a in rows && b in rows
  {
    Less(rows[a].createdAt, rows[b].createdAt) || (rows[a].createdAt == rows[b].createdAt && Less(a, b))
  }

  function Min(a: nat, b: nat): nat { if a < b then a else b }

  /** `picked` is the oldest `limit` tenants of `pool`, oldest first. */
  ghost predicate OldestFirst(rows: map<Tenant, Row>, pool: set<Tenant>, limit: nat, picked: seq<Tenant>) {
    && pool <= rows.Keys && |picked| == Min(limit, |pool|)
    && (forall i | 0 <= i < |picked| :: picked[i] in pool)
    && (forall i, j | 0 <= i < j < |picked| :: Before(rows, picked[i], picked[j]))
    && (forall i, t | 0 <= i < |picked| && t in pool && t !in picked :: Before(rows, picked[i], t))
  }

  lemma BeforeIsStrictOrder(rows: map<Tenant, Row>, a: Tenant, b: Tenant, c: Tenant)
    requires a in rows && b in rows && c in rows
    ensures !Before(rows, a, a)
    ensures a == b || Before(rows, a, b) || Before(rows, b, a)
    ensures Before(rows, a, b) && Before(rows, b, c) ==> Before(rows, a, c)
  {
    LessIsStrictOrder(rows[a].createdAt, rows[b].createdAt, rows[c].createdAt);
    LessIsStrictOrder(a, b, c);
  }

  lemma {:induction false} OldestExists(rows: map<Tenant, Row>, pool: set<Tenant>) returns (t: Tenant)
    requires pool != {} && pool <= rows.Keys
    ensures t in pool && forall u | u in pool && u != t :: Before(rows, t, u)
    decreases |pool|
  {
    t :| t in pool;
    if pool != {t} {
      var u := OldestExists(rows, pool - {t});
      BeforeIsStrictOrder(rows, t, u, u);
      if Before(rows, u, t) {
        t := u;
      } else {
        forall v | v in pool && v != t ensures Before(rows, t, v) { BeforeIsStrictOrder(rows, t, u, v); }
      }
    }
  }

  /** A row the query can pick: untold, with no claim or one older than 15 minutes, and not the owner's. */
  predicate IsFree(r: Row, now: int) {
    r.openedNotifiedAt.None? && (r.openClaimedAt.None? || r.openClaimedAt.value < Sec(now - 900_000))
  }

  /** The accounts picked, oldest signup first; one left out is free only if the limit was reached with older ones. */
  ghost predicate PicksOldest(rows: map<Tenant, Row>, owner: string, now: int, limit: nat, picked: seq<Tenant>) {
    && |picked| <= limit
    && (forall t | t in picked :: t in rows && t != owner && IsFree(rows[t], now))
    && (forall i, j | 0 <= i < j < |picked| ::
      var a, b := rows[picked[i]].createdAt, rows[picked[j]].createdAt;
      Less(a, b) || (a == b && Less(picked[i], picked[j])))
    && (forall t | t in rows && t != owner && IsFree(rows[t], now) && t !in picked ::
      && |picked| == limit
      && forall i | 0 <= i < |picked| ::
        var a, b := rows[picked[i]].createdAt, rows[t].createdAt;
        Less(a, b) || (a == b && Less(picked[i], t)))
  }

  lemma OldestArePicked(rows: map<Tenant, Row>, owner: string, now: int, limit: nat, picked: seq<Tenant>)
    requires OldestFirst(rows, Selectable(rows, owner, now), limit, picked)
    ensures PicksOldest(rows, owner, now, limit, picked)
  {
    OldestAreDistinct(rows, Selectable(rows, owner, now), limit, picked);
    hide Less;
    forall t ensures t in Selectable(rows, owner, now) <==> t in rows && t != owner && IsFree(rows[t], now) { }
    hide Selectable, IsFree;
    forall t | t in Selectable(rows, owner, now) && t !in picked ensures |picked| == limit {
      if |picked| == |Selectable(rows, owner, now)| { AllPicked(Selectable(rows, owner, now), picked, t); }
    }
  }

  /** As many different elements as there are leave none out. */
  lemma {:induction false} AllPicked(pool: set<Tenant>, picked: seq<Tenant>, t: Tenant)
    requires (forall u | u in picked :: u in pool) && |picked| == |pool| && t in pool
    requires forall i, j | 0 <= i < j < |picked| :: picked[i] != picked[j]
    ensures t in picked
  {
    if picked != [] {
      var last := picked[|picked| - 1];
      if t != last {
        forall u | u in picked[..|picked| - 1] ensures u in pool - {last} {
          var i :| 0 <= i < |picked| - 1 && picked[i] == u;
        }
        AllPicked(pool - {last}, picked[..|picked| - 1], t);
      }
    }
  }

  method SelectOldest(table: Signups, owner: string, now: int, limit: nat) returns (picked: seq<Tenant>)
    ensures OldestFirst(table.rows, Selectable(table.rows, owner, now), limit, picked)
    ensures PicksOldest(table.rows, owner, now, limit, picked)
  {
    hide PicksOldest;
    var pool := Selectable(table.rows, owner, now);
    var rest := pool;
    picked := [];
    while |picked| < limit && rest != {}
      invariant rest <= pool && |rest| == |pool| - |picked| && |picked| <= limit
      invariant forall t :: t in pool <==> t in rest || t in picked
      invariant forall i | 0 <= i < |picked| :: picked[i] !in rest
      invariant forall i, j | 0 <= i < j < |picked| :: Before(table.rows, picked[i], picked[j])
      invariant forall i, t | 0 <= i < |picked| && t in rest :: Before(table.rows, picked[i], t)
      decreases rest
    {
      ghost var first := OldestExists(table.rows, rest);
      var t :| t in rest && forall u | u in rest && u != t :: Before(table.rows, t, u);
      picked := picked + [t];
      rest := rest - {t};
    }
    OldestArePicked(table.rows, owner, now, limit, picked);
  }

  // ── One pass through the loop body ────────────────────────────────────────

  /** markOpenedWithRetries from its k-th try on: it stops at the first try that does not throw. */
  function MarkTries(r: Row, marks: seq<Try>, k: nat): Row
    requires k <= |marks|
    decreases |marks| - k
  {
    if k == |marks| then r
    else
      var after := if Applied(marks[k].reply) then Opened(r, marks[k].at) else r;
      if marks[k].reply == Done then after else MarkTries(after, marks, k + 1)
  }

  /** The catch branch for anything but a mail timeout: failed, and the claim is given back. */
  function GiveBack(r: Row, t: Turn): (Row, Outcome) {
    (if Applied(t.release) then OpeningReleased(r, Some(t.at)) else r, Failed)
  }

  /** What a pass makes of a claimed row. */
  function WorkClaim(r: Row, t: Turn): (Row, Outcome)
    requires ThreeTries(t)
  {
    match t.lookup
    case LookupThrew => GiveBack(r, t)
    case NoAddress =>
      var marked := if Applied(t.noAddressMark.reply) then Opened(r, t.noAddressMark.at) else r;
      if t.noAddressMark.reply == Done then (marked, NoEmail) else GiveBack(marked, t)
    case Address =>
      match t.send
      case Delivered => (MarkTries(r, t.marks, 0), SentOut)
      case SendRefused(_) => GiveBack(r, t)
      case SendTimedOut => (r, TimedOut)
  }

  /** What a pass makes of the row of a tenant that is not skipped. */
  function WorkRow(r: Row, t: Turn): (Row, Outcome)
    requires ThreeTries(t)
  {
    var claimed := r.(openClaimedAt := Some(Sec(t.at)));
    if t.claim != Done then (if OpeningClaimable(r, t.at) && Applied(t.claim) then claimed else r, Failed)
    else if !OpeningClaimable(r, t.at) then (r, NotClaimed)
    else WorkClaim(claimed, t)
  }

  function Pass(rows: map<Tenant, Row>, owner: string, who: Tenant, t: Turn): (map<Tenant, Row>, Outcome)
    requires who in rows && ThreeTries(t)
  {
    if who == "" || IsOwner(who, owner) then (rows, Skipped)
    else (rows[who := WorkRow(rows[who], t).0], WorkRow(rows[who], t).1)
  }

  // ── The whole call ────────────────────────────────────────────────────────

  /** The table after the first `n` selected rows. */
  function RowsAfter(rows: map<Tenant, Row>, owner: string, picked: seq<Tenant>, env: nat -> Turn, n: nat)
    : (after: map<Tenant, Row>)
    requires n <= |picked| && (forall t | t in picked :: t in rows) && (forall k :: ThreeTries(env(k)))
    ensures after.Keys == rows.Keys
  {
    if n == 0 then rows
    else Pass(RowsAfter(rows, owner, picked, env, n - 1), owner, picked[n - 1], env(n - 1)).0
  }

  function OutcomeAt(rows: map<Tenant, Row>, owner: string, picked: seq<Tenant>, env: nat -> Turn, k: nat): Outcome
    requires k < |picked| && (forall t | t in picked :: t in rows) && (forall k :: ThreeTries(env(k)))
  {
    Pass(RowsAfter(rows, owner, picked, env, k), owner, picked[k], env(k)).1
  }

  /** How many of the first `n` passes end in `o`. */
  function Tally(
    rows: map<Tenant, Row>, owner: string, picked: seq<Tenant>, env: nat -> Turn, n: nat, o: Outcome): (c: nat)
    requires n <= |picked| && (forall t | t in picked :: t in rows) && (forall k :: ThreeTries(env(k)))
    ensures c <= n
  {
    if n == 0 then 0
    else
      Tally(rows, owner, picked, env, n - 1, o) + if OutcomeAt(rows, owner, picked, env, n - 1) == o then 1 else 0
  }

  /** How many rows the loop reaches before the clock is at the deadline. */
  function Reached(env: nat -> Turn, deadlineAt: Option<int>, k: nat, n: nat): (r: nat)
    requires k <= n
    ensures k <= r <= n
    ensures deadlineAt.None? ==> r == n
    ensures forall i | k <= i < r :: deadlineAt.Some? ==> env(i).clock < deadlineAt.value
    ensures r < n ==> deadlineAt.Some? && env(r).clock >= deadlineAt.value
    decreases n - k
  {
    if k == n || (deadlineAt.Some? && env(k).clock >= deadlineAt.value) then k
    else Reached(env, deadlineAt, k + 1, n)
  }

  /** The limit a call works with; None stands for a value that is missing or not a number. */
  function EffectiveLimit(limit: Option<int>): (n: nat)
    ensures limit.None? || limit.value == 0 ==> n == 100
    ensures limit.Some? && limit.value < 0 ==> n == 1
    ensures limit.Some? && limit.value > 0 ==> n == if limit.value > 200 then 200 else limit.value
  {
    var asked := if limit.None? || limit.value == 0 then BATCH_DEFAULT else limit.value;
    if asked < 1 then 1 else Min(asked, BATCH_MAX)
  }

  method MarkOpenedWithRetries(table: Signups, who: Tenant, marks: seq<Try>)
    requires |marks| == 3
    modifies table
    ensures table.rows ==
      if who in old(table.rows) then old(table.rows)[who := MarkTries(old(table.rows)[who], marks, 0)]
      else old(table.rows)
  {
    var attempt := 1;
    while attempt <= 3
      invariant 1 <= attempt <= 4
      invariant table.rows.Keys == old(table.rows.Keys)
      invariant who !in old(table.rows) ==> table.rows == old(table.rows)
      invariant who in old(table.rows) ==>
        && table.rows == old(table.rows)[who := table.rows[who]]
        && MarkTries(table.rows[who], marks, attempt - 1) == MarkTries(old(table.rows)[who], marks, 0)
    {
      var m := marks[attempt - 1];
      if Applied(m.reply) { table.MarkOpened(who, m.at); }
      if m.reply == Done { return; }
      attempt := attempt + 1;
    }
  }

  /** `r` counts the outcomes of the first `n` passes. */
  ghost predicate CountsPasses(
    r: Report, rows: map<Tenant, Row>, owner: string, picked: seq<Tenant>, env: nat -> Turn, n: nat)
    requires n <= |picked| && (forall t | t in picked :: t in rows) && (forall k :: ThreeTries(env(k)))
  {
    && r.sent == Tally(rows, owner, picked, env, n, SentOut)
    && r.failed == Tally(rows, owner, picked, env, n, Failed)
    && r.timedOut == Tally(rows, owner, picked, env, n, TimedOut)
    && r.noEmail == Tally(rows, owner, picked, env, n, NoEmail)
  }

  function Counted(r: Report, o: Outcome): Report {
    match o
    case SentOut => r.(sent := r.sent + 1)
    case Failed => r.(failed := r.failed + 1)
    case TimedOut => r.(timedOut := r.timedOut + 1)
    case NoEmail => r.(noEmail := r.noEmail + 1)
    case _ => r
  }

  /** The report after the first `n` passes. */
  function ReportAfter(
    rows: map<Tenant, Row>, owner: string, picked: seq<Tenant>, env: nat -> Turn, n: nat): (r: Report)
    requires n <= |picked| && (forall t | t in picked :: t in rows) && (forall k :: ThreeTries(env(k)))
    ensures !r.dryRun
  {
    if n == 0 then Report(false, 0, 0, 0, 0, 0, 0)
    else Counted(ReportAfter(rows, owner, picked, env, n - 1), OutcomeAt(rows, owner, picked, env, n - 1))
  }

  lemma {:induction false} ReportCountsPasses(
      rows: map<Tenant, Row>, owner: string, picked: seq<Tenant>, env: nat -> Turn, n: nat)
    requires n <= |picked| && (forall t | t in picked :: t in rows) && (forall k :: ThreeTries(env(k)))
    ensures CountsPasses(ReportAfter(rows, owner, picked, env, n), rows, owner, picked, env, n)
  {
    if n > 0 { ReportCountsPasses(rows, owner, picked, env, n - 1); }
  }

  /** What one run of the loop body adds. */
  lemma OnePassMore(
      rows: map<Tenant, Row>, owner: string, picked: seq<Tenant>, env: nat -> Turn, n: nat,
      after: map<Tenant, Row>, o: Outcome)
    requires n < |picked| && (forall t | t in picked :: t in rows) && (forall k :: ThreeTries(env(k)))
    requires (after, o) == Pass(RowsAfter(rows, owner, picked, env, n), owner, picked[n], env(n))
    ensures after == RowsAfter(rows, owner, picked, env, n + 1)
    ensures Counted(ReportAfter(rows, owner, picked, env, n), o) == ReportAfter(rows, owner, picked, env, n + 1)
  {
  }

  method SendOpeningNotices(
      table: Signups, owner: string, apply: bool, limit: Option<int>, deadlineAt: Option<int>,
      start: int, env: nat -> Turn)
    returns (report: Report, ghost picked: seq<Tenant>)
    requires forall k :: ThreeTries(env(k))
    modifies table
    ensures report.dryRun <==> !apply
    ensures report.waiting == |Waiting(old(table.rows), owner)|
    ensures report.remaining == |Waiting(table.rows, owner)|
    ensures Waiting(table.rows, owner) ==
      set t | t in table.rows && table.rows[t].openedNotifiedAt.None? && t != owner
    ensures apply ==> PicksOldest(old(table.rows), owner, start, EffectiveLimit(limit), picked)
    ensures !apply ==>
      table.rows == old(table.rows) && report == Report(true, report.waiting, 0, 0, 0, 0, report.waiting)
    ensures apply ==>
      && OldestFirst(old(table.rows), Selectable(old(table.rows), owner, start), EffectiveLimit(limit), picked)
      && var n := Reached(env, deadlineAt, 0, |picked|);
      && table.rows == RowsAfter(old(table.rows), owner, picked, env, n)
      && CountsPasses(report, old(table.rows), owner, picked, env, n)
  {
    var waiting := |Waiting(table.rows, owner)|;
    if !apply { return Report(true, waiting, 0, 0, 0, 0, waiting), []; }
    var chosen := SelectOldest(table, owner, start, EffectiveLimit(limit));
    var counts := WorkThrough(table, owner, chosen, deadlineAt, env);
    picked := chosen;
    ReportCountsPasses(old(table.rows), owner, picked, env, Reached(env, deadlineAt, 0, |picked|));
    report := counts.(waiting := waiting, remaining := |Waiting(table.rows, owner)|);
  }

  method WorkThrough(table: Signups, owner: string, chosen: seq<Tenant>, deadlineAt: Option<int>, env: nat -> Turn)
    returns (counts: Report)
    requires (forall t | t in chosen :: t in table.rows) && forall k :: ThreeTries(env(k))
    modifies table
    ensures var n := Reached(env, deadlineAt, 0, |chosen|);
      && table.rows == RowsAfter(old(table.rows), owner, chosen, env, n)
      && counts == ReportAfter(old(table.rows), owner, chosen, env, n)
  {
    hide Pass, Counted;
    counts := Report(false, 0, 0, 0, 0, 0, 0);
    ghost var was := table.rows;
    var i := 0;
    while i < |chosen|
      invariant 0 <= i <= |chosen|
      invariant Reached(env, deadlineAt, i, |chosen|) == Reached(env, deadlineAt, 0, |chosen|)
      invariant table.rows == RowsAfter(was, owner, chosen, env, i)
      invariant counts == ReportAfter(was, owner, chosen, env, i)
    {
      if deadlineAt.Some? && env(i).clock >= deadlineAt.value { break; }
      var outcome := RunPass(table, owner, chosen[i], env(i));
      OnePassMore(was, owner, chosen, env, i, table.rows, outcome);
      counts := Counted(counts, outcome);
      i := i + 1;
    }
  }

  /** The account is the owner's, in whatever letter case, or has no id. */
  predicate IsPassedOver(who: Tenant, owner: string) {
    || who == ""
    || (|who| == |owner|
      && forall i | 0 <= i < |who| ::
        owner[i] == if 'A' <= who[i] <= 'Z' then (who[i] as int + 32) as char else who[i])
  }

  /** How a pass ends, case by case, and that it touches no row but its own, and none of the owner's. */
  lemma {:induction false} PassEndsExactly(rows: map<Tenant, Row>, owner: string, who: Tenant, t: Turn)
    requires who in rows && ThreeTries(t)
    ensures var (after, o) := Pass(rows, owner, who, t);
      && (o == Skipped <==> IsPassedOver(who, owner))
      && (IsPassedOver(who, owner) ==> after == rows)
      && after.Keys == rows.Keys && (forall u | u in rows && u != who :: after[u] == rows[u])
      && var tried, claimed := !IsPassedOver(who, owner) && t.claim == Done, IsFree(rows[who], t.at);
      && (o == NotClaimed <==> tried && !claimed)
      && (o == SentOut <==> tried && claimed && t.lookup == Address && t.send == Delivered)
      && (o == TimedOut <==> tried && claimed && t.lookup == Address && t.send == SendTimedOut)
      && (o == NoEmail <==> tried && claimed && t.lookup == NoAddress && t.noAddressMark.reply == Done)
  {
    OwnerByCharacter(who, owner);
    hide IsOwner, MarkTries, OpeningReleased, Opened;
  }

  /** Whatever a call does, no row of the owner's, in whatever letter case, is ever changed by it. */
  lemma {:induction false} OwnerIsNeverMailed(
      rows: map<Tenant, Row>, owner: string, picked: seq<Tenant>, env: nat -> Turn, n: nat, who: Tenant)
    requires n <= |picked| && (forall t | t in picked :: t in rows) && (forall k :: ThreeTries(env(k)))
    requires who in rows && IsPassedOver(who, owner)
    ensures RowsAfter(rows, owner, picked, env, n)[who] == rows[who]
  {
    if n > 0 {
      OwnerIsNeverMailed(rows, owner, picked, env, n - 1, who);
      PassEndsExactly(RowsAfter(rows, owner, picked, env, n - 1), owner, picked[n - 1], env(n - 1));
      hide Pass, IsPassedOver;
    }
  }

  /** The loop body: which statements run on the row, in which order, and how the pass is counted. */
  method RunPass(table: Signups, owner: string, who: Tenant, turn: Turn) returns (outcome: Outcome)
    requires who in table.rows && ThreeTries(turn)
    modifies table
    ensures (table.rows, outcome) == Pass(old(table.rows), owner, who, turn)
  {
    if who == "" || IsOwner(who, owner) { return Skipped; }
    ghost var was := table.rows;
    outcome := WorkOnRow(table, who, turn);
    assert table.rows == was[who := WorkRow(was[who], turn).0];
  }

  method WorkOnRow(table: Signups, who: Tenant, turn: Turn) returns (outcome: Outcome)
    requires who in table.rows && ThreeTries(turn)
    modifies table
    ensures table.rows.Keys == old(table.rows.Keys)
    ensures forall t | t in table.rows && t != who :: table.rows[t] == old(table.rows)[t]
    ensures (table.rows[who], outcome) == WorkRow(old(table.rows)[who], turn)
  {
    if turn.claim != Done {
      if Applied(turn.claim) { var _ := table.ClaimOpening(who, turn.at); }
      return Failed;
    }
    var claimed := table.ClaimOpening(who, turn.at);
    if !claimed { return NotClaimed; }
    if turn.lookup == NoAddress {
      if Applied(turn.noAddressMark.reply) { table.MarkOpened(who, turn.noAddressMark.at); }
      if turn.noAddressMark.reply == Done { return NoEmail; }
    } else if turn.lookup == Address && turn.send == SendTimedOut {
      return TimedOut;
    } else if turn.lookup == Address && turn.send == Delivered {
      MarkOpenedWithRetries(table, who, turn.marks);
      return SentOut;
    }
    if Applied(turn.release) { table.ReleaseOpening(who, Some(turn.at)); }
    outcome := Failed;
  }

  // ── The accounting of one call ────────────────────────────────────────────

  predicate Told(r: Row) { r.openedNotifiedAt.Some? }

  /** How many of the first `n` passes end in `o` and leave the account told, or not told. */
  function TallyTold(
    rows: map<Tenant, Row>, owner: string, picked: seq<Tenant>, env: nat -> Turn, n: nat, o: Outcome, told: bool): nat
    requires n <= |picked| && (forall t | t in picked :: t in rows) && (forall k :: ThreeTries(env(k)))
  {
    if n == 0 then 0
    else
      TallyTold(rows, owner, picked, env, n - 1, o, told)
      + if OutcomeAt(rows, owner, picked, env, n - 1) == o
          && Told(RowsAfter(rows, owner, picked, env, n)[picked[n - 1]]) == told then 1 else 0
  }

  lemma MarkTriesTell(r: Row, marks: seq<Try>, k: nat)
    requires k <= |marks| && !Told(r)
    ensures Told(MarkTries(r, marks, k)) <==> exists j | k <= j < |marks| :: Applied(marks[j].reply)
    decreases |marks| - k
  {
    if k < |marks| && marks[k].reply == ThrewLost {
      MarkTriesTell(r, marks, k + 1);
    } else if k < |marks| {
      MarkedStays(Opened(r, marks[k].at), marks, k + 1);
    }
  }

  lemma {:induction false} MarkedStays(r: Row, marks: seq<Try>, k: nat)
    requires k <= |marks| && Told(r)
    ensures Told(MarkTries(r, marks, k))
    decreases |marks| - k
  {
    if k < |marks| {
      var after := if Applied(marks[k].reply) then Opened(r, marks[k].at) else r;
      MarkedStays(after, marks, k + 1);
    }
  }

  /** Which passes leave an account told that was not: what the two correction terms of the account count. */
  lemma {:induction false} WhoIsTold(r: Row, t: Turn)
    requires ThreeTries(t) && !Told(r)
    ensures var (after, o) := WorkRow(r, t);
      && (o == NoEmail ==> Told(after))
      && (o == SentOut ==> (Told(after) <==> exists j | 0 <= j < 3 :: Applied(t.marks[j].reply)))
      && (o == Failed ==> (Told(after) <==>
           t.claim == Done && t.lookup == NoAddress && t.noAddressMark.reply == ThrewApplied))
      && (o == NotClaimed || o == TimedOut ==> !Told(after))
  {
    MarkTriesTell(r.(openClaimedAt := Some(Sec(t.at))), t.marks, 0);
  }

  /** A row that has not come up yet is as it was, and one that has come up stays as its pass left it. */
  lemma {:induction false} UntouchedRow(
      rows: map<Tenant, Row>, owner: string, picked: seq<Tenant>, env: nat -> Turn, n: nat, who: Tenant)
    requires n <= |picked| && (forall t | t in picked :: t in rows) && (forall k :: ThreeTries(env(k)))
    requires who in rows && who !in picked[..n]
    ensures RowsAfter(rows, owner, picked, env, n)[who] == rows[who]
  {
    if n > 0 {
      assert picked[..n] == picked[..n - 1] + [picked[n - 1]];
      UntouchedRow(rows, owner, picked, env, n - 1, who);
    }
  }

  lemma {:induction false} OldestAreDistinct(rows: map<Tenant, Row>, pool: set<Tenant>, limit: nat, picked: seq<Tenant>)
    requires OldestFirst(rows, pool, limit, picked)
    ensures forall i, j | 0 <= i < j < |picked| :: picked[i] != picked[j]
    ensures forall n | 0 <= n < |picked| :: picked[n] !in picked[..n]
  {
    forall i, j | 0 <= i < j < |picked| ensures picked[i] != picked[j] {
      BeforeIsStrictOrder(rows, picked[i], picked[j], picked[j]);
    }
  }

  /** A pass takes at most its own account off the waiting list. */
  lemma {:induction false} PassTakesOne(rows: map<Tenant, Row>, owner: string, who: Tenant, t: Turn)
    requires who in Waiting(rows, owner) && ThreeTries(t)
    ensures var (after, o) := Pass(rows, owner, who, t);
      && after.Keys == rows.Keys
      && |Waiting(after, owner)| == |Waiting(rows, owner)| - (if Told(after[who]) then 1 else 0)
      && (o == NoEmail ==> Told(after[who])) && (Told(after[who]) ==> o in {NoEmail, SentOut, Failed})
      && (forall u | u in rows && u != who :: after[u] == rows[u])
  {
    var (after, o) := Pass(rows, owner, who, t);
    WhoIsTold(rows[who], t);
    if Told(after[who]) {
      assert Waiting(after, owner) == Waiting(rows, owner) - {who};
    } else {
      assert Waiting(after, owner) == Waiting(rows, owner);
    }
  }

  /** The tallies of `n + 1` passes from those of `n` passes. */
  lemma TalliesStep(
      rows: map<Tenant, Row>, owner: string, picked: seq<Tenant>, env: nat -> Turn, n: nat, o: Outcome, told: bool)
    requires n < |picked| && (forall t | t in picked :: t in rows) && (forall k :: ThreeTries(env(k)))
    ensures var (after, out) := Pass(RowsAfter(rows, owner, picked, env, n), owner, picked[n], env(n));
      && RowsAfter(rows, owner, picked, env, n + 1) == after && after.Keys == rows.Keys
      && Tally(rows, owner, picked, env, n + 1, o) ==
        Tally(rows, owner, picked, env, n, o) + (if out == o then 1 else 0)
      && TallyTold(rows, owner, picked, env, n + 1, o, told) ==
        TallyTold(rows, owner, picked, env, n, o, told) + (if out == o && Told(after[picked[n]]) == told then 1 else 0)
  {
  }

  /**
   * The count of waiting accounts falls by one for every account mailed and every account without an address,
   * except for mails that could not be marked; it also falls for an account without an address whose mark was
   * applied though its statement threw, which the call counts as failed.
   */
  lemma {:induction false} WaitingFalls(
      rows: map<Tenant, Row>, owner: string, picked: seq<Tenant>, env: nat -> Turn, n: nat)
    requires n <= |picked| && (forall t | t in picked :: t in rows) && (forall k :: ThreeTries(env(k)))
    requires forall t | t in picked :: t in Waiting(rows, owner)
    requires forall k | 0 <= k < |picked| :: picked[k] !in picked[..k]
    ensures |Waiting(RowsAfter(rows, owner, picked, env, n), owner)| ==
      |Waiting(rows, owner)|
      - Tally(rows, owner, picked, env, n, SentOut) - Tally(rows, owner, picked, env, n, NoEmail)
      + TallyTold(rows, owner, picked, env, n, SentOut, false) - TallyTold(rows, owner, picked, env, n, Failed, true)
  {
    if n > 0 {
      hide *;
      WaitingFalls(rows, owner, picked, env, n - 1);
      TalliesStep(rows, owner, picked, env, n - 1, SentOut, false);
      TalliesStep(rows, owner, picked, env, n - 1, Failed, true);
      TalliesStep(rows, owner, picked, env, n - 1, NoEmail, true);
      NextStillWaits(rows, owner, picked, env, n - 1);
      PassTakesOne(RowsAfter(rows, owner, picked, env, n - 1), owner, picked[n - 1], env(n - 1));
    }
  }

  lemma {:induction false} NextStillWaits(
      rows: map<Tenant, Row>, owner: string, picked: seq<Tenant>, env: nat -> Turn, n: nat)
    requires n < |picked| && (forall t | t in picked :: t in rows) && (forall k :: ThreeTries(env(k)))
    requires picked[n] in Waiting(rows, owner) && picked[n] !in picked[..n]
    ensures picked[n] in Waiting(RowsAfter(rows, owner, picked, env, n), owner)
  {
    hide Pass;
    UntouchedRow(rows, owner, picked, env, n, picked[n]);
  }

  lemma {:induction false} TalliesAreDisjoint(
      rows: map<Tenant, Row>, owner: string, picked: seq<Tenant>, env: nat -> Turn, n: nat)
    requires n <= |picked| && (forall t | t in picked :: t in rows) && (forall k :: ThreeTries(env(k)))
    ensures Tally(rows, owner, picked, env, n, SentOut) + Tally(rows, owner, picked, env, n, Failed)
      + Tally(rows, owner, picked, env, n, TimedOut) + Tally(rows, owner, picked, env, n, NoEmail) <= n
  {
    if n > 0 { TalliesAreDisjoint(rows, owner, picked, env, n - 1); }
  }

  /** What a solo real call reports and leaves, in terms of SendOpeningNotices' own contract. */
  lemma {:induction false} CallAccounts(
      rows: map<Tenant, Row>, owner: string, limit: Option<int>, start: int, deadlineAt: Option<int>,
      env: nat -> Turn, picked: seq<Tenant>, report: Report)
    requires forall k :: ThreeTries(env(k))
    requires OldestFirst(rows, Selectable(rows, owner, start), EffectiveLimit(limit), picked)
    requires var n := Reached(env, deadlineAt, 0, |picked|);
      && (forall t | t in picked :: t in rows) && CountsPasses(report, rows, owner, picked, env, n)
      && report.waiting == |Waiting(rows, owner)|
      && report.remaining == |Waiting(RowsAfter(rows, owner, picked, env, n), owner)|
    ensures report.sent + report.failed + report.timedOut + report.noEmail <= EffectiveLimit(limit) <= BATCH_MAX
    ensures var n := Reached(env, deadlineAt, 0, |picked|);
      report.remaining == report.waiting - report.sent - report.noEmail
        + TallyTold(rows, owner, picked, env, n, SentOut, false) - TallyTold(rows, owner, picked, env, n, Failed, true)
  {
    var n := Reached(env, deadlineAt, 0, |picked|);
    OldestAreDistinct(rows, Selectable(rows, owner, start), EffectiveLimit(limit), picked);
    forall t | t in picked ensures t in Waiting(rows, owner) {
      assert t in Selectable(rows, owner, start);
    }
    WaitingFalls(rows, owner, picked, env, n);
    TalliesAreDisjoint(rows, owner, picked, env, n);
  }

  /**
   * An account without an address whose mark is applied but reported as failed: the call counts one waiting, none
   * sent, none without an address and one failed, and yet none remains.
   */
  lemma {:induction false} FailedMarkRetires() returns (rows: map<Tenant, Row>, turn: Turn, report: Report)
    ensures ThreeTries(turn) && rows.Keys == {"t"}
    ensures report == Report(false, 1, 0, 1, 0, 0, 0)
    ensures CountsPasses(report, rows, "o", ["t"], _ => turn, 1)
    ensures report.waiting == |Waiting(rows, "o")|
    ensures report.remaining == |Waiting(RowsAfter(rows, "o", ["t"], _ => turn, 1), "o")|
  {
    var mark := Try(0, ThrewApplied);
    turn := Turn(0, 0, Done, NoAddress, mark, Delivered, [mark, mark, mark], Done);
    rows := map["t" := NewRow("direct", "2026", false, 0)];
    report := Report(false, 1, 0, 1, 0, 0, 0);
    var env := _ => turn;
    assert !IsOwner("t", "o") by { assert Lowered("t")[0] == 't'; }
    assert Waiting(rows, "o") == {"t"};
    assert OutcomeAt(rows, "o", ["t"], env, 0) == Failed;
    assert Waiting(RowsAfter(rows, "o", ["t"], env, 1), "o") == {};
  }

  // ── Calls without a failure ───────────────────────────────────────────────

  /** Nothing throws, refuses or times out, and the clock does not run back. */
  predicate CleanTurn(t: Turn, start: int) {
    && ThreeTries(t) && t.claim == Done && t.at >= start && t.lookup != LookupThrew
    && t.noAddressMark.reply == Done && t.send == Delivered && t.marks[0].reply == Done
  }

  /** No account that waits is held by another call at `now`, or is a spelling of the owner's. */
  predicate NoneHeld(rows: map<Tenant, Row>, owner: string, now: int) {
    forall t | t in Waiting(rows, owner) :: t in Selectable(rows, owner, now) && t != "" && !IsOwner(t, owner)
  }

  /** A clean pass takes its account off the waiting list and touches no other row. */
  lemma {:induction false} CleanPass(rows: map<Tenant, Row>, owner: string, who: Tenant, t: Turn, start: int)
    requires CleanTurn(t, start) && who in Selectable(rows, owner, start) && who != "" && !IsOwner(who, owner)
    ensures var after := Pass(rows, owner, who, t).0;
      && after.Keys == rows.Keys && Waiting(after, owner) == Waiting(rows, owner) - {who}
      && (forall u | u in rows && u != who :: after[u] == rows[u])
  {
  }

  /** The accounts a clean call works on: each waiting, free, not the owner's, and picked once. */
  ghost predicate GoodPicks(rows: map<Tenant, Row>, owner: string, start: int, picked: seq<Tenant>) {
    && (forall t | t in picked :: t in rows && t in Selectable(rows, owner, start) && t != "" && !IsOwner(t, owner))
    && (forall k | 0 <= k < |picked| :: picked[k] !in picked[..k])
  }

  lemma {:induction false} PicksAreGood(
      rows: map<Tenant, Row>, owner: string, limit: nat, start: int, picked: seq<Tenant>)
    requires NoneHeld(rows, owner, start) && OldestFirst(rows, Selectable(rows, owner, start), limit, picked)
    ensures GoodPicks(rows, owner, start, picked)
  {
    var pool := Selectable(rows, owner, start);
    OldestAreDistinct(rows, pool, limit, picked);
    forall t | t in picked ensures t in pool && t in Waiting(rows, owner) { }
  }

  /** After `n` clean passes exactly the first `n` picked accounts have left the waiting list. */
  lemma {:induction false} CleanPasses(
      rows: map<Tenant, Row>, owner: string, start: int, picked: seq<Tenant>, env: nat -> Turn, n: nat)
    requires (forall k :: ThreeTries(env(k))) && (forall k :: CleanTurn(env(k), start))
    requires n <= |picked| && (forall t | t in picked :: t in rows) && GoodPicks(rows, owner, start, picked)
    ensures var after := RowsAfter(rows, owner, picked, env, n);
      && Waiting(after, owner) == Waiting(rows, owner) - (set t | t in picked[..n])
      && (forall t | t in rows && t !in picked[..n] :: after[t] == rows[t])
  {
    hide Pass, CleanTurn, OpeningClaimable, WorkRow, Waiting, IsOwner;
    if n > 0 {
      CleanPasses(rows, owner, start, picked, env, n - 1);
      var who, before := picked[n - 1], RowsAfter(rows, owner, picked, env, n - 1);
      assert picked[..n] == picked[..n - 1] + [who];
      assert who in picked && who in Selectable(rows, owner, start) && before[who] == rows[who];
      CleanPass(before, owner, who, env(n - 1), start);
    }
  }

  lemma {:induction false} DistinctCount(s: seq<Tenant>)
    requires forall i, j | 0 <= i < j < |s| :: s[i] != s[j]
    ensures |set t | t in s| == |s|
  {
    if s != [] {
      var n := |s| - 1;
      DistinctCount(s[..n]);
      assert (set t | t in s) == (set t | t in s[..n]) + {s[n]};
    }
  }

  /** One real call in which nothing fails, with no deadline: from the rows before to the rows after. */
  ghost predicate CleanCall(
    rows: map<Tenant, Row>, owner: string, limit: Option<int>, start: int, after: map<Tenant, Row>)
  {
    exists picked: seq<Tenant>, env: nat -> Turn ::
      && (forall k :: ThreeTries(env(k))) && (forall k :: CleanTurn(env(k), start))
      && OldestFirst(rows, Selectable(rows, owner, start), EffectiveLimit(limit), picked)
      && (forall t | t in picked :: t in rows)
      && after == RowsAfter(rows, owner, picked, env, |picked|)
  }

  /** A call in which nothing fails retires exactly min(limit, waiting) accounts and holds none of the others. */
  lemma {:induction false} CleanCallRetires(
      rows: map<Tenant, Row>, owner: string, limit: Option<int>, start: int, after: map<Tenant, Row>, later: int)
    requires CleanCall(rows, owner, limit, start, after) && NoneHeld(rows, owner, start) && start <= later
    ensures |Waiting(after, owner)| ==
      |Waiting(rows, owner)| - Min(EffectiveLimit(limit), |Waiting(rows, owner)|)
    ensures NoneHeld(after, owner, later)
  {
    hide *;
    var picked: seq<Tenant>, env: nat -> Turn := CallWitness(rows, owner, limit, start, after);
    PicksAreGood(rows, owner, EffectiveLimit(limit), start, picked);
    CleanPasses(rows, owner, start, picked, env, |picked|);
    assert picked[..|picked|] == picked;
    AllWaitingAreSelectable(rows, owner, start);
    PickedCount(rows, Waiting(rows, owner), EffectiveLimit(limit), picked);
    UnpickedUnchanged(rows, owner, picked, after);
    StillClaimable(rows, after, owner, start, later);
  }

  lemma CallWitness(rows: map<Tenant, Row>, owner: string, limit: Option<int>, start: int, after: map<Tenant, Row>)
    returns (picked: seq<Tenant>, env: nat -> Turn)
    requires CleanCall(rows, owner, limit, start, after)
    ensures (forall k :: ThreeTries(env(k))) && (forall k :: CleanTurn(env(k), start))
    ensures OldestFirst(rows, Selectable(rows, owner, start), EffectiveLimit(limit), picked)
    ensures (forall t | t in picked :: t in rows) && after == RowsAfter(rows, owner, picked, env, |picked|)
  {
    hide CleanTurn, ThreeTries, OldestFirst, RowsAfter;
    picked, env :|
      && (forall k :: ThreeTries(env(k))) && (forall k :: CleanTurn(env(k), start))
      && OldestFirst(rows, Selectable(rows, owner, start), EffectiveLimit(limit), picked)
      && (forall t | t in picked :: t in rows)
      && after == RowsAfter(rows, owner, picked, env, |picked|);
  }

  lemma AllWaitingAreSelectable(rows: map<Tenant, Row>, owner: string, now: int)
    requires NoneHeld(rows, owner, now)
    ensures Waiting(rows, owner) == Selectable(rows, owner, now)
  {
  }

  lemma UnpickedUnchanged(rows: map<Tenant, Row>, owner: string, picked: seq<Tenant>, after: map<Tenant, Row>)
    requires Waiting(after, owner) == Waiting(rows, owner) - (set t | t in picked)
    requires after.Keys == rows.Keys && forall t | t in rows && t !in picked :: after[t] == rows[t]
    ensures Waiting(after, owner) <= Waiting(rows, owner)
    ensures forall t | t in Waiting(after, owner) :: t in rows && t in after && after[t] == rows[t]
  {
  }

  lemma {:induction false} PickedCount(rows: map<Tenant, Row>, pool: set<Tenant>, limit: nat, picked: seq<Tenant>)
    requires OldestFirst(rows, pool, limit, picked)
    ensures |pool - (set t | t in picked)| == |pool| - Min(limit, |pool|)
  {
    OldestAreDistinct(rows, pool, limit, picked);
    DistinctCount(picked);
    assert (set t | t in picked) <= pool;
  }

  lemma {:induction false} StillClaimable(
      rows: map<Tenant, Row>, after: map<Tenant, Row>, owner: string, start: int, later: int)
    requires NoneHeld(rows, owner, start) && start <= later && Waiting(after, owner) <= Waiting(rows, owner)
    requires forall t | t in Waiting(after, owner) :: t in rows && t in after && after[t] == rows[t]
    ensures NoneHeld(after, owner, later)
  {
  }

  /** The rows before and after each of a series of calls in which nothing fails. */
  ghost predicate CleanSeries(states: seq<map<Tenant, Row>>, owner: string, limit: Option<int>, starts: seq<int>) {
    && |states| == |starts| + 1
    && (forall i | 0 <= i < |starts| :: CleanCall(states[i], owner, limit, starts[i], states[i + 1]))
    && (forall i | 0 < i < |starts| :: starts[i - 1] <= starts[i])
  }

  /** Repeated calls reach zero: n calls retire min(n * limit, waiting) accounts. */
  lemma {:induction false} RepeatedCallsReachZero(
      states: seq<map<Tenant, Row>>, owner: string, limit: Option<int>, starts: seq<int>, n: nat)
    requires CleanSeries(states, owner, limit, starts) && starts != [] && n <= |starts|
    requires NoneHeld(states[0], owner, starts[0])
    ensures |Waiting(states[n], owner)| ==
      |Waiting(states[0], owner)| - Min(n * EffectiveLimit(limit), |Waiting(states[0], owner)|)
    ensures n < |starts| ==> NoneHeld(states[n], owner, starts[n])
  {
    hide CleanCall, EffectiveLimit;
    if n > 0 {
      RepeatedCallsReachZero(states, owner, limit, starts, n - 1);
      var later := if n < |starts| then starts[n] else starts[n - 1];
      CleanCallRetires(states[n - 1], owner, limit, starts[n - 1], states[n], later);
      assert n * EffectiveLimit(limit) == (n - 1) * EffectiveLimit(limit) + EffectiveLimit(limit);
    }
  }

  // ── A pass is a run of the once-only protocol ─────────────────────────────

  /** The clock never runs back during a pass. */
  predicate ClockAscends(t: Turn) {
    ThreeTries(t) && t.at <= t.noAddressMark.at && t.at <= t.marks[0].at <= t.marks[1].at <= t.marks[2].at
  }

  /** When markOpenedWithRetries marks the account: the time of the first try that is applied. */
  function MarkTime(marks: seq<Try>, k: nat): Option<int>
    requires k <= |marks|
    decreases |marks| - k
  {
    if k == |marks| then None
    else if Applied(marks[k].reply) then Some(marks[k].at)
    else MarkTime(marks, k + 1)
  }

  /** Whether the claim of a pass has its mail delivered when the pass is over, and when it marked the account. */
  predicate PassDelivers(t: Turn) { t.lookup == Address && (t.send == Delivered || t.send == SendRefused(true)) }

  function PassMarks(t: Turn): Option<int>
    requires ThreeTries(t)
  {
    match t.lookup
    case LookupThrew => None
    case NoAddress => if Applied(t.noAddressMark.reply) then Some(t.noAddressMark.at) else None
    case Address => if t.send == Delivered then MarkTime(t.marks, 0) else None
  }

  lemma {:induction false} MarkTriesAreARun(
      start: State, trace: seq<Action>, s: State, i: nat, marks: seq<Try>, k: nat)
    returns (longer: seq<Action>, end: State)
    requires s == Exec(start, trace) && s.row.Some? && i < |s.openings| && |marks| == 3 && k <= 3
    requires k < 3 ==> s.openings[i].phase == Sent(k)
    requires forall j | k <= j < 3 :: s.now <= marks[j].at
    requires forall j, l | k <= j < l < 3 :: marks[j].at <= marks[l].at
    ensures end == Exec(start, longer) && end.row == Some(MarkTries(s.row.value, marks, k))
    ensures |end.openings| == |s.openings| && end.openings[..i] == s.openings[..i]
    ensures end.openings[i].at == s.openings[i].at && end.openings[i].delivered == s.openings[i].delivered
    ensures end.openings[i].released == s.openings[i].released
    ensures end.openings[i].markedAt ==
      if s.openings[i].markedAt.Some? then s.openings[i].markedAt else MarkTime(marks, k)
    decreases 3 - k
  {
    longer, end := trace, s;
    if k < 3 {
      longer, end := Then(start, longer, end, Tick(marks[k].at - s.now));
      longer, end := Then(start, longer, end, OpenMark(i, marks[k].reply));
      if marks[k].reply != Done { longer, end := MarkTriesAreARun(start, longer, end, i, marks, k + 1); }
    }
  }

  /** The last claim of `s` is fresh, and working it as turn `t` asks leads to `end`. */
  predicate WorksClaim(s: State, t: Turn, end: State)
    requires ThreeTries(t) && s.row.Some? && s.openings != []
  {
    var i := |s.openings| - 1;
    && end.row == Some(WorkClaim(s.row.value, t).0)
    && |end.openings| == |s.openings| && end.openings[..i] == s.openings[..i] && end.openings[i].at == t.at
    && (end.openings[i].delivered <==> PassDelivers(t)) && end.openings[i].markedAt == PassMarks(t)
    && (end.openings[i].released <==> WorkClaim(s.row.value, t).1 == Failed && Applied(t.release))
  }

  predicate HoldsFreshClaim(s: State, t: Turn) {
    && s.row.Some? && s.openings != [] && s.now == t.at
    && s.openings[|s.openings| - 1] == Claim(t.at, Held, false, false, None)
  }

  /** One action on the last claim: what the row and that claim become; the others stay. */
  lemma LastClaimStep(start: State, trace: seq<Action>, s: State, a: Action, c: Claim, r: Row)
    returns (longer: seq<Action>, end: State)
    requires s == Exec(start, trace) && s.row.Some? && s.openings != []
    requires var i := |s.openings| - 1;
      Next(s, a) == s.(openings := s.openings[i := c], row := Some(r))
    ensures end == Exec(start, longer) && end == s.(openings := s.openings[|s.openings| - 1 := c], row := Some(r))
  {
    longer, end := Then(start, trace, s, a);
  }

  lemma DeliveryIsAStep(s: State, t: Turn)
    requires HoldsFreshClaim(s, t)
    ensures var i := |s.openings| - 1;
      Next(s, OpenSend(i, Delivered)) == s.(openings := s.openings[i := Claim(t.at, Sent(0), true, false, None)])
  {
  }

  lemma {:induction false} MailIsWorkedInARun(start: State, trace: seq<Action>, s: State, t: Turn)
    returns (longer: seq<Action>, end: State)
    requires s == Exec(start, trace) && HoldsFreshClaim(s, t) && ClockAscends(t)
    requires t.lookup == Address && t.send == Delivered
    ensures end == Exec(start, longer) && WorksClaim(s, t, end)
  {
    hide Next, Exec, MarkTries, GiveBack;
    var i := |s.openings| - 1;
    DeliveryIsAStep(s, t);
    longer, end := Then(start, trace, s, OpenSend(i, Delivered));
    longer, end := MarkTriesAreARun(start, longer, end, i, t.marks, 0);
  }

  /** Giving the last claim back after a failure that left the row as `s` has it. */
  lemma {:induction false} GiveBackIsARun(start: State, trace: seq<Action>, s: State, t: Turn)
    returns (longer: seq<Action>, end: State)
    requires s == Exec(start, trace) && s.row.Some? && s.openings != []
    requires var c := s.openings[|s.openings| - 1]; c.at == t.at && c.phase == GivingBack
    ensures end == Exec(start, longer) && end.row == Some(GiveBack(s.row.value, t).0)
    ensures var i := |s.openings| - 1; var c := s.openings[i];
      && |end.openings| == |s.openings| && end.openings[..i] == s.openings[..i]
      && end.openings[i] == c.(phase := Finished, released := Applied(t.release))
  {
    var i := |s.openings| - 1;
    longer, end := LastClaimStep(
      start, trace, s, OpenRelease(i, t.release),
      s.openings[i].(phase := Finished, released := Applied(t.release)), GiveBack(s.row.value, t).0);
  }

  lemma {:induction false} NoAddressIsWorkedInARun(start: State, trace: seq<Action>, s: State, t: Turn)
    returns (longer: seq<Action>, end: State)
    requires s == Exec(start, trace) && HoldsFreshClaim(s, t) && ClockAscends(t) && t.lookup == NoAddress
    ensures end == Exec(start, longer) && WorksClaim(s, t, end)
  {
    var i, m := |s.openings| - 1, t.noAddressMark;
    longer, end := Then(start, trace, s, Tick(m.at - t.at));
    longer, end := LastClaimStep(
      start, longer, end, OpenNoAddress(i, m.reply),
      Claim(t.at, if m.reply == Done then Finished else GivingBack, false, false,
        if Applied(m.reply) then Some(m.at) else None),
      if Applied(m.reply) then Opened(s.row.value, m.at) else s.row.value);
    hide Next, Exec;
    if m.reply != Done { longer, end := GiveBackIsARun(start, longer, end, t); }
  }

  /** The step of a call whose lookup or send throws. */
  function Failing(s: State, t: Turn): Action
    requires s.openings != []
  {
    if t.lookup == LookupThrew then OpenLookupThrew(|s.openings| - 1) else OpenSend(|s.openings| - 1, t.send)
  }

  lemma FailureIsAStep(s: State, t: Turn)
    requires HoldsFreshClaim(s, t) && (t.lookup == LookupThrew || (t.lookup == Address && t.send != Delivered))
    ensures var timedOut := t.lookup == Address && t.send == SendTimedOut;
      Next(s, Failing(s, t)) == s.(openings := s.openings[|s.openings| - 1 :=
        Claim(t.at, if timedOut then AwaitingArrival else GivingBack, PassDelivers(t), false, None)])
  {
  }

  lemma {:induction false} FailureIsWorkedInARun(start: State, trace: seq<Action>, s: State, t: Turn)
    returns (longer: seq<Action>, end: State)
    requires s == Exec(start, trace) && HoldsFreshClaim(s, t) && ClockAscends(t)
    requires t.lookup == LookupThrew || (t.lookup == Address && t.send != Delivered)
    ensures end == Exec(start, longer) && WorksClaim(s, t, end)
  {
    var timedOut := t.lookup == Address && t.send == SendTimedOut;
    FailureIsAStep(s, t);
    hide Next, Exec, Failing;
    longer, end := LastClaimStep(start, trace, s, Failing(s, t),
      Claim(t.at, if timedOut then AwaitingArrival else GivingBack, PassDelivers(t), false, None), s.row.value);
    if !timedOut { longer, end := GiveBackIsARun(start, longer, end, t); }
  }

  lemma {:induction false} ClaimIsWorkedInARun(start: State, trace: seq<Action>, s: State, t: Turn)
    returns (longer: seq<Action>, end: State)
    requires s == Exec(start, trace) && HoldsFreshClaim(s, t) && ClockAscends(t)
    ensures end == Exec(start, longer) && WorksClaim(s, t, end)
  {
    hide *;
    if t.lookup == Address && t.send == Delivered {
      longer, end := MailIsWorkedInARun(start, trace, s, t);
    } else if t.lookup == NoAddress {
      longer, end := NoAddressIsWorkedInARun(start, trace, s, t);
    } else {
      longer, end := FailureIsWorkedInARun(start, trace, s, t);
    }
  }

  /**
   * What an uninterrupted pass does to a row is a run of the protocol of OnceOnlyMail by one more call. The claim it
   * takes has its mail delivered exactly when the send returned, or threw with the mail on its way; it is marked at
   * the first try that was applied, so AtMostOneOpening asks of a pass that this try comes within CLAIM_STALE_MS of
   * the claim; and it is given back exactly when the pass counts as failed and the release was applied.
   */
  lemma {:induction false} PassIsAProtocolRun(s: State, t: Turn) returns (trace: seq<Action>)
    requires s.row.Some? && s.now <= t.at && ClockAscends(t)
    ensures var end := Exec(s, trace); var (after, o) := WorkRow(s.row.value, t);
      && end.row == Some(after)
      && |s.openings| <= |end.openings| <= |s.openings| + 1
      && end.openings[..|s.openings|] == s.openings
      && (|end.openings| > |s.openings| <==> OpeningClaimable(s.row.value, t.at) && Applied(t.claim))
      && (|end.openings| > |s.openings| ==>
        var c := end.openings[|s.openings|];
        && c.at == t.at
        && (c.delivered <==> t.claim == Done && PassDelivers(t))
        && c.markedAt == (if t.claim == Done then PassMarks(t) else None)
        && (c.released <==> t.claim == Done && o == Failed && Applied(t.release)))
      && (o == SentOut <==>
        |end.openings| > |s.openings| && t.claim == Done && t.lookup == Address && t.send == Delivered)
  {
    var end: State;
    trace, end := ClaimIsTakenInARun(s, t);
    if t.claim == Done && OpeningClaimable(s.row.value, t.at) {
      assert WorkRow(s.row.value, t) == WorkClaim(end.row.value, t);
      hide MarkTries, Next, PassMarks, PassDelivers, WorkRow;
      ghost var claimed := end;
      trace, end := ClaimIsWorkedInARun(s, trace, claimed, t);
      assert claimed.openings[..|s.openings|] == s.openings;
    }
  }

  lemma {:induction false} ClaimIsTakenInARun(s: State, t: Turn) returns (trace: seq<Action>, end: State)
    requires s.row.Some? && s.now <= t.at
    ensures end == Exec(s, trace) && end.now == t.at && end.row.Some?
    ensures
      if OpeningClaimable(s.row.value, t.at) && Applied(t.claim) then
        && end.row.value == s.row.value.(openClaimedAt := Some(Sec(t.at)))
        && end.openings == s.openings + [Claim(t.at, if t.claim == Done then Held else Finished, false, false, None)]
      else end.row == s.row && end.openings == s.openings
  {
    trace, end := Then(s, [], s, Tick(t.at - s.now));
    trace, end := Then(s, trace, end, OpenClaim(t.claim));
  }
}
