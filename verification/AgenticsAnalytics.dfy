/**
 * The numbers of the Agentics admin page (agenticsAnalytics.ts): grouped query rows folded into accounts, charts and
 * totals. Hours are whole UTC hours since 1970, days whole UTC days, amounts integers.
 */
module AgenticsAnalytics {
  import opened Ordering
  import opened Owner
  import Decimals
  import SignupTable

  // ── Rows and accounts ─────────────────────────────────────────────────────

  datatype Row<+D> = Row(tenant: Option<string>, data: D)

  datatype Signup = Signup(
    source: Option<string>, createdAt: Option<string>, country: Option<string>, lastSeenAt: Option<string>)

  datatype Ledger = Ledger(
    checks: int, transactions: int, sent: int, usd: int, firstAt: Option<string>, lastAt: Option<string>)

  /** A membership with its user's trimmed address. */
  datatype Member = Member(email: string, at: string, id: string)

  /** Events of one account in one hour; None for an hour that is not one. */
  datatype HourCount = HourCount(hour: Option<int>, n: int)

  datatype Raw = Raw(
    signups: seq<Row<Signup>>, emails: seq<Row<Member>>, tins: seq<Row<int>>, wallets: seq<Row<int>>,
    addresses: seq<Row<int>>, events: seq<Row<Ledger>>, hours: seq<Row<HourCount>>)

  datatype Account = Account(
    tenantId: string, email: Option<string>, country: Option<string>, source: Option<string>,
    signedUpAt: Option<string>, lastSeenAt: Option<string>, bots: int, wallets: int, addresses: int,
    checks: int, transactions: int, sent: int, received: int, usd: int,
    firstActivityAt: Option<string>, lastActivityAt: Option<string>, recentEvents: int)

  type Accounts = map<string, Account>

  function Blank(tenant: string): Account {
    Account(tenant, None, None, None, None, None, 0, 0, 0, 0, 0, 0, 0, 0, None, None, 0)
  }

  /** A row is an account's unless it names no tenant, or the owner. */
  predicate Counts(tenant: Option<string>, owner: string) {
    tenant.Some? && tenant.value != "" && !IsOwner(tenant.value, owner)
  }

  function SetSignup(a: Account, r: Signup): Account {
    a.(source := r.source, signedUpAt := r.createdAt, lastSeenAt := r.lastSeenAt,
       country := if r.country.Some? && SignupTable.IsCountryCode(r.country.value) then r.country else None)
  }

  function SetBots(a: Account, n: int): Account { a.(bots := n) }

  function SetWallets(a: Account, n: int): Account { a.(wallets := n) }

  function SetAddresses(a: Account, n: int): Account { a.(addresses := n) }

  function SetLedger(a: Account, r: Ledger): Account {
    a.(checks := r.checks, transactions := r.transactions, sent := r.sent, usd := r.usd,
       received := if r.transactions - r.sent > 0 then r.transactions - r.sent else 0,
       firstActivityAt := r.firstAt, lastActivityAt := r.lastAt)
  }

  /** The account as found, or a blank one. */
  function Opened(m: Accounts, tenant: string): Account { if tenant in m then m[tenant] else Blank(tenant) }

  /** One table folded into the accounts. */
  function Filled<D>(m: Accounts, rows: seq<Row<D>>, owner: string, put: (Account, D) -> Account): Accounts {
    if rows == [] then m
    else
      var before, r := Filled(m, rows[..|rows| - 1], owner, put), rows[|rows| - 1];
      if Counts(r.tenant, owner) then before[r.tenant.value := put(Opened(before, r.tenant.value), r.data)] else before
  }

  method Fill<D>(m0: Accounts, rows: seq<Row<D>>, owner: string, put: (Account, D) -> Account) returns (m: Accounts)
    ensures m == Filled(m0, rows, owner, put)
  {
    m := m0;
    for n := 0 to |rows|
      invariant m == Filled(m0, rows[..n], owner, put)
    {
      var r := rows[n];
      assert rows[..n + 1][..n] == rows[..n];
      if Counts(r.tenant, owner) {
        var id := r.tenant.value;
        if id !in m { m := m[id := Blank(id)]; }
        m := m[id := put(m[id], r.data)];
      }
    }
    assert rows[..|rows|] == rows;
  }

  /** What the last row of a tenant says. */
  function Last<D>(rows: seq<Row<D>>, tenant: string): Option<D> {
    if rows == [] then None
    else if rows[|rows| - 1].tenant == Some(tenant) then Some(rows[|rows| - 1].data)
    else Last(rows[..|rows| - 1], tenant)
  }

  /** The tenants the rows make accounts of. */
  ghost function Named<D>(rows: seq<Row<D>>, owner: string): set<string> {
    set r | r in rows && Counts(r.tenant, owner) :: r.tenant.value
  }

  ghost predicate Overwrites<D(!new)>(put: (Account, D) -> Account) {
    forall a, d, e :: put(put(a, d), e) == put(a, e)
  }

  lemma NamedGrows<D>(front: seq<Row<D>>, r: Row<D>, owner: string, t: string)
    ensures t in Named(front + [r], owner) <==>
      t in Named(front, owner) || (Counts(r.tenant, owner) && r.tenant.value == t)
  {
  }

  /** The accounts before their addresses and recent events are known. */
  function AccountsOf(raw: Raw, owner: string): Accounts {
    var a := Filled(map[], raw.signups, owner, SetSignup);
    var b := Filled(a, raw.tins, owner, SetBots);
    var c := Filled(b, raw.wallets, owner, SetWallets);
    var d := Filled(c, raw.addresses, owner, SetAddresses);
    Filled(d, raw.events, owner, SetLedger)
  }

  ghost function TenantsOf(raw: Raw, owner: string): set<string> {
    Named(raw.signups, owner) + Named(raw.tins, owner) + Named(raw.wallets, owner) + Named(raw.addresses, owner)
    + Named(raw.events, owner)
  }

  function PutLast<D>(a: Account, rows: seq<Row<D>>, put: (Account, D) -> Account): Account {
    if Last(rows, a.tenantId).Some? then put(a, Last(rows, a.tenantId).value) else a
  }

  /** The account of a tenant, from the last row each table has of it. */
  function AccountOf(raw: Raw, tenant: string): Account {
    var a := PutLast(Blank(tenant), raw.signups, SetSignup);
    var b := PutLast(a, raw.tins, SetBots);
    var c := PutLast(b, raw.wallets, SetWallets);
    var d := PutLast(c, raw.addresses, SetAddresses);
    PutLast(d, raw.events, SetLedger)
  }

  lemma {:induction false} NotNamedNotLast<D>(rows: seq<Row<D>>, owner: string, t: string)
    requires Counts(Some(t), owner)
    ensures t in Named(rows, owner) <==> Last(rows, t).Some?
  {
    if rows != [] {
      var front, r := rows[..|rows| - 1], rows[|rows| - 1];
      NotNamedNotLast(front, owner, t);
      assert rows == front + [r];
      NamedGrows(front, r, owner, t);
      hide Named;
    }
  }

  /** Folding a table sets an account, there already or blank, from the last row the table has of it. */
  lemma {:induction false} FoldStep<D(!new)>(
      m: Accounts, rows: seq<Row<D>>, owner: string, put: (Account, D) -> Account, t: string)
    requires Overwrites(put) && Counts(Some(t), owner) && Opened(m, t).tenantId == t
    ensures Opened(Filled(m, rows, owner, put), t) == PutLast(Opened(m, t), rows, put)
    ensures t in Filled(m, rows, owner, put) <==> t in m || t in Named(rows, owner)
  {
    if rows != [] {
      var front, r := rows[..|rows| - 1], rows[|rows| - 1];
      FoldStep(m, front, owner, put, t);
      assert rows == front + [r];
      NamedGrows(front, r, owner, t);
      hide Named;
    }
  }

  /** The accounts are those of the tenants some table names, each as its last rows say. */
  lemma {:induction false} AccountsAre(raw: Raw, owner: string, t: string)
    ensures t in AccountsOf(raw, owner) <==> t in TenantsOf(raw, owner)
    ensures t in AccountsOf(raw, owner) ==> Counts(Some(t), owner) && AccountsOf(raw, owner)[t] == AccountOf(raw, t)
  {
    if Counts(Some(t), owner) {
      hide Counts, Filled, Last, Named;
      var a := Filled(map[], raw.signups, owner, SetSignup);
      var b := Filled(a, raw.tins, owner, SetBots);
      var c := Filled(b, raw.wallets, owner, SetWallets);
      var d := Filled(c, raw.addresses, owner, SetAddresses);
      FoldStep(map[], raw.signups, owner, SetSignup, t);
      FoldStep(a, raw.tins, owner, SetBots, t);
      FoldStep(b, raw.wallets, owner, SetWallets, t);
      FoldStep(c, raw.addresses, owner, SetAddresses, t);
      FoldStep(d, raw.events, owner, SetLedger, t);
    } else {
      NeverNamed(raw, owner, t);
    }
  }

  lemma NeverNamed(raw: Raw, owner: string, t: string)
    requires !Counts(Some(t), owner)
    ensures t !in AccountsOf(raw, owner) && t !in TenantsOf(raw, owner)
  {
    NotFilled(map[], raw.signups, owner, SetSignup, t);
    var a := Filled(map[], raw.signups, owner, SetSignup);
    NotFilled(a, raw.tins, owner, SetBots, t);
    var b := Filled(a, raw.tins, owner, SetBots);
    NotFilled(b, raw.wallets, owner, SetWallets, t);
    var c := Filled(b, raw.wallets, owner, SetWallets);
    NotFilled(c, raw.addresses, owner, SetAddresses, t);
    var d := Filled(c, raw.addresses, owner, SetAddresses);
    NotFilled(d, raw.events, owner, SetLedger, t);
  }

  lemma {:induction false} NotFilled<D>(
      m: Accounts, rows: seq<Row<D>>, owner: string, put: (Account, D) -> Account, t: string)
    requires !Counts(Some(t), owner) && t !in m
    ensures t !in Filled(m, rows, owner, put) && t !in Named(rows, owner)
  {
    if rows != [] { NotFilled(m, rows[..|rows| - 1], owner, put, t); }
  }

  /**
   * What an account shows is what its last rows say, and nothing where there is none: of the transfers those sent and
   * those received are all, unless more were sent than there are, and a country is shown only as two capital letters.
   */
  lemma {:induction false} AccountShows(raw: Raw, owner: string, t: string)
    requires t in AccountsOf(raw, owner)
    ensures var a := AccountsOf(raw, owner)[t];
      && a.tenantId == t
      && (Last(raw.signups, t).Some? ==>
        var s := Last(raw.signups, t).value;
        && a.source == s.source && a.signedUpAt == s.createdAt && a.lastSeenAt == s.lastSeenAt
        && (a.country.Some? <==> s.country.Some? && SignupTable.IsCountryCode(s.country.value))
        && (a.country.Some? ==> a.country == s.country))
      && (Last(raw.events, t).Some? ==>
        var e := Last(raw.events, t).value;
        && a.checks == e.checks && a.usd == e.usd
        && a.transactions == e.transactions && a.sent == e.sent && a.received >= 0
        && (e.sent <= e.transactions ==> a.sent + a.received == a.transactions)
        && (e.sent > e.transactions ==> a.received == 0)
        && a.firstActivityAt == e.firstAt && a.lastActivityAt == e.lastAt)
      && (Last(raw.signups, t).None? ==> a.country.None? && a.signedUpAt.None? && a.source.None? && a.lastSeenAt.None?)
      && (Last(raw.events, t).None? ==>
        && a.checks == a.transactions == a.sent == a.received == a.usd == 0
        && a.firstActivityAt.None? && a.lastActivityAt.None?)
      && a.bots == CountOf(raw.tins, t) && a.wallets == CountOf(raw.wallets, t)
      && a.addresses == CountOf(raw.addresses, t)
  {
    AccountsAre(raw, owner, t);
    hide AccountsOf, Last, Counts, TenantsOf, AccountOf;
    SignupIsShown(raw, t);
    LedgerIsShown(raw, t);
    CountsAreShown(raw, t);
  }

  /** The count a grouped table gives the tenant, 0 where it gives none. */
  function CountOf(rows: seq<Row<int>>, tenant: string): int {
    if Last(rows, tenant).Some? then Last(rows, tenant).value else 0
  }

  lemma CountsAreShown(raw: Raw, t: string)
    ensures var a := AccountOf(raw, t);
      a.bots == CountOf(raw.tins, t) && a.wallets == CountOf(raw.wallets, t) && a.addresses == CountOf(raw.addresses, t)
  {
  }

  lemma SignupIsShown(raw: Raw, t: string)
    ensures var a, s := AccountOf(raw, t), PutLast(Blank(t), raw.signups, SetSignup);
      && a.tenantId == t && a.source == s.source && a.signedUpAt == s.signedUpAt && a.lastSeenAt == s.lastSeenAt
      && a.country == s.country
  {
  }

  lemma LedgerIsShown(raw: Raw, t: string)
    ensures var a, e := AccountOf(raw, t), PutLast(Blank(t), raw.events, SetLedger);
      && a.transactions == e.transactions && a.sent == e.sent && a.received == e.received
      && a.checks == e.checks && a.usd == e.usd
      && a.firstActivityAt == e.firstActivityAt && a.lastActivityAt == e.lastActivityAt
  {
  }

  // ── Addresses ─────────────────────────────────────────────────────────────

  /** /^[^\s@]+@[^\s@]+$/ */
  predicate ValidEmail(e: string) {
    exists i | 0 < i < |e| - 1 ::
      e[i] == '@' && forall j | 0 <= j < |e| && j != i :: e[j] != '@' && !Decimals.IsSpace(e[j])
  }

  /** The order of memberships: created_at, then id. */
  predicate Before(a: Member, b: Member) { Less(a.at, b.at) || (a.at == b.at && Less(a.id, b.id)) }

  /** The earliest membership of a tenant whose address is valid. */
  function FirstMember(rows: seq<Row<Member>>, tenant: string): Option<Member> {
    if rows == [] then None
    else
      var best, r := FirstMember(rows[..|rows| - 1], tenant), rows[|rows| - 1];
      if r.tenant == Some(tenant) && ValidEmail(r.data.email) && (best.None? || Before(r.data, best.value)) then
        Some(r.data)
      else best
  }

  function WithEmails(m: Accounts, rows: seq<Row<Member>>): Accounts {
    map t | t in m ::
      if FirstMember(rows, t).Some? then m[t].(email := Some(FirstMember(rows, t).value.email)) else m[t]
  }

  method FirstMembers(m: Accounts, rows: seq<Row<Member>>) returns (first: map<string, Member>)
    ensures first.Keys <= m.Keys
    ensures forall t | t in m :: FirstMember(rows, t) == if t in first then Some(first[t]) else None
  {
    hide ValidEmail, Before;
    first := map[];
    for n := 0 to |rows|
      invariant first.Keys <= m.Keys
      invariant forall t | t in m :: FirstMember(rows[..n], t) == if t in first then Some(first[t]) else None
    {
      var r := rows[n];
      assert rows[..n + 1][..n] == rows[..n];
      if r.tenant.Some? && r.tenant.value in m && ValidEmail(r.data.email) {
        var t := r.tenant.value;
        if t !in first || Before(r.data, first[t]) { first := first[t := r.data]; }
      }
    }
    assert rows[..|rows|] == rows;
  }

  method SetEmails(m0: Accounts, rows: seq<Row<Member>>) returns (m: Accounts)
    ensures m == WithEmails(m0, rows)
  {
    hide FirstMember;
    m := m0;
    var first := FirstMembers(m0, rows);
    var left := first.Keys;
    while left != {}
      invariant left <= first.Keys && m.Keys == m0.Keys
      invariant forall t | t in m ::
        m[t] == if t in first && t !in left then m0[t].(email := Some(first[t].email)) else m0[t]
      decreases left
    {
      var t :| t in left;
      m := m[t := m[t].(email := Some(first[t].email))];
      left := left - {t};
    }
  }

  // ── Hours ─────────────────────────────────────────────────────────────────

  const HOUR_MS := 3_600_000
  const DAY_MS := 86_400_000
  const ACTIVITY_DAYS := 30
  const DAILY_DAYS := 14
  const ACTIVE_DAYS := 7

  /** The accounts there are, and the time in milliseconds. */
  datatype Window = Window(tenants: set<string>, now: int)

  function Today(w: Window): int { w.now / DAY_MS }

  function FirstDay(w: Window): int { Today(w) - (DAILY_DAYS - 1) }

  predicate Kept(w: Window, r: Row<HourCount>) {
    && r.tenant.Some? && r.tenant.value in w.tenants && r.data.hour.Some? && r.data.n > 0
    && r.data.hour.value * HOUR_MS >= (Today(w) - ACTIVITY_DAYS) * DAY_MS
  }

  /** The events of a kept row that a number counts. */
  datatype Pick = All | OfHour(h: int) | OfWeekday(d: int) | OfDay(day: int) | Recent | RecentOf(tenant: string)

  /** 1970 began on a Thursday. */
  function Weekday(hour: int): int { (hour / 24 + 4) % 7 }

  /** The hour's end lies in the active window. */
  predicate IsRecent(w: Window, hour: int) { hour * HOUR_MS + HOUR_MS > w.now - ACTIVE_DAYS * DAY_MS }

  predicate Picks(w: Window, p: Pick, r: Row<HourCount>) {
    Kept(w, r) &&
    match p
    case All => true
    case OfHour(h) => r.data.hour.value % 24 == h
    case OfWeekday(d) => Weekday(r.data.hour.value) == d
    case OfDay(day) => r.data.hour.value / 24 == day
    case Recent => IsRecent(w, r.data.hour.value)
    case RecentOf(t) => IsRecent(w, r.data.hour.value) && r.tenant.value == t
  }

  function Total(w: Window, p: Pick, rows: seq<Row<HourCount>>): int {
    if rows == [] then 0
    else
      Total(w, p, rows[..|rows| - 1]) + if Picks(w, p, rows[|rows| - 1]) then rows[|rows| - 1].data.n else 0
  }

  function TenantsOn(w: Window, day: int, rows: seq<Row<HourCount>>): set<string> {
    if rows == [] then {}
    else
      var r := rows[|rows| - 1];
      TenantsOn(w, day, rows[..|rows| - 1]) + if Picks(w, OfDay(day), r) then {r.tenant.value} else {}
  }

  function HourBuckets(w: Window, rows: seq<Row<HourCount>>): seq<int> { seq(24, h => Total(w, OfHour(h), rows)) }

  function WeekdayBuckets(w: Window, rows: seq<Row<HourCount>>): seq<int> { seq(7, d => Total(w, OfWeekday(d), rows)) }

  datatype Day = Day(day: int, events: int, accounts: nat)

  function DayOf(w: Window, day: int, rows: seq<Row<HourCount>>): Day {
    Day(day, Total(w, OfDay(day), rows), |TenantsOn(w, day, rows)|)
  }

  function Daily(w: Window, rows: seq<Row<HourCount>>): seq<Day> {
    seq(DAILY_DAYS, i => DayOf(w, FirstDay(w) + i, rows))
  }

  function WithRecent(m: Accounts, w: Window, rows: seq<Row<HourCount>>): Accounts {
    map t | t in m :: m[t].(recentEvents := m[t].recentEvents + Total(w, RecentOf(t), rows))
  }

  predicate InDaily(w: Window, day: int) { FirstDay(w) <= day < FirstDay(w) + DAILY_DAYS }

  /** The charts so far: what the loop over the hours keeps. */
  ghost predicate ChartsOf(w: Window, rows: seq<Row<HourCount>>, byHour: seq<int>, byWeekday: seq<int>,
      events: map<int, int>, accounts: map<int, set<string>>)
  {
    && byHour == HourBuckets(w, rows) && byWeekday == WeekdayBuckets(w, rows)
    && (forall d :: d in events <==> InDaily(w, d)) && (forall d :: d in accounts <==> InDaily(w, d))
    && (forall d | d in events :: events[d] == Total(w, OfDay(d), rows))
    && (forall d | d in accounts :: accounts[d] == TenantsOn(w, d, rows))
  }

  lemma ChartsSkip(w: Window, front: seq<Row<HourCount>>, r: Row<HourCount>, byHour: seq<int>, byWeekday: seq<int>,
      events: map<int, int>, accounts: map<int, set<string>>)
    requires ChartsOf(w, front, byHour, byWeekday, events, accounts) && !Kept(w, r)
    ensures ChartsOf(w, front + [r], byHour, byWeekday, events, accounts)
    ensures forall p :: Total(w, p, front + [r]) == Total(w, p, front)
  {
  }

  lemma TotalOfOneMore(w: Window, p: Pick, front: seq<Row<HourCount>>, r: Row<HourCount>)
    ensures Total(w, p, front + [r]) == Total(w, p, front) + if Picks(w, p, r) then r.data.n else 0
  {
  }

  lemma ChartsCount(w: Window, front: seq<Row<HourCount>>, r: Row<HourCount>, byHour: seq<int>, byWeekday: seq<int>,
      events: map<int, int>, accounts: map<int, set<string>>)
    requires ChartsOf(w, front, byHour, byWeekday, events, accounts) && Kept(w, r)
    ensures var hour, n := r.data.hour.value, r.data.n; var d := hour / 24;
      ChartsOf(w, front + [r],
        byHour[hour % 24 := byHour[hour % 24] + n],
        byWeekday[Weekday(hour) := byWeekday[Weekday(hour)] + n],
        if d in events then events[d := events[d] + n] else events,
        if d in accounts then accounts[d := accounts[d] + {r.tenant.value}] else accounts)
  {
  }

  lemma RecentStep(m0: Accounts, m: Accounts, w: Window, front: seq<Row<HourCount>>, r: Row<HourCount>)
    requires m == WithRecent(m0, w, front) && m0.Keys == w.tenants && Kept(w, r)
    ensures var t := r.tenant.value;
      (if IsRecent(w, r.data.hour.value) then m[t := m[t].(recentEvents := m[t].recentEvents + r.data.n)] else m)
        == WithRecent(m0, w, front + [r])
  {
    assert r.tenant.Some? && r.data.hour.Some? && r.tenant.value in m;
    hide IsRecent, Total;
    forall t ensures Total(w, RecentOf(t), front + [r]) == Total(w, RecentOf(t), front)
      + if IsRecent(w, r.data.hour.value) && t == r.tenant.value then r.data.n else 0
    {
      TotalOfOneMore(w, RecentOf(t), front, r);
    }
  }

  lemma RecentSkip(m0: Accounts, w: Window, front: seq<Row<HourCount>>, r: Row<HourCount>)
    requires !Kept(w, r)
    ensures WithRecent(m0, w, front + [r]) == WithRecent(m0, w, front)
  {
  }

  /** The days of the daily chart, oldest first. */
  function Days(w: Window): (days: seq<int>)
    ensures forall d :: d in days <==> InDaily(w, d)
  {
    var days := seq(DAILY_DAYS, i => FirstDay(w) + i);
    assert forall d | InDaily(w, d) :: days[d - FirstDay(w)] == d;
    days
  }

  /** One row added to the two arrays. */
  method Bump(byHour: array<int>, byWeekday: array<int>, hour: int, n: int)
    requires byHour.Length == 24 && byWeekday.Length == 7 && byHour != byWeekday
    modifies byHour, byWeekday
    ensures byHour[..] == old(byHour[..])[hour % 24 := old(byHour[..])[hour % 24] + n]
    ensures 0 <= Weekday(hour) < 7
    ensures byWeekday[..] == old(byWeekday[..])[Weekday(hour) := old(byWeekday[..])[Weekday(hour)] + n]
  {
    byHour[hour % 24] := byHour[hour % 24] + n;
    byWeekday[Weekday(hour)] := byWeekday[Weekday(hour)] + n;
  }

  lemma NoRowsYet(w: Window, m0: Accounts, byHour: seq<int>, byWeekday: seq<int>)
    requires |byHour| == 24 && |byWeekday| == 7
    requires forall h | 0 <= h < 24 :: byHour[h] == 0
    requires forall d | 0 <= d < 7 :: byWeekday[d] == 0
    ensures ChartsOf(w, [], byHour, byWeekday, map d | d in Days(w) :: 0, map d | d in Days(w) :: {})
    ensures WithRecent(m0, w, []) == m0
  {
  }

  /** The loop over the hours, with the charts and the accounts' recent events it fills. */
  method CountHours(m0: Accounts, now: int, rows: seq<Row<HourCount>>)
    returns (byHour: array<int>, byWeekday: array<int>,
      events: map<int, int>, accounts: map<int, set<string>>, m: Accounts)
    ensures var w := Window(m0.Keys, now);
      ChartsOf(w, rows, byHour[..], byWeekday[..], events, accounts) && m == WithRecent(m0, w, rows)
  {
    hide *;
    var w := Window(m0.Keys, now);
    byHour, byWeekday := new int[24](_ => 0), new int[7](_ => 0);
    events := map d | d in Days(w) :: 0;
    accounts := map d | d in Days(w) :: {};
    m := m0;
    NoRowsYet(w, m0, byHour[..], byWeekday[..]);
    assert rows[..0] == [];
    for i := 0 to |rows|
      invariant byHour.Length == 24 && byWeekday.Length == 7 && fresh(byHour) && fresh(byWeekday) && byHour != byWeekday
      invariant ChartsOf(w, rows[..i], byHour[..], byWeekday[..], events, accounts)
      invariant m == WithRecent(m0, w, rows[..i])
    {
      var r := rows[i];
      assert rows[..i + 1] == rows[..i] + [r];
      if Kept(w, r) {
        ChartsCount(w, rows[..i], r, byHour[..], byWeekday[..], events, accounts);
        RecentStep(m0, m, w, rows[..i], r);
        KeptNames(w, r, m0, rows[..i]);
        var hour, n, t := r.data.hour.value, r.data.n, r.tenant.value;
        Bump(byHour, byWeekday, hour, n);
        var day := hour / 24;
        events := if day in events then events[day := events[day] + n] else events;
        accounts := if day in accounts then accounts[day := accounts[day] + {t}] else accounts;
        m := if IsRecent(w, hour) then m[t := m[t].(recentEvents := m[t].recentEvents + n)] else m;
      } else {
        ChartsSkip(w, rows[..i], r, byHour[..], byWeekday[..], events, accounts);
        RecentSkip(m0, w, rows[..i], r);
      }
    }
    assert rows[..|rows|] == rows;
  }

  lemma KeptNames(w: Window, r: Row<HourCount>, m0: Accounts, rows: seq<Row<HourCount>>)
    requires Kept(w, r) && m0.Keys == w.tenants
    ensures r.tenant.Some? && r.data.hour.Some? && r.tenant.value in WithRecent(m0, w, rows)
    ensures 0 <= Weekday(r.data.hour.value) < 7
  {
  }

  // ── Order ─────────────────────────────────────────────────────────────────

  function Later(a: Option<string>, b: Option<string>): Option<string> {
    if a.None? then b else if b.None? then a else if Less(b.value, a.value) then a else b
  }

  /** When the account last did something, opened Agentics or signed up. */
  function Seen(a: Account): string {
    var x := Later(a.lastActivityAt, a.lastSeenAt);
    if x.Some? then x.value else if a.signedUpAt.Some? then a.signedUpAt.value else ""
  }

  /** The latest first, then by tenant. */
  predicate Ranked(a: Account, b: Account) {
    if Seen(a) == Seen(b) then AtMost(a.tenantId, b.tenantId) else Less(Seen(b), Seen(a))
  }

  datatype Country = Country(country: string, accounts: int)

  const UNKNOWN := "Unknown"

  /** Unknown last, then the most accounts first, then by name. */
  predicate CountryOrder(a: Country, b: Country) {
    if (a.country == UNKNOWN) != (b.country == UNKNOWN) then b.country == UNKNOWN
    else if a.accounts != b.accounts then a.accounts > b.accounts
    else AtMost(a.country, b.country)
  }

  lemma OrdersAreTotal()
    ensures TotalPreorder(Ranked) && TotalPreorder(CountryOrder)
  {
    forall a: Account, b: Account ensures Ranked(a, b) || Ranked(b, a) {
      LessFacts(Seen(a), Seen(b));
      LessFacts(a.tenantId, b.tenantId);
    }
    forall a: Account, b: Account, c: Account | Ranked(a, b) && Ranked(b, c) ensures Ranked(a, c) {
      hide Less;
      LessIsStrictOrder(Seen(c), Seen(b), Seen(a));
      LessIsStrictOrder(c.tenantId, b.tenantId, a.tenantId);
      AtMostChains(a.tenantId, b.tenantId, c.tenantId);
    }
    forall a: Country, b: Country ensures CountryOrder(a, b) || CountryOrder(b, a) { LessFacts(a.country, b.country); }
    forall a: Country, b: Country, c: Country | CountryOrder(a, b) && CountryOrder(b, c) ensures CountryOrder(a, c) {
      hide Less;
      AtMostChains(a.country, b.country, c.country);
    }
  }

  lemma LessFacts(a: string, b: string)
    ensures a == b || Less(a, b) || Less(b, a)
    ensures !(Less(a, b) && Less(b, a))
    ensures AtMost(a, b) && AtMost(b, a) ==> a == b
  {
  }

  lemma AtMostChains(a: string, b: string, c: string)
    ensures AtMost(a, b) && AtMost(b, c) ==> AtMost(a, c)
  {
    LessIsStrictOrder(c, a, b);
    LessIsStrictOrder(a, b, c);
    LessIsStrictOrder(b, c, a);
    LessIsStrictOrder(c, a, c);
    LessIsStrictOrder(b, a, c);
  }

  /** The elements of a set in their one sorted order. */
  ghost function InOrder<T>(le: (T, T) -> bool, s: set<T>): seq<T> {
    if s == {} then [] else var x :| x in s; Insert(le, x, InOrder(le, s - {x}))
  }

  lemma {:induction false} InOrderIs<T(!new)>(le: (T, T) -> bool, s: set<T>)
    requires TotalPreorder(le)
    ensures SortedBy(le, InOrder(le, s)) && multiset(InOrder(le, s)) == multiset(s)
  {
    if s != {} {
      var x :| x in s && InOrder(le, s) == Insert(le, x, InOrder(le, s - {x}));
      InOrderIs(le, s - {x});
      InsertIsSorted(le, x, InOrder(le, s - {x}));
      assert multiset(s) == multiset([x]) + multiset(s - {x});
    }
  }

  method Elements<T(==)>(s: set<T>) returns (l: seq<T>)
    ensures multiset(l) == multiset(s)
  {
    l := [];
    var left := s;
    while left != {}
      invariant left <= s && multiset(l) == multiset(s - left)
      decreases left
    {
      var x :| x in left;
      assert s - (left - {x}) == (s - left) + {x};
      l, left := l + [x], left - {x};
    }
    assert s - left == s;
  }

  /** Whatever order the elements are listed in, sorting them gives one list. */
  lemma {:induction false} SortedIsInOrder<T(!new)>(le: (T, T) -> bool, s: set<T>, l: seq<T>)
    requires TotalPreorder(le) && multiset(l) == multiset(s)
    requires forall x, y | x in s && y in s && le(x, y) && le(y, x) :: x == y
    ensures StableSort(le, l) == InOrder(le, s)
  {
    StableSortIsSorted(le, l);
    InOrderIs(le, s);
    var a := StableSort(le, l);
    hide *;
    forall x | x in a ensures x in s { assert x in multiset(a); }
    assert NoTies(le, a) by { NoTiesOf(le, a, s); }
    SortedOrderIsUnique(le, a, InOrder(le, s));
  }

  lemma NoTiesOf<T>(le: (T, T) -> bool, a: seq<T>, s: set<T>)
    requires forall x | x in a :: x in s
    requires forall x, y | x in s && y in s && le(x, y) && le(y, x) :: x == y
    ensures NoTies(le, a)
  {
  }

  // ── The page's numbers ────────────────────────────────────────────────────

  function CountryOf(a: Account): string { if a.country.Some? then a.country.value else UNKNOWN }

  function InCountry(accounts: seq<Account>, c: string): nat {
    if accounts == [] then 0
    else InCountry(accounts[..|accounts| - 1], c) + if CountryOf(accounts[|accounts| - 1]) == c then 1 else 0
  }

  function CountriesNamed(accounts: seq<Account>): set<string> { set a | a in accounts :: CountryOf(a) }

  function CountriesSet(accounts: seq<Account>): set<Country> {
    set c | c in CountriesNamed(accounts) :: Country(c, InCountry(accounts, c))
  }

  method CountCountries(accounts: seq<Account>) returns (counts: map<string, int>)
    ensures counts.Keys == CountriesNamed(accounts)
    ensures forall c | c in counts :: counts[c] == InCountry(accounts, c)
  {
    hide CountryOf;
    counts := map[];
    for n := 0 to |accounts|
      invariant counts.Keys == CountriesNamed(accounts[..n])
      invariant forall c :: (if c in counts then counts[c] else 0) == InCountry(accounts[..n], c)
    {
      var a := accounts[n];
      assert accounts[..n + 1] == accounts[..n] + [a] && accounts[..n + 1][..n] == accounts[..n];
      NamedCountriesGrow(accounts[..n], a);
      var c := CountryOf(a);
      counts := counts[c := (if c in counts then counts[c] else 0) + 1];
    }
    assert accounts[..|accounts|] == accounts;
  }

  lemma NamedCountriesGrow(front: seq<Account>, a: Account)
    ensures CountriesNamed(front + [a]) == CountriesNamed(front) + {CountryOf(a)}
  {
  }

  datatype Totals = Totals(
    accounts: int, withAgents: int, active: int, bots: int, wallets: int, addresses: int,
    checks: int, transactions: int, usd: int)

  /** A number of an account that the totals add up. */
  datatype Field = Bots | Wallets | Addresses | Checks | Transactions | Usd | RecentEvents | HasAgents | IsActive

  function Of(f: Field, a: Account): int {
    match f
    case Bots => a.bots
    case Wallets => a.wallets
    case Addresses => a.addresses
    case Checks => a.checks
    case Transactions => a.transactions
    case Usd => a.usd
    case RecentEvents => a.recentEvents
    case HasAgents => if a.bots > 0 then 1 else 0
    case IsActive => if a.recentEvents > 0 then 1 else 0
  }

  function SumOver(f: Field, accounts: seq<Account>): int {
    if accounts == [] then 0 else SumOver(f, accounts[..|accounts| - 1]) + Of(f, accounts[|accounts| - 1])
  }

  method Reduce(f: Field, accounts: seq<Account>) returns (sum: int)
    ensures sum == SumOver(f, accounts)
  {
    sum := 0;
    for n := 0 to |accounts|
      invariant sum == SumOver(f, accounts[..n])
    {
      assert accounts[..n + 1][..n] == accounts[..n];
      sum := sum + Of(f, accounts[n]);
    }
    assert accounts[..|accounts|] == accounts;
  }

  function TotalsOf(accounts: seq<Account>): Totals {
    Totals(|accounts|, SumOver(HasAgents, accounts), SumOver(IsActive, accounts), SumOver(Bots, accounts),
      SumOver(Wallets, accounts), SumOver(Addresses, accounts), SumOver(Checks, accounts),
      SumOver(Transactions, accounts), SumOver(Usd, accounts))
  }

  datatype Analytics = Analytics(
    accounts: seq<Account>, totals: Totals, countries: seq<Country>,
    byHour: seq<int>, byWeekday: seq<int>, daily: seq<Day>)

  /** The accounts with everything known about them. */
  function FullAccounts(raw: Raw, owner: string, now: int): Accounts {
    var m := AccountsOf(raw, owner);
    WithRecent(WithEmails(m, raw.emails), Window(m.Keys, now), raw.hours)
  }

  /** The page's numbers from the accounts and the hours, in their one order. */
  ghost function Numbers(full: Accounts, w: Window, hours: seq<Row<HourCount>>): Analytics {
    var accounts := InOrder(Ranked, full.Values);
    Analytics(accounts, TotalsOf(accounts), InOrder(CountryOrder, CountriesSet(accounts)),
      HourBuckets(w, hours), WeekdayBuckets(w, hours), Daily(w, hours))
  }

  ghost function Summary(raw: Raw, owner: string, now: int): Analytics {
    Numbers(FullAccounts(raw, owner, now), Window(AccountsOf(raw, owner).Keys, now), raw.hours)
  }

  /** Every account is filed under its own tenant. */
  predicate Filed(m: Accounts) { forall t | t in m :: m[t].tenantId == t }

  lemma FullAreFiled(raw: Raw, owner: string, now: int)
    ensures Filed(FullAccounts(raw, owner, now)) && FullAccounts(raw, owner, now).Keys == AccountsOf(raw, owner).Keys
  {
    var m := AccountsOf(raw, owner);
    forall t | t in m ensures m[t].tenantId == t { AccountsAre(raw, owner, t); }
    hide AccountsOf, FirstMember, Total;
  }

  lemma RankedHasNoTies(m: Accounts, a: Account, b: Account)
    requires Filed(m) && a in m.Values && b in m.Values && Ranked(a, b) && Ranked(b, a)
    ensures a == b
  {
    hide Less;
    LessFacts(Seen(a), Seen(b));
    LessFacts(a.tenantId, b.tenantId);
  }

  method SortAccounts(m: Accounts) returns (accounts: seq<Account>)
    requires Filed(m)
    ensures accounts == InOrder(Ranked, m.Values)
  {
    hide *;
    var values := Elements(m.Values);
    accounts := StableSort(Ranked, values);
    OrdersAreTotal();
    forall a, b | a in m.Values && b in m.Values && Ranked(a, b) && Ranked(b, a) ensures a == b {
      RankedHasNoTies(m, a, b);
    }
    SortedIsInOrder(Ranked, m.Values, values);
  }

  lemma CountriesHaveNoTies(accounts: seq<Account>, x: Country, y: Country)
    requires x in CountriesSet(accounts) && y in CountriesSet(accounts) && CountryOrder(x, y) && CountryOrder(y, x)
    ensures x == y
  {
    hide Less, CountryOf;
    LessFacts(x.country, y.country);
  }

  method SortCountries(accounts: seq<Account>) returns (countries: seq<Country>)
    ensures countries == InOrder(CountryOrder, CountriesSet(accounts))
  {
    var counts := CountCountries(accounts);
    var entries := set c | c in counts :: Country(c, counts[c]);
    assert entries == CountriesSet(accounts);
    hide *;
    var list := Elements(entries);
    countries := StableSort(CountryOrder, list);
    OrdersAreTotal();
    forall x, y | x in entries && y in entries && CountryOrder(x, y) && CountryOrder(y, x) ensures x == y {
      CountriesHaveNoTies(accounts, x, y);
    }
    SortedIsInOrder(CountryOrder, entries, list);
  }

  method SumTotals(accounts: seq<Account>) returns (totals: Totals)
    ensures totals == TotalsOf(accounts)
  {
    hide SumOver;
    var withAgents := Reduce(HasAgents, accounts);
    var active := Reduce(IsActive, accounts);
    var bots := Reduce(Bots, accounts);
    var wallets := Reduce(Wallets, accounts);
    var addresses := Reduce(Addresses, accounts);
    var checks := Reduce(Checks, accounts);
    var transactions := Reduce(Transactions, accounts);
    var usd := Reduce(Usd, accounts);
    totals := Totals(|accounts|, withAgents, active, bots, wallets, addresses, checks, transactions, usd);
  }

  function DailyOf(days: seq<int>, events: map<int, int>, tenants: map<int, set<string>>): seq<Day>
    requires forall i | 0 <= i < |days| :: days[i] in events && days[i] in tenants
  {
    seq(|days|, i requires 0 <= i < |days| => Day(days[i], events[days[i]], |tenants[days[i]]|))
  }

  lemma DailyIs(w: Window, rows: seq<Row<HourCount>>, byHour: seq<int>, byWeekday: seq<int>,
      events: map<int, int>, tenants: map<int, set<string>>)
    requires ChartsOf(w, rows, byHour, byWeekday, events, tenants)
    ensures forall i | 0 <= i < |Days(w)| :: Days(w)[i] in events && Days(w)[i] in tenants
    ensures DailyOf(Days(w), events, tenants) == Daily(w, rows)
    ensures byHour == HourBuckets(w, rows) && byWeekday == WeekdayBuckets(w, rows)
  {
    hide Total, TenantsOn, HourBuckets, WeekdayBuckets;
    forall i | 0 <= i < |Days(w)| ensures Days(w)[i] in events && Days(w)[i] in tenants {
      assert Days(w)[i] in Days(w);
    }
    assert |Days(w)| == DAILY_DAYS;
    forall i | 0 <= i < DAILY_DAYS ensures DailyOf(Days(w), events, tenants)[i] == Daily(w, rows)[i] {
      var d := FirstDay(w) + i;
      assert Days(w)[i] == d && d in Days(w);
      assert events[d] == Total(w, OfDay(d), rows) && tenants[d] == TenantsOn(w, d, rows);
      assert Daily(w, rows)[i] == DayOf(w, d, rows);
    }
  }

  method SummarizeAgentics(raw: Raw, owner: string, now: int) returns (r: Analytics)
    ensures r == Summary(raw, owner, now)
  {
    hide Total, TenantsOn, Filled, FirstMember, SumOver, InOrder, Filed;
    hide WithRecent, WithEmails, HourBuckets, WeekdayBuckets, CountriesSet;
    var a := Fill(map[], raw.signups, owner, SetSignup);
    var b := Fill(a, raw.tins, owner, SetBots);
    var c := Fill(b, raw.wallets, owner, SetWallets);
    var d := Fill(c, raw.addresses, owner, SetAddresses);
    var m := Fill(d, raw.events, owner, SetLedger);
    assert m == AccountsOf(raw, owner);
    var named := SetEmails(m, raw.emails);
    assert named.Keys == m.Keys by { FullAreFiled(raw, owner, now); EmailsKeepKeys(m, raw.emails); }
    var byHour, byWeekday, events, tenants, full := CountHours(named, now, raw.hours);
    assert full == FullAccounts(raw, owner, now);
    var w := Window(m.Keys, now);
    FullAreFiled(raw, owner, now);
    hide AccountsOf, FullAccounts;
    var accounts := SortAccounts(full);
    var totals := SumTotals(accounts);
    var countries := SortCountries(accounts);
    DailyIs(w, raw.hours, byHour[..], byWeekday[..], events, tenants);
    var daily := DailyOf(Days(w), events, tenants);
    r := Analytics(accounts, totals, countries, byHour[..], byWeekday[..], daily);
  }

  lemma EmailsKeepKeys(m: Accounts, rows: seq<Row<Member>>)
    ensures WithEmails(m, rows).Keys == m.Keys
  {
  }

  // ── Conservation ──────────────────────────────────────────────────────────

  function SumInts(s: seq<int>): int { if s == [] then 0 else SumInts(s[..|s| - 1]) + s[|s| - 1] }

  lemma {:induction false} SumBump(s: seq<int>, i: nat, n: int)
    requires i < |s|
    ensures SumInts(s[i := s[i] + n]) == SumInts(s) + n
  {
    var front, last := s[..|s| - 1], |s| - 1;
    var t := s[i := s[i] + n];
    if i < last {
      assert t[..last] == front[i := front[i] + n];
      SumBump(front, i, n);
    } else {
      assert t[..last] == front;
    }
  }

  lemma {:induction false} SumOfZeros(s: seq<int>)
    requires forall i | 0 <= i < |s| :: s[i] == 0
    ensures SumInts(s) == 0
  {
    if s != [] { SumOfZeros(s[..|s| - 1]); }
  }

  function DailyEvents(w: Window, rows: seq<Row<HourCount>>): seq<int> {
    seq(DAILY_DAYS, i => Total(w, OfDay(FirstDay(w) + i), rows))
  }

  /** One more row adds its events to one hour, to one weekday, and to one day of the chart or none. */
  lemma BucketsOfOneMore(w: Window, front: seq<Row<HourCount>>, r: Row<HourCount>)
    ensures var rows := front + [r];
      if Kept(w, r) then
        var hour, n := r.data.hour.value, r.data.n;
        var i := hour / 24 - FirstDay(w);
        && HourBuckets(w, rows) == HourBuckets(w, front)[hour % 24 := HourBuckets(w, front)[hour % 24] + n]
        && 0 <= Weekday(hour) < 7
        && WeekdayBuckets(w, rows) ==
          WeekdayBuckets(w, front)[Weekday(hour) := WeekdayBuckets(w, front)[Weekday(hour)] + n]
        && DailyEvents(w, rows) ==
          if 0 <= i < DAILY_DAYS then DailyEvents(w, front)[i := DailyEvents(w, front)[i] + n]
          else DailyEvents(w, front)
      else
        && HourBuckets(w, rows) == HourBuckets(w, front) && WeekdayBuckets(w, rows) == WeekdayBuckets(w, front)
        && DailyEvents(w, rows) == DailyEvents(w, front)
  {
    hide Kept, Total;
    var rows := front + [r];
    forall h | 0 <= h < 24
      ensures HourBuckets(w, rows)[h] == HourBuckets(w, front)[h] + if Picks(w, OfHour(h), r) then r.data.n else 0
    {
      TotalOfOneMore(w, OfHour(h), front, r);
    }
    forall d | 0 <= d < 7
      ensures WeekdayBuckets(w, rows)[d] ==
        WeekdayBuckets(w, front)[d] + if Picks(w, OfWeekday(d), r) then r.data.n else 0
    {
      TotalOfOneMore(w, OfWeekday(d), front, r);
    }
    forall i | 0 <= i < DAILY_DAYS
      ensures DailyEvents(w, rows)[i] ==
        DailyEvents(w, front)[i] + if Picks(w, OfDay(FirstDay(w) + i), r) then r.data.n else 0
    {
      TotalOfOneMore(w, OfDay(FirstDay(w) + i), front, r);
    }
  }

  /**
   * The hours of the day and the weekdays add up to the same number of events, those of the rows that count; the
   * daily chart to no more.
   */
  lemma {:induction false} ChartsConserve(w: Window, rows: seq<Row<HourCount>>)
    ensures SumInts(HourBuckets(w, rows)) == SumInts(WeekdayBuckets(w, rows)) == Total(w, All, rows)
    ensures 0 <= SumInts(DailyEvents(w, rows)) <= Total(w, All, rows)
  {
    if rows == [] {
      SumOfZeros(HourBuckets(w, rows));
      SumOfZeros(WeekdayBuckets(w, rows));
      forall i | 0 <= i < DAILY_DAYS ensures DailyEvents(w, rows)[i] == 0 {
        assert Total(w, OfDay(FirstDay(w) + i), rows) == 0;
      }
      SumOfZeros(DailyEvents(w, rows));
    } else {
      var front, r := rows[..|rows| - 1], rows[|rows| - 1];
      assert rows == front + [r];
      assert Kept(w, r) ==> r.data.hour.Some? && r.data.n > 0 && Picks(w, All, r);
      assert !Kept(w, r) ==> !Picks(w, All, r);
      hide *;
      ChartsConserve(w, front);
      BucketsOfOneMore(w, front, r);
      TotalOfOneMore(w, All, front, r);
      if Kept(w, r) {
        var hour, n := r.data.hour.value, r.data.n;
        Lengths(w, front);
        SumBump(HourBuckets(w, front), hour % 24, n);
        SumBump(WeekdayBuckets(w, front), Weekday(hour), n);
        var i := hour / 24 - FirstDay(w);
        if 0 <= i < DAILY_DAYS { SumBump(DailyEvents(w, front), i, n); }
      }
    }
  }

  lemma Lengths(w: Window, rows: seq<Row<HourCount>>)
    ensures |HourBuckets(w, rows)| == 24 && |WeekdayBuckets(w, rows)| == 7 && |DailyEvents(w, rows)| == DAILY_DAYS
  {
  }

  // ── Sums over the accounts ────────────────────────────────────────────────

  predicate DistinctIds(ids: seq<string>) { forall i, j | 0 <= i < j < |ids| :: ids[i] != ids[j] }

  lemma {:induction false} SameSum(g: string -> int, h: string -> int, ids: seq<string>)
    requires forall t | t in ids :: g(t) == h(t)
    ensures SumOf(g, ids) == SumOf(h, ids)
  {
    if ids != [] { SameSum(g, h, ids[1..]); }
  }

  /** One of the ids gains `n`. */
  lemma {:induction false} BumpedSum(g: string -> int, h: string -> int, ids: seq<string>, t: string, n: int)
    requires DistinctIds(ids) && t in ids && h(t) == g(t) + n
    requires forall u | u in ids && u != t :: h(u) == g(u)
    ensures SumOf(h, ids) == SumOf(g, ids) + n
  {
    if ids[0] == t {
      forall u | u in ids[1..] ensures u != t { }
      SameSum(h, g, ids[1..]);
    } else {
      assert t in ids[1..];
      BumpedSum(g, h, ids[1..], t, n);
    }
  }

  lemma {:induction false} DistinctOfSet(s: set<string>, ids: seq<string>)
    requires multiset(ids) == multiset(s)
    ensures DistinctIds(ids) && forall t :: t in ids <==> t in s
  {
    forall t ensures t in ids <==> t in s { assert t in multiset(ids) <==> t in multiset(s); }
    forall i, j | 0 <= i < j < |ids| ensures ids[i] != ids[j] {
      TakeOut(ids, i);
      assert Without(ids, i)[j - 1] == ids[j];
      assert ids[j] in multiset(Without(ids, i));
    }
  }

  function AccountsFor(m: Accounts, ids: seq<string>): seq<Account>
    requires forall t | t in ids :: t in m
  {
    seq(|ids|, i requires 0 <= i < |ids| => assert ids[i] in ids; m[ids[i]])
  }

  /** The accounts of the ids, as a set. */
  function ValuesOf(m: Accounts, ids: seq<string>): set<Account>
    requires forall t | t in ids :: t in m
  {
    set t | t in ids :: m[t]
  }

  lemma ValuesOfOneMore(m: Accounts, t: string, rest: seq<string>)
    requires Filed(m) && t in m && t !in rest && forall u | u in rest :: u in m
    ensures forall u | u in [t] + rest :: u in m
    ensures m[t] !in ValuesOf(m, rest) && ValuesOf(m, [t] + rest) == {m[t]} + ValuesOf(m, rest)
  {
  }

  lemma OneMoreInMultiset<T>(x: T, s: set<T>)
    requires x !in s
    ensures multiset({x} + s) == multiset([x]) + multiset(s)
  {
  }

  lemma {:induction false} AccountsForAreValues(m: Accounts, ids: seq<string>)
    requires Filed(m) && DistinctIds(ids) && forall t | t in ids :: t in m
    ensures multiset(AccountsFor(m, ids)) == multiset(ValuesOf(m, ids))
  {
    if ids != [] {
      var t, rest := ids[0], ids[1..];
      assert ids == [t] + rest && t in ids && forall u | u in rest :: u in ids;
      assert t !in rest by { forall i | 0 <= i < |rest| ensures rest[i] != t { assert ids[i + 1] != ids[0]; } }
      AccountsForAreValues(m, rest);
      AccountsForOneMore(m, t, rest);
      hide *;
      ValuesOfOneMore(m, t, rest);
      OneMoreInMultiset(m[t], ValuesOf(m, rest));
      assert multiset([m[t]] + AccountsFor(m, rest)) == multiset([m[t]]) + multiset(AccountsFor(m, rest));
    }
  }

  lemma AccountsForOneMore(m: Accounts, t: string, rest: seq<string>)
    requires t in m && forall u | u in rest :: u in m
    ensures forall u | u in [t] + rest :: u in m
    ensures AccountsFor(m, [t] + rest) == [m[t]] + AccountsFor(m, rest)
  {
  }

  lemma {:induction false} SumOverIs(f: Field, s: seq<Account>, g: Account -> int)
    requires forall a :: g(a) == Of(f, a)
    ensures SumOver(f, s) == SumOf(g, s)
  {
    hide Of;
    if s != [] {
      SumOverIs(f, s[..|s| - 1], g);
      assert s == s[..|s| - 1] + [s[|s| - 1]];
      SumOfConcat(g, s[..|s| - 1], [s[|s| - 1]]);
      assert [s[|s| - 1]][1..] == [];
    }
  }

  lemma {:induction false} SumOfAccountsFor(f: Field, m: Accounts, ids: seq<string>, g: Account -> int,
    h: string -> int)
    requires forall t | t in ids :: t in m && h(t) == g(m[t])
    ensures SumOf(g, AccountsFor(m, ids)) == SumOf(h, ids)
  {
    if ids != [] {
      SumOfAccountsFor(f, m, ids[1..], g, h);
      assert AccountsFor(m, ids)[1..] == AccountsFor(m, ids[1..]);
      assert ids[0] in ids;
    }
  }

  /** A total over the page's accounts is the sum over the tenants of what their accounts hold. */
  lemma {:induction false} TotalOverTenants(f: Field, m: Accounts, ids: seq<string>, h: string -> int)
    requires Filed(m) && multiset(ids) == multiset(m.Keys)
    requires forall t | t in m :: h(t) == Of(f, m[t])
    ensures SumOver(f, InOrder(Ranked, m.Values)) == SumOf(h, ids)
  {
    var g := a => Of(f, a);
    var accounts := InOrder(Ranked, m.Values);
    OrdersAreTotal();
    InOrderIs(Ranked, m.Values);
    SumOverIs(f, accounts, g);
    hide Of, Ranked, InOrder;
    DistinctOfSet(m.Keys, ids);
    AccountsForAreValues(m, ids);
    assert ValuesOf(m, ids) == m.Values;
    SumOfPermutation(g, accounts, AccountsFor(m, ids));
    SumOfAccountsFor(f, m, ids, g, h);
  }

  lemma {:induction false} RecentPerTenant(w: Window, rows: seq<Row<HourCount>>, ids: seq<string>, h: string -> int)
    requires multiset(ids) == multiset(w.tenants)
    requires forall t | t in ids :: h(t) == Total(w, RecentOf(t), rows)
    ensures SumOf(h, ids) == Total(w, Recent, rows)
    decreases |rows|
  {
    DistinctOfSet(w.tenants, ids);
    if rows == [] {
      SameSum(h, _ => 0, ids);
      SumOfNothing(ids);
    } else {
      var front, r := rows[..|rows| - 1], rows[|rows| - 1];
      assert rows == front + [r];
      var g := t => Total(w, RecentOf(t), front);
      RecentPerTenant(w, front, ids, g);
      hide Total;
      TotalOfOneMore(w, Recent, front, r);
      forall t | t in ids ensures h(t) == g(t) + if Picks(w, RecentOf(t), r) then r.data.n else 0 {
        TotalOfOneMore(w, RecentOf(t), front, r);
      }
      if Picks(w, Recent, r) { BumpedSum(g, h, ids, r.tenant.value, r.data.n); } else { SameSum(g, h, ids); }
    }
  }

  lemma {:induction false} SumOfNothing(ids: seq<string>)
    ensures SumOf(_ => 0, ids) == 0
  {
    if ids != [] {
      SumOfNothing(ids[1..]);
      SameSum(_ => 0, _ => 0, ids[1..]);
    }
  }

  lemma {:induction false} RecentIsSomeOfAll(w: Window, rows: seq<Row<HourCount>>)
    ensures 0 <= Total(w, Recent, rows) <= Total(w, All, rows)
  {
    if rows != [] { RecentIsSomeOfAll(w, rows[..|rows| - 1]); }
  }

  function EventsOf(daily: seq<Day>): seq<int> { seq(|daily|, i requires 0 <= i < |daily| => daily[i].events) }

  lemma DailyEventsAre(w: Window, rows: seq<Row<HourCount>>)
    ensures EventsOf(Daily(w, rows)) == DailyEvents(w, rows)
  {
    hide Total, TenantsOn;
    forall i | 0 <= i < DAILY_DAYS ensures EventsOf(Daily(w, rows))[i] == DailyEvents(w, rows)[i] {
      assert Daily(w, rows)[i] == DayOf(w, FirstDay(w) + i, rows);
    }
  }

  /** Before the hours are read no account has recent events. */
  lemma NoRecentYet(raw: Raw, owner: string, t: string)
    requires t in AccountsOf(raw, owner)
    ensures WithEmails(AccountsOf(raw, owner), raw.emails)[t].recentEvents == 0
  {
    AccountsAre(raw, owner, t);
    hide AccountsOf, FirstMember, Last;
  }

  /**
   * byHour and byWeekday count the same events; the daily chart and the accounts' recent events are some of them.
   */
  lemma {:induction false} ActivityConserves(raw: Raw, owner: string, now: int)
    ensures var s := Summary(raw, owner, now);
      && SumInts(s.byHour) == SumInts(s.byWeekday)
      && 0 <= SumInts(EventsOf(s.daily)) <= SumInts(s.byHour)
      && 0 <= SumOver(RecentEvents, s.accounts) <= SumInts(s.byHour)
  {
    var m, w := AccountsOf(raw, owner), Window(AccountsOf(raw, owner).Keys, now);
    var s, full := Summary(raw, owner, now), FullAccounts(raw, owner, now);
    FullAreFiled(raw, owner, now);
    forall t | t in full ensures full[t].recentEvents == Total(w, RecentOf(t), raw.hours) {
      NoRecentYet(raw, owner, t);
      hide AccountsOf, WithEmails;
    }
    assert s.byHour == HourBuckets(w, raw.hours) && s.byWeekday == WeekdayBuckets(w, raw.hours);
    DailyEventsAre(w, raw.hours);
    assert s.daily == Daily(w, raw.hours);
    assert s.accounts == InOrder(Ranked, full.Values);
    hide *;
    ChartsConserve(w, raw.hours);
    var ids := InOrder(AtMost, w.tenants);
    AtMostIsTotal();
    InOrderIs(AtMost, w.tenants);
    var h := t => Total(w, RecentOf(t), raw.hours);
    RecentPerTenant(w, raw.hours, ids, h);
    RecentIsSomeOfAll(w, raw.hours);
    forall t | t in full ensures h(t) == Of(RecentEvents, full[t]) { RecentIsAField(full[t]); }
    TotalOverTenants(RecentEvents, full, ids, h);
  }

  lemma RecentIsAField(a: Account)
    ensures Of(RecentEvents, a) == a.recentEvents
  {
  }

  lemma AtMostIsTotal()
    ensures TotalPreorder(AtMost)
  {
    forall a: string, b: string ensures AtMost(a, b) || AtMost(b, a) { LessFacts(a, b); }
    forall a: string, b: string, c: string | AtMost(a, b) && AtMost(b, c) ensures AtMost(a, c) {
      AtMostChains(a, b, c);
    }
  }

  // ── Totals against the tables ─────────────────────────────────────────────

  /** At most one row for each account: what GROUP BY tenant_id gives. */
  predicate OneEach<D>(rows: seq<Row<D>>, owner: string) {
    forall i, j | 0 <= i < j < |rows| && Counts(rows[i].tenant, owner) :: rows[i].tenant != rows[j].tenant
  }

  /** A table's own sum, over the rows that are an account's. */
  function Counted<D>(rows: seq<Row<D>>, owner: string, value: D -> int): int {
    if rows == [] then 0
    else
      Counted(rows[..|rows| - 1], owner, value)
      + if Counts(rows[|rows| - 1].tenant, owner) then value(rows[|rows| - 1].data) else 0
  }

  function LastValue<D>(rows: seq<Row<D>>, tenant: string, value: D -> int): int {
    if Last(rows, tenant).Some? then value(Last(rows, tenant).value) else 0
  }

  lemma {:induction false} LastIsARow<D>(rows: seq<Row<D>>, t: string)
    ensures Last(rows, t).Some? ==> exists i :: 0 <= i < |rows| && rows[i] == Row(Some(t), Last(rows, t).value)
    ensures Last(rows, t).None? ==> forall i | 0 <= i < |rows| :: rows[i].tenant != Some(t)
  {
    if rows != [] { LastIsARow(rows[..|rows| - 1], t); }
  }

  lemma {:induction false} GroupedSum<D>(
      rows: seq<Row<D>>, owner: string, ids: seq<string>, value: D -> int, h: string -> int)
    requires OneEach(rows, owner) && DistinctIds(ids)
    requires forall t | t in ids :: Counts(Some(t), owner)
    requires forall i | 0 <= i < |rows| && Counts(rows[i].tenant, owner) :: rows[i].tenant.value in ids
    requires forall t | t in ids :: h(t) == LastValue(rows, t, value)
    ensures SumOf(h, ids) == Counted(rows, owner, value)
    decreases |rows|
  {
    if rows == [] {
      SameSum(h, _ => 0, ids);
      SumOfNothing(ids);
    } else {
      var front, r := rows[..|rows| - 1], rows[|rows| - 1];
      var g := t => LastValue(front, t, value);
      forall i | 0 <= i < |front| && Counts(front[i].tenant, owner) ensures front[i].tenant.value in ids {
        assert rows[i] == front[i];
      }
      GroupedSum(front, owner, ids, value, g);
      if Counts(r.tenant, owner) {
        LastIsARow(front, r.tenant.value);
        forall i | 0 <= i < |front| ensures front[i].tenant != r.tenant {
          assert rows[i].tenant != rows[|rows| - 1].tenant;
        }
        hide Counts;
        BumpedSum(g, h, ids, r.tenant.value, value(r.data));
      } else {
        SameSum(g, h, ids);
      }
    }
  }

  /** What a table's last row says of a tenant is in its account. */
  lemma FieldsAreLast(raw: Raw, owner: string, now: int, t: string)
    requires t in AccountsOf(raw, owner)
    ensures var a := FullAccounts(raw, owner, now)[t];
      && a.bots == LastValue(raw.tins, t, n => n) && a.wallets == LastValue(raw.wallets, t, n => n)
      && a.addresses == LastValue(raw.addresses, t, n => n)
      && a.checks == LastValue(raw.events, t, (e: Ledger) => e.checks)
      && a.transactions == LastValue(raw.events, t, (e: Ledger) => e.transactions)
      && a.usd == LastValue(raw.events, t, (e: Ledger) => e.usd)
  {
    AccountsAre(raw, owner, t);
    hide AccountsOf, FirstMember, Total, Last, Counts;
  }

  lemma TableIsSummed<D(!new)>(raw: Raw, owner: string, now: int, rows: seq<Row<D>>, f: Field, value: D -> int)
    requires OneEach(rows, owner) && Named(rows, owner) <= AccountsOf(raw, owner).Keys
    requires forall t | t in AccountsOf(raw, owner) ::
      Of(f, FullAccounts(raw, owner, now)[t]) == LastValue(rows, t, value)
    ensures SumOver(f, InOrder(Ranked, FullAccounts(raw, owner, now).Values)) == Counted(rows, owner, value)
  {
    var m, full := AccountsOf(raw, owner), FullAccounts(raw, owner, now);
    FullAreFiled(raw, owner, now);
    forall t | t in m ensures Counts(Some(t), owner) { AccountsAre(raw, owner, t); }
    forall i | 0 <= i < |rows| && Counts(rows[i].tenant, owner) ensures rows[i].tenant.value in m {
      assert rows[i].tenant.value in Named(rows, owner);
    }
    hide *;
    var ids := InOrder(AtMost, m.Keys);
    AtMostIsTotal();
    InOrderIs(AtMost, m.Keys);
    DistinctOfSet(m.Keys, ids);
    var h := t => LastValue(rows, t, value);
    TotalOverTenants(f, full, ids, h);
    GroupedSum(rows, owner, ids, value, h);
  }

  /** Each total is its table's own sum, the owner's row left out, where the tables are grouped by tenant. */
  lemma {:induction false} TotalsAreTheTablesSums(raw: Raw, owner: string, now: int)
    requires OneEach(raw.tins, owner) && OneEach(raw.wallets, owner) && OneEach(raw.addresses, owner)
    requires OneEach(raw.events, owner)
    ensures var totals := Summary(raw, owner, now).totals;
      && totals.accounts == |TenantsOf(raw, owner)|
      && totals.bots == Counted(raw.tins, owner, n => n) && totals.wallets == Counted(raw.wallets, owner, n => n)
      && totals.addresses == Counted(raw.addresses, owner, n => n)
      && totals.checks == Counted(raw.events, owner, (e: Ledger) => e.checks)
      && totals.transactions == Counted(raw.events, owner, (e: Ledger) => e.transactions)
      && totals.usd == Counted(raw.events, owner, (e: Ledger) => e.usd)
  {
    var m, full := AccountsOf(raw, owner), FullAccounts(raw, owner, now);
    forall t ensures t in m <==> t in TenantsOf(raw, owner) { AccountsAre(raw, owner, t); }
    assert m.Keys == TenantsOf(raw, owner);
    forall t | t in m
      ensures Of(Bots, full[t]) == LastValue(raw.tins, t, n => n)
      ensures Of(Wallets, full[t]) == LastValue(raw.wallets, t, n => n)
      ensures Of(Addresses, full[t]) == LastValue(raw.addresses, t, n => n)
      ensures Of(Checks, full[t]) == LastValue(raw.events, t, (e: Ledger) => e.checks)
      ensures Of(Transactions, full[t]) == LastValue(raw.events, t, (e: Ledger) => e.transactions)
      ensures Of(Usd, full[t]) == LastValue(raw.events, t, (e: Ledger) => e.usd)
    {
      FieldsAreLast(raw, owner, now, t);
      hide AccountsOf, FullAccounts, LastValue;
    }
    TotalsAreSums(raw, owner, now);
    hide AccountsOf, FullAccounts, LastValue, Of, OneEach, Counted, SumOver, InOrder, Named, Summary, TotalsOf;
    TableIsSummed(raw, owner, now, raw.tins, Bots, n => n);
    TableIsSummed(raw, owner, now, raw.wallets, Wallets, n => n);
    TableIsSummed(raw, owner, now, raw.addresses, Addresses, n => n);
    TableIsSummed(raw, owner, now, raw.events, Checks, (e: Ledger) => e.checks);
    TableIsSummed(raw, owner, now, raw.events, Transactions, (e: Ledger) => e.transactions);
    TableIsSummed(raw, owner, now, raw.events, Usd, (e: Ledger) => e.usd);
  }

  lemma TotalsAreSums(raw: Raw, owner: string, now: int)
    ensures Summary(raw, owner, now).totals == TotalsOf(InOrder(Ranked, FullAccounts(raw, owner, now).Values))
    ensures |InOrder(Ranked, FullAccounts(raw, owner, now).Values)| == |AccountsOf(raw, owner).Keys|
    ensures Summary(raw, owner, now).totals.accounts == |AccountsOf(raw, owner).Keys|
  {
    var full := FullAccounts(raw, owner, now);
    FullAreFiled(raw, owner, now);
    hide AccountsOf, FullAccounts, SumOver;
    OrdersAreTotal();
    InOrderIs(Ranked, full.Values);
    var accounts := InOrder(Ranked, full.Values);
    assert |accounts| == |multiset(accounts)| == |multiset(full.Values)| == |full.Values|;
    OneEachValue(full);
  }

  /** Filed accounts differ, so there are as many as tenants. */
  lemma {:induction false} OneEachValue(m: Accounts)
    requires Filed(m)
    ensures |m.Values| == |m.Keys|
    decreases |m.Keys|
  {
    if m.Keys != {} {
      var t :| t in m;
      var rest := m - {t};
      OneEachValue(rest);
      assert m.Keys == rest.Keys + {t} && m.Values == rest.Values + {m[t]};
      assert m[t] !in rest.Values;
    } else {
      assert m.Values == {};
    }
  }

  // ── Countries ─────────────────────────────────────────────────────────────

  lemma {:induction false} CountriesSum(accounts: seq<Account>, names: seq<string>, h: string -> int)
    requires DistinctIds(names) && forall a | a in accounts :: CountryOf(a) in names
    requires forall c | c in names :: h(c) == InCountry(accounts, c)
    ensures SumOf(h, names) == |accounts|
    decreases |accounts|
  {
    hide CountryOf;
    if accounts == [] {
      SameSum(h, _ => 0, names);
      SumOfNothing(names);
    } else {
      var front, a := accounts[..|accounts| - 1], accounts[|accounts| - 1];
      var g := c => InCountry(front, c);
      CountriesSum(front, names, g);
      BumpedSum(g, h, names, CountryOf(a), 1);
    }
  }

  function NamesOf(countries: seq<Country>): seq<string> {
    seq(|countries|, i requires 0 <= i < |countries| => countries[i].country)
  }

  function CountsOf(countries: seq<Country>): seq<int> {
    seq(|countries|, i requires 0 <= i < |countries| => countries[i].accounts)
  }

  /** The countries partition the accounts: each once, with the number of accounts there, which add up to all. */
  lemma {:induction false} CountriesPartition(raw: Raw, owner: string, now: int)
    ensures var s := Summary(raw, owner, now);
      && DistinctIds(NamesOf(s.countries)) && SumInts(CountsOf(s.countries)) == |s.accounts|
      && (forall c | c in s.countries ::
        c.accounts == InCountry(s.accounts, c.country) && c.country in CountriesNamed(s.accounts))
      && SortedBy(CountryOrder, s.countries) && SortedBy(Ranked, s.accounts)
  {
    var s := Summary(raw, owner, now);
    assert s.countries == InOrder(CountryOrder, CountriesSet(s.accounts));
    OrdersAreTotal();
    InOrderIs(Ranked, FullAccounts(raw, owner, now).Values);
    InOrderIs(CountryOrder, CountriesSet(s.accounts));
    hide InOrder, Summary, FullAccounts, Ranked, CountryOrder, InCountry;
    PartitionOf(s.accounts, s.countries);
  }

  lemma {:induction false} ListedOnce(accounts: seq<Account>, countries: seq<Country>)
    requires multiset(countries) == multiset(CountriesSet(accounts))
    ensures DistinctIds(NamesOf(countries)) && forall c :: c in countries <==> c in CountriesSet(accounts)
  {
    hide InCountry, CountryOf;
    var entries := CountriesSet(accounts);
    forall c ensures c in countries <==> c in entries { assert c in multiset(countries) <==> c in multiset(entries); }
    assert forall c, d | c in entries && d in entries && c.country == d.country :: c == d;
    hide CountriesSet;
    forall i, j | 0 <= i < j < |countries| ensures countries[i].country != countries[j].country {
      TakeOut(countries, i);
      assert Without(countries, i)[j - 1] == countries[j];
      assert countries[j] in multiset(Without(countries, i));
      assert multiset(entries)[countries[i]] == 1;
      assert countries[i] in countries && countries[j] in countries;
    }
  }

  lemma {:induction false} PartitionOf(accounts: seq<Account>, countries: seq<Country>)
    requires multiset(countries) == multiset(CountriesSet(accounts))
    ensures DistinctIds(NamesOf(countries)) && SumInts(CountsOf(countries)) == |accounts|
    ensures forall c | c in countries ::
      c.accounts == InCountry(accounts, c.country) && c.country in CountriesNamed(accounts)
  {
    hide InCountry, CountryOf, DistinctIds;
    ListedOnce(accounts, countries);
    var names := NamesOf(countries);
    forall a | a in accounts ensures CountryOf(a) in names {
      var c := Country(CountryOf(a), InCountry(accounts, CountryOf(a)));
      assert c in countries;
      var i :| 0 <= i < |countries| && countries[i] == c;
      assert names[i] == CountryOf(a);
    }
    var h := c => InCountry(accounts, c);
    CountriesSum(accounts, names, h);
    SumIntsIs(countries, h);
  }

  lemma {:induction false} SumIntsIs(countries: seq<Country>, h: string -> int)
    requires forall c | c in countries :: c.accounts == h(c.country)
    ensures SumInts(CountsOf(countries)) == SumOf(h, NamesOf(countries))
  {
    if countries != [] {
      var front, c := countries[..|countries| - 1], countries[|countries| - 1];
      SumIntsIs(front, h);
      assert CountsOf(countries)[..|countries| - 1] == CountsOf(front);
      assert NamesOf(countries) == NamesOf(front) + [c.country];
      SumOfConcat(h, NamesOf(front), [c.country]);
      assert [c.country][1..] == [] && c in countries;
    }
  }

  // ── What the numbers depend on ────────────────────────────────────────────

  /** The hours of two inputs say the same of every set of accounts without the owner. */
  ghost predicate AlikeHours(a: seq<Row<HourCount>>, b: seq<Row<HourCount>>, owner: string) {
    forall w: Window | (forall t | t in w.tenants :: Counts(Some(t), owner)) ::
      && (forall p :: Total(w, p, a) == Total(w, p, b))
      && (forall d :: TenantsOn(w, d, a) == TenantsOn(w, d, b))
  }

  /** The tables of two inputs say the same of every tenant but the owner. */
  ghost predicate Alike(a: Raw, b: Raw, owner: string) {
    && (forall t | Counts(Some(t), owner) ::
      && Last(a.signups, t) == Last(b.signups, t) && Last(a.tins, t) == Last(b.tins, t)
      && Last(a.wallets, t) == Last(b.wallets, t) && Last(a.addresses, t) == Last(b.addresses, t)
      && Last(a.events, t) == Last(b.events, t))
    && (forall t | t in TenantsOf(a, owner) :: FirstMember(a.emails, t) == FirstMember(b.emails, t))
    && AlikeHours(a.hours, b.hours, owner)
  }

  lemma AlikeAccounts(a: Raw, b: Raw, owner: string)
    requires Alike(a, b, owner)
    ensures AccountsOf(a, owner) == AccountsOf(b, owner)
  {
    hide AlikeHours, FirstMember, Last;
    forall t ensures t in AccountsOf(a, owner) <==> t in AccountsOf(b, owner)
      ensures t in AccountsOf(a, owner) ==> AccountsOf(a, owner)[t] == AccountsOf(b, owner)[t]
    {
      AccountsAre(a, owner, t);
      AccountsAre(b, owner, t);
      if Counts(Some(t), owner) { NamedAlike(a, b, owner, t); }
      hide AccountsOf, TenantsOf;
    }
    hide AccountsOf;
  }

  lemma NamedAlike(a: Raw, b: Raw, owner: string, t: string)
    requires Alike(a, b, owner) && Counts(Some(t), owner)
    ensures t in TenantsOf(a, owner) <==> t in TenantsOf(b, owner)
  {
    hide Counts, Named, Last, FirstMember, AlikeHours;
    NotNamedNotLast(a.signups, owner, t);
    NotNamedNotLast(b.signups, owner, t);
    NotNamedNotLast(a.tins, owner, t);
    NotNamedNotLast(b.tins, owner, t);
    NotNamedNotLast(a.wallets, owner, t);
    NotNamedNotLast(b.wallets, owner, t);
    NotNamedNotLast(a.addresses, owner, t);
    NotNamedNotLast(b.addresses, owner, t);
    NotNamedNotLast(a.events, owner, t);
    NotNamedNotLast(b.events, owner, t);
  }

  lemma ChartsAlike(n: Accounts, w: Window, a: seq<Row<HourCount>>, b: seq<Row<HourCount>>)
    requires forall p :: Total(w, p, a) == Total(w, p, b)
    requires forall d :: TenantsOn(w, d, a) == TenantsOn(w, d, b)
    ensures WithRecent(n, w, a) == WithRecent(n, w, b)
    ensures HourBuckets(w, a) == HourBuckets(w, b) && WeekdayBuckets(w, a) == WeekdayBuckets(w, b)
    ensures Daily(w, a) == Daily(w, b)
  {
    hide Total, TenantsOn;
    forall i | 0 <= i < DAILY_DAYS ensures Daily(w, a)[i] == Daily(w, b)[i] {
      assert Daily(w, a)[i] == DayOf(w, FirstDay(w) + i, a) && Daily(w, b)[i] == DayOf(w, FirstDay(w) + i, b);
    }
  }

  /** Inputs that say the same give the same page. */
  lemma AlikeSamePage(a: Raw, b: Raw, owner: string, now: int)
    requires Alike(a, b, owner)
    ensures Summary(a, owner, now) == Summary(b, owner, now)
  {
    AlikeAccounts(a, b, owner);
    var m := AccountsOf(a, owner);
    forall t | t in m ensures Counts(Some(t), owner) && t in TenantsOf(a, owner) { AccountsAre(a, owner, t); }
    hide TenantsOf;
    var w := Window(m.Keys, now);
    assert forall p :: Total(w, p, a.hours) == Total(w, p, b.hours);
    assert forall d :: TenantsOn(w, d, a.hours) == TenantsOn(w, d, b.hours);
    assert WithEmails(m, a.emails) == WithEmails(m, b.emails) by { hide AccountsOf, FirstMember, AlikeHours; }
    ChartsAlike(WithEmails(m, a.emails), w, a.hours, b.hours);
    hide AccountsOf, Alike, Counts, InOrder, WithRecent, WithEmails;
    hide HourBuckets, WeekdayBuckets, Daily, TotalsOf, CountriesSet;
  }

  // The owner's rows

  /** The rows without the owner's and those that name no tenant. */
  function Others<D>(rows: seq<Row<D>>, owner: string): seq<Row<D>> {
    if rows == [] then []
    else Others(rows[..|rows| - 1], owner) + if Counts(rows[|rows| - 1].tenant, owner) then [rows[|rows| - 1]] else []
  }

  function WithoutOwner(raw: Raw, owner: string): Raw {
    Raw(Others(raw.signups, owner), Others(raw.emails, owner), Others(raw.tins, owner), Others(raw.wallets, owner),
      Others(raw.addresses, owner), Others(raw.events, owner), Others(raw.hours, owner))
  }

  lemma {:induction false} LastOfOthers<D>(rows: seq<Row<D>>, owner: string, t: string)
    requires Counts(Some(t), owner)
    ensures Last(Others(rows, owner), t) == Last(rows, t)
  {
    if rows != [] {
      var front, r := rows[..|rows| - 1], rows[|rows| - 1];
      LastOfOthers(front, owner, t);
      if Counts(r.tenant, owner) {
        assert (Others(front, owner) + [r])[..|Others(front, owner)|] == Others(front, owner);
      } else {
        assert Others(front, owner) + [] == Others(front, owner);
      }
    }
  }

  lemma {:induction false} FirstOfOthers(rows: seq<Row<Member>>, owner: string, t: string)
    requires Counts(Some(t), owner)
    ensures FirstMember(Others(rows, owner), t) == FirstMember(rows, t)
  {
    hide ValidEmail, Before;
    if rows != [] {
      var front, r := rows[..|rows| - 1], rows[|rows| - 1];
      FirstOfOthers(front, owner, t);
      if Counts(r.tenant, owner) {
        assert (Others(front, owner) + [r])[..|Others(front, owner)|] == Others(front, owner);
      } else {
        assert Others(front, owner) + [] == Others(front, owner);
      }
    }
  }

  lemma TenantsOfOneMore(w: Window, d: int, front: seq<Row<HourCount>>, r: Row<HourCount>)
    ensures TenantsOn(w, d, front + [r]) ==
      TenantsOn(w, d, front) + if Picks(w, OfDay(d), r) then {r.tenant.value} else {}
  {
  }

  lemma {:induction false} HoursOfOthers(w: Window, rows: seq<Row<HourCount>>, owner: string, p: Pick, d: int)
    requires forall t | t in w.tenants :: Counts(Some(t), owner)
    ensures Total(w, p, Others(rows, owner)) == Total(w, p, rows)
    ensures TenantsOn(w, d, Others(rows, owner)) == TenantsOn(w, d, rows)
    decreases |rows|
  {
    if rows != [] {
      var front, r := rows[..|rows| - 1], rows[|rows| - 1];
      var others := Others(front, owner);
      assert rows == front + [r];
      assert Kept(w, r) ==> Counts(r.tenant, owner);
      assert Picks(w, p, r) || Picks(w, OfDay(d), r) ==> Kept(w, r);
      assert Others(rows, owner) == if Counts(r.tenant, owner) then others + [r] else others;
      hide *;
      HoursOfOthers(w, front, owner, p, d);
      TotalOfOneMore(w, p, front, r);
      TotalOfOneMore(w, p, others, r);
      TenantsOfOneMore(w, d, front, r);
      TenantsOfOneMore(w, d, others, r);
    }
  }

  lemma AlikeHoursFrom(a: seq<Row<HourCount>>, b: seq<Row<HourCount>>, owner: string)
    requires forall w: Window, p: Pick | (forall t | t in w.tenants :: Counts(Some(t), owner)) ::
      Total(w, p, a) == Total(w, p, b)
    requires forall w: Window, d: int | (forall t | t in w.tenants :: Counts(Some(t), owner)) ::
      TenantsOn(w, d, a) == TenantsOn(w, d, b)
    ensures AlikeHours(a, b, owner)
  {
  }

  lemma OthersAlike(raw: Raw, owner: string)
    ensures Alike(raw, WithoutOwner(raw, owner), owner)
  {
    hide Counts, Others, Last, FirstMember, Total, TenantsOn, AlikeHours;
    var b := WithoutOwner(raw, owner);
    forall t | Counts(Some(t), owner)
      ensures Last(raw.signups, t) == Last(b.signups, t) && Last(raw.tins, t) == Last(b.tins, t)
        && Last(raw.wallets, t) == Last(b.wallets, t) && Last(raw.addresses, t) == Last(b.addresses, t)
        && Last(raw.events, t) == Last(b.events, t)
    {
      LastOfOthers(raw.signups, owner, t);
      LastOfOthers(raw.tins, owner, t);
      LastOfOthers(raw.wallets, owner, t);
      LastOfOthers(raw.addresses, owner, t);
      LastOfOthers(raw.events, owner, t);
    }
    forall t | t in TenantsOf(raw, owner) ensures FirstMember(raw.emails, t) == FirstMember(b.emails, t) {
      AccountsAre(raw, owner, t);
      FirstOfOthers(raw.emails, owner, t);
    }
    hide TenantsOf;
    forall w: Window, p: Pick | forall t | t in w.tenants :: Counts(Some(t), owner)
      ensures Total(w, p, raw.hours) == Total(w, p, b.hours)
    {
      HoursOfOthers(w, raw.hours, owner, p, 0);
    }
    forall w: Window, d: int | forall t | t in w.tenants :: Counts(Some(t), owner)
      ensures TenantsOn(w, d, raw.hours) == TenantsOn(w, d, b.hours)
    {
      HoursOfOthers(w, raw.hours, owner, All, d);
    }
    AlikeHoursFrom(raw.hours, b.hours, owner);
  }

  /** The owner's rows, and those that name no tenant, change no number of the page. */
  lemma {:induction false} OwnerRowsChangeNothing(raw: Raw, owner: string, now: int)
    ensures Summary(WithoutOwner(raw, owner), owner, now) == Summary(raw, owner, now)
  {
    hide *;
    OthersAlike(raw, owner);
    AlikeSamePage(raw, WithoutOwner(raw, owner), owner, now);
  }

  // The order of the rows

  lemma SameRows<D>(a: seq<Row<D>>, b: seq<Row<D>>)
    requires multiset(a) == multiset(b)
    ensures forall r :: r in a <==> r in b
  {
    forall r ensures r in a <==> r in b { assert r in multiset(a) <==> r in multiset(b); }
  }

  lemma {:induction false} LastOfShuffled<D>(a: seq<Row<D>>, b: seq<Row<D>>, owner: string, t: string)
    requires multiset(a) == multiset(b) && OneEach(a, owner) && Counts(Some(t), owner)
    ensures Last(a, t) == Last(b, t)
  {
    SameRows(a, b);
    LastIsARow(a, t);
    LastIsARow(b, t);
    hide Last, Counts;
    if Last(a, t).Some? {
      var i :| 0 <= i < |a| && a[i] == Row(Some(t), Last(a, t).value);
      assert a[i] in b;
      var j :| 0 <= j < |b| && b[j] == a[i];
      assert Last(b, t).Some?;
      var k :| 0 <= k < |b| && b[k] == Row(Some(t), Last(b, t).value);
      assert b[k] in a;
      var l :| 0 <= l < |a| && a[l] == b[k];
      assert i == l;
    } else {
      forall k | 0 <= k < |b| ensures b[k].tenant != Some(t) { assert b[k] in a; }
    }
  }

  lemma {:induction false} TotalIsASum(w: Window, p: Pick, rows: seq<Row<HourCount>>, g: Row<HourCount> -> int)
    requires forall r :: g(r) == if Picks(w, p, r) then r.data.n else 0
    ensures Total(w, p, rows) == SumOf(g, rows)
  {
    hide Picks;
    if rows != [] {
      var front, r := rows[..|rows| - 1], rows[|rows| - 1];
      TotalIsASum(w, p, front, g);
      assert rows == front + [r] && [r][1..] == [];
      SumOfConcat(g, front, [r]);
    }
  }

  lemma {:induction false} TenantsOnAre(w: Window, d: int, rows: seq<Row<HourCount>>, t: string)
    ensures t in TenantsOn(w, d, rows) <==> exists r :: r in rows && Picks(w, OfDay(d), r) && r.tenant == Some(t)
  {
    if rows != [] {
      var front, r := rows[..|rows| - 1], rows[|rows| - 1];
      assert rows == front + [r];
      TenantsOnAre(w, d, front, t);
      assert Picks(w, OfDay(d), r) ==> r.tenant.Some?;
      hide Picks;
      if t in TenantsOn(w, d, front) {
        var q :| q in front && Picks(w, OfDay(d), q) && q.tenant == Some(t);
        assert q in rows;
      }
      assert r in rows;
    }
  }

  lemma HoursOfShuffled(w: Window, p: Pick, d: int, a: seq<Row<HourCount>>, b: seq<Row<HourCount>>)
    requires multiset(a) == multiset(b)
    ensures Total(w, p, a) == Total(w, p, b) && TenantsOn(w, d, a) == TenantsOn(w, d, b)
  {
    hide *;
    var g := (r: Row<HourCount>) => if Picks(w, p, r) then r.data.n else 0;
    TotalIsASum(w, p, a, g);
    TotalIsASum(w, p, b, g);
    SumOfPermutation(g, a, b);
    SameRows(a, b);
    forall t ensures t in TenantsOn(w, d, a) <==> t in TenantsOn(w, d, b) {
      TenantsOnAre(w, d, a, t);
      TenantsOnAre(w, d, b, t);
    }
  }

  lemma BeforeIsAnOrder(a: Member, b: Member, c: Member)
    ensures !Before(a, a) && !(Before(a, b) && Before(b, a))
    ensures Before(a, b) || Before(b, a) || (a.at == b.at && a.id == b.id)
    ensures Before(a, b) && !Before(c, b) ==> Before(a, c)
    ensures !Before(a, b) && !Before(b, c) ==> !Before(a, c)
  {
    hide Less;
    BeforeFacts(a.at, b.at, c.at);
    BeforeFacts(a.id, b.id, c.id);
  }

  lemma BeforeFacts(a: string, b: string, c: string)
    ensures !Less(a, a)
    ensures a == b || Less(a, b) || Less(b, a)
    ensures !(Less(a, b) && Less(b, a))
    ensures b == c || Less(b, c) || Less(c, b)
    ensures a == c || Less(a, c) || Less(c, a)
    ensures !(Less(b, c) && Less(c, b)) && !(Less(a, c) && Less(c, a))
    ensures Less(a, b) && Less(b, c) ==> Less(a, c)
    ensures Less(c, b) && Less(b, a) ==> Less(c, a)
    ensures Less(a, c) && Less(c, b) ==> Less(a, b)
    ensures Less(b, a) && Less(a, c) ==> Less(b, c)
    ensures Less(b, c) && Less(c, a) ==> Less(b, a)
    ensures Less(c, a) && Less(a, b) ==> Less(c, b)
  {
  }

  /** The address is of the least membership by (created_at, id) among the tenant's with a valid one. */
  lemma {:induction false} FirstMemberIsLeast(rows: seq<Row<Member>>, t: string)
    ensures var first := FirstMember(rows, t);
      && (first.None? <==> forall r | r in rows && r.tenant == Some(t) :: !ValidEmail(r.data.email))
      && (first.Some? ==>
        && Row(Some(t), first.value) in rows && ValidEmail(first.value.email)
        && forall r | r in rows && r.tenant == Some(t) && ValidEmail(r.data.email) :: !Before(r.data, first.value))
  {
    hide ValidEmail, Before;
    if rows != [] {
      var front, r := rows[..|rows| - 1], rows[|rows| - 1];
      assert rows == front + [r];
      FirstMemberIsLeast(front, t);
      var best := FirstMember(front, t);
      if r.tenant == Some(t) && ValidEmail(r.data.email) {
        assert r in rows && r == Row(Some(t), r.data);
        BeforeIsAnOrder(r.data, r.data, r.data);
        if best.Some? {
          forall q | q in front && q.tenant == Some(t) && ValidEmail(q.data.email) && Before(r.data, best.value)
            ensures !Before(q.data, r.data)
          {
            BeforeIsAnOrder(q.data, best.value, r.data);
            BeforeIsAnOrder(r.data, best.value, q.data);
            BeforeIsAnOrder(q.data, r.data, q.data);
          }
        }
      }
    }
  }

  /** A membership of the tenant with a valid address and none such before it. */
  predicate IsFirst(r: Row<Member>, rows: seq<Row<Member>>, t: string) {
    && r in rows && r.tenant == Some(t) && ValidEmail(r.data.email)
    && forall q | q in rows && q.tenant == Some(t) && ValidEmail(q.data.email) :: !Before(q.data, r.data)
  }

  /** First memberships that tie, with one created_at and id, have one address. */
  ghost predicate FirstAgree(rows: seq<Row<Member>>, t: string) {
    forall r, q | IsFirst(r, rows, t) && IsFirst(q, rows, t) :: r.data.email == q.data.email
  }

  lemma FirstOfShuffled(a: seq<Row<Member>>, b: seq<Row<Member>>, t: string)
    requires multiset(a) == multiset(b) && FirstAgree(a, t)
    ensures FirstMember(a, t) == FirstMember(b, t)
  {
    SameRows(a, b);
    FirstMemberIsLeast(a, t);
    FirstMemberIsLeast(b, t);
    hide FirstMember, ValidEmail, Before;
    var x, y := FirstMember(a, t), FirstMember(b, t);
    if x.Some? && y.Some? {
      var r, q := Row(Some(t), x.value), Row(Some(t), y.value);
      assert IsFirst(r, a, t) && IsFirst(q, a, t);
      BeforeIsAnOrder(x.value, y.value, x.value);
      assert !Before(r.data, y.value) && !Before(q.data, x.value);
    }
  }

  /** A first membership that comes first in the list is the one shown. */
  lemma {:induction false} FirstInFront(rows: seq<Row<Member>>, t: string)
    requires rows != [] && IsFirst(rows[0], rows, t)
    ensures FirstMember(rows, t) == Some(rows[0].data)
  {
    hide ValidEmail, Before;
    var front, last := rows[..|rows| - 1], rows[|rows| - 1];
    assert rows == front + [last];
    if front != [] {
      assert front[0] == rows[0];
      FirstInFront(front, t);
    }
  }

  /** At most one row for each account in the tables that are grouped by it. */
  predicate Grouped(a: Raw, owner: string) {
    && OneEach(a.signups, owner) && OneEach(a.tins, owner) && OneEach(a.wallets, owner)
    && OneEach(a.addresses, owner) && OneEach(a.events, owner)
  }

  /** The same rows in another order. */
  ghost predicate Reordered(a: Raw, b: Raw) {
    && multiset(a.signups) == multiset(b.signups) && multiset(a.tins) == multiset(b.tins)
    && multiset(a.wallets) == multiset(b.wallets) && multiset(a.addresses) == multiset(b.addresses)
    && multiset(a.events) == multiset(b.events) && multiset(a.emails) == multiset(b.emails)
    && multiset(a.hours) == multiset(b.hours)
  }

  lemma ShuffledAlike(a: Raw, b: Raw, owner: string)
    requires Reordered(a, b) && Grouped(a, owner) && forall t | t in TenantsOf(a, owner) :: FirstAgree(a.emails, t)
    ensures Alike(a, b, owner)
  {
    hide Counts, Last, FirstMember, Total, TenantsOn, AlikeHours, OneEach, FirstAgree, TenantsOf;
    forall t | Counts(Some(t), owner)
      ensures Last(a.signups, t) == Last(b.signups, t) && Last(a.tins, t) == Last(b.tins, t)
        && Last(a.wallets, t) == Last(b.wallets, t) && Last(a.addresses, t) == Last(b.addresses, t)
        && Last(a.events, t) == Last(b.events, t)
    {
      LastOfShuffled(a.signups, b.signups, owner, t);
      LastOfShuffled(a.tins, b.tins, owner, t);
      LastOfShuffled(a.wallets, b.wallets, owner, t);
      LastOfShuffled(a.addresses, b.addresses, owner, t);
      LastOfShuffled(a.events, b.events, owner, t);
    }
    forall t | t in TenantsOf(a, owner) ensures FirstMember(a.emails, t) == FirstMember(b.emails, t) {
      FirstOfShuffled(a.emails, b.emails, t);
    }
    forall w: Window, p: Pick | forall t | t in w.tenants :: Counts(Some(t), owner)
      ensures Total(w, p, a.hours) == Total(w, p, b.hours)
    {
      HoursOfShuffled(w, p, 0, a.hours, b.hours);
    }
    forall w: Window, d: int | forall t | t in w.tenants :: Counts(Some(t), owner)
      ensures TenantsOn(w, d, a.hours) == TenantsOn(w, d, b.hours)
    {
      HoursOfShuffled(w, All, d, a.hours, b.hours);
    }
    AlikeHoursFrom(a.hours, b.hours, owner);
  }

  /** An account is on the page once, with the address of its first membership. */
  lemma ShownOnce(raw: Raw, owner: string, now: int, t: string)
    requires t in AccountsOf(raw, owner)
    ensures var full, accounts := FullAccounts(raw, owner, now), Summary(raw, owner, now).accounts;
      && t in full && full[t] in accounts && full[t].tenantId == t
      && forall x | x in accounts && x.tenantId == t :: x == full[t]
  {
    var full := FullAccounts(raw, owner, now);
    FullAreFiled(raw, owner, now);
    hide AccountsOf, FullAccounts;
    OrdersAreTotal();
    InOrderIs(Ranked, full.Values);
    var accounts := InOrder(Ranked, full.Values);
    assert Summary(raw, owner, now).accounts == accounts;
    hide Summary, InOrder;
    forall x ensures x in accounts <==> x in full.Values {
      assert x in multiset(accounts) <==> x in multiset(full.Values);
    }
  }

  /** One of two first memberships moved to the front of the list is the one the page shows. */
  lemma ShownInFront(a: Raw, owner: string, now: int, t: string, r: Row<Member>) returns (b: Raw)
    requires t in AccountsOf(a, owner) && IsFirst(r, a.emails, t)
    ensures Reordered(a, b) && AccountsOf(b, owner) == AccountsOf(a, owner)
    ensures FullAccounts(b, owner, now)[t].email == Some(r.data.email)
  {
    var p := MovedToFront(a.emails, r);
    b := a.(emails := p);
    assert AccountsOf(b, owner) == AccountsOf(a, owner);
    assert IsFirst(p[0], p, t) by { hide ValidEmail, Before; }
    FirstInFront(p, t);
    EmailShown(b, owner, now, t);
    hide AccountsOf, FullAccounts;
  }

  /**
   * The page depends only on which rows there are, not on the order the queries gave them in, exactly when in every
   * account the first memberships with a valid address that tie on created_at and id have one address.
   */
  lemma {:induction false} RowOrderChangesNothingExactly(a: Raw, owner: string, now: int)
    requires Grouped(a, owner)
    ensures (forall b | Reordered(a, b) :: Summary(b, owner, now) == Summary(a, owner, now)) <==>
      (forall t | t in TenantsOf(a, owner) :: FirstAgree(a.emails, t))
  {
    if forall t | t in TenantsOf(a, owner) :: FirstAgree(a.emails, t) {
      forall b | Reordered(a, b) ensures Summary(b, owner, now) == Summary(a, owner, now) {
        hide *;
        ShuffledAlike(a, b, owner);
        AlikeSamePage(a, b, owner, now);
      }
    }
    if forall b | Reordered(a, b) :: Summary(b, owner, now) == Summary(a, owner, now) {
      forall t, r, q | t in TenantsOf(a, owner) && IsFirst(r, a.emails, t) && IsFirst(q, a.emails, t)
        ensures r.data.email == q.data.email
      {
        hide *;
        AccountsAre(a, owner, t);
        var b := ShownInFront(a, owner, now, t, r);
        var c := ShownInFront(a, owner, now, t, q);
        ShownOnce(b, owner, now, t);
        ShownOnce(c, owner, now, t);
      }
    }
  }

  /** Memberships have distinct ids in their table: then no order of any table's rows changes the page. */
  lemma {:induction false} RowOrderNeverShows(a: Raw, b: Raw, owner: string, now: int)
    requires Grouped(a, owner) && Reordered(a, b)
    requires forall r, q | r in a.emails && q in a.emails && r.data.id == q.data.id :: r == q
    ensures Summary(a, owner, now) == Summary(b, owner, now)
  {
    forall t | t in TenantsOf(a, owner) ensures FirstAgree(a.emails, t) {
      forall r, q | IsFirst(r, a.emails, t) && IsFirst(q, a.emails, t) ensures r.data.email == q.data.email {
        BeforeIsAnOrder(r.data, q.data, r.data);
        hide Before, ValidEmail;
      }
    }
    hide *;
    ShuffledAlike(a, b, owner);
    AlikeSamePage(a, b, owner, now);
  }

  // ── Against emailOfTenant ─────────────────────────────────────────────────

  /** A row of tenant_memberships. */
  datatype Membership = Membership(tenant: string, userId: string, at: string, id: string)

  /** The two tables, with users' addresses trimmed, and the tenants the page asks for: signups, and all with agents. */
  datatype Directory = Directory(memberships: seq<Membership>, users: map<string, string>, asked: set<string>)

  predicate HasAddress(d: Directory, userId: string) { userId in d.users && ValidEmail(d.users[userId]) }

  function AsMember(d: Directory, m: Membership): Member {
    Member(if m.userId in d.users then d.users[m.userId] else "", m.at, m.id)
  }

  /** `rows` is what the page's query for addresses gives: memberships joined with their users, in some order. */
  ghost predicate Queried(rows: seq<Row<Member>>, d: Directory) { forall r :: r in rows <==> Joined(r, d) }

  predicate Joined(r: Row<Member>, d: Directory) {
    exists m | m in d.memberships ::
      m.userId in d.users && m.tenant in d.asked && r == Row(Some(m.tenant), AsMember(d, m))
  }

  ghost predicate DistinctMemberships(d: Directory) {
    forall m, n | m in d.memberships && n in d.memberships && m.id == n.id :: m == n
  }

  /** ORDER BY created_at ASC, id ASC LIMIT 1, among the tenant's memberships. */
  function Earliest(d: Directory, ms: seq<Membership>, tenant: string): Option<Membership> {
    if ms == [] then None
    else
      var best, m := Earliest(d, ms[..|ms| - 1], tenant), ms[|ms| - 1];
      if m.tenant == tenant && (best.None? || Before(AsMember(d, m), AsMember(d, best.value))) then Some(m) else best
  }

  /** emailOfTenant of agenticsSignup.ts: the address of the user of the earliest membership, if it is valid. */
  function EmailOfTenant(d: Directory, tenant: string): Option<string> {
    var first := Earliest(d, d.memberships, tenant);
    if first.None? || first.value.userId == "" then None
    else
      var email := AsMember(d, first.value).email;
      if ValidEmail(email) then Some(email) else None
  }

  lemma {:induction false} EarliestIsLeast(d: Directory, ms: seq<Membership>, t: string)
    ensures Earliest(d, ms, t).None? <==> forall m | m in ms :: m.tenant != t
    ensures Earliest(d, ms, t).Some? ==>
      var e := Earliest(d, ms, t).value;
      && e in ms && e.tenant == t
      && forall m | m in ms && m.tenant == t :: !Before(AsMember(d, m), AsMember(d, e))
  {
    if ms != [] {
      var front, n := ms[..|ms| - 1], ms[|ms| - 1];
      EarliestIsLeast(d, front, t);
      assert ms == front + [n];
      var e := Earliest(d, front, t);
      hide Before, AsMember;
      BeforeIsAnOrder(AsMember(d, n), AsMember(d, n), AsMember(d, n));
      forall m | m in front && m.tenant == t && e.Some? && Before(AsMember(d, n), AsMember(d, e.value))
        ensures !Before(AsMember(d, m), AsMember(d, n))
      {
        BeforeIsAnOrder(AsMember(d, n), AsMember(d, e.value), AsMember(d, m));
        BeforeIsAnOrder(AsMember(d, m), AsMember(d, n), AsMember(d, e.value));
      }
    }
  }

  /** The tenant's earliest membership is of a user with a valid address: the one the opening email goes to. */
  predicate EarliestHasAddress(d: Directory, t: string) {
    var first := Earliest(d, d.memberships, t);
    first.Some? && first.value.userId != "" && HasAddress(d, first.value.userId)
  }

  /** What the page shows when it asks for the tenant and the earliest membership has an address. */
  lemma EarliestIsShown(rows: seq<Row<Member>>, d: Directory, t: string)
    requires Queried(rows, d) && DistinctMemberships(d) && EarliestHasAddress(d, t) && t in d.asked
    ensures FirstMember(rows, t) == Some(AsMember(d, Earliest(d, d.memberships, t).value))
  {
    EarliestIsLeast(d, d.memberships, t);
    FirstMemberIsLeast(rows, t);
    var e := Earliest(d, d.memberships, t).value;
    assert Row(Some(t), AsMember(d, e)) in rows;
    var f := FirstMember(rows, t).value;
    assert Row(Some(t), f) in rows;
    var m :| m in d.memberships && m.userId in d.users && m.tenant in d.asked
      && Row(Some(t), f) == Row(Some(m.tenant), AsMember(d, m));
    hide Earliest, FirstMember, ValidEmail, Before;
    BeforeIsAnOrder(f, AsMember(d, e), f);
    assert m.id == e.id;
  }

  /** What the page shows otherwise: an address exactly when it asks for the tenant and some membership has one. */
  lemma ShownExactly(rows: seq<Row<Member>>, d: Directory, t: string)
    requires Queried(rows, d)
    ensures FirstMember(rows, t).None? <==>
      (t in d.asked ==> forall m | m in d.memberships && m.tenant == t :: !HasAddress(d, m.userId))
  {
    FirstMemberIsLeast(rows, t);
    hide FirstMember, ValidEmail, Before;
    if t in d.asked {
      forall m | m in d.memberships && m.tenant == t && HasAddress(d, m.userId) ensures FirstMember(rows, t).Some? {
        assert Row(Some(t), AsMember(d, m)) in rows;
      }
    }
    if FirstMember(rows, t).Some? { assert Row(Some(t), FirstMember(rows, t).value) in rows; }
  }

  /**
   * The page shows the address the opening email goes to exactly when the earliest membership's user has a valid
   * address and the page asks for the tenant; and, where that user has none, exactly when it does not ask or no
   * membership of the tenant has one: otherwise it shows a later one, and no email is sent.
   */
  lemma {:induction false} PageAgreesWithTheEmail(raw: Raw, d: Directory, owner: string, now: int, t: string)
    requires t in AccountsOf(raw, owner) && Queried(raw.emails, d) && DistinctMemberships(d)
    ensures FullAccounts(raw, owner, now)[t].email == EmailOfTenant(d, t) <==>
      if EarliestHasAddress(d, t) then t in d.asked
      else t in d.asked ==> forall m | m in d.memberships && m.tenant == t :: !HasAddress(d, m.userId)
  {
    EmailShown(raw, owner, now, t);
    MailedExactly(d, t);
    hide AccountsOf, FullAccounts, Earliest, FirstMember, ValidEmail, EmailOfTenant;
    ShownExactly(raw.emails, d, t);
    if EarliestHasAddress(d, t) && t in d.asked { EarliestIsShown(raw.emails, d, t); }
  }

  lemma MailedExactly(d: Directory, t: string)
    ensures EmailOfTenant(d, t).Some? <==> EarliestHasAddress(d, t)
    ensures EarliestHasAddress(d, t) ==>
      EmailOfTenant(d, t) == Some(AsMember(d, Earliest(d, d.memberships, t).value).email)
  {
    hide Earliest;
    assert !ValidEmail("");
  }

  lemma TwoRowsAreQueried(rows: seq<Row<Member>>, d: Directory, first: Membership, second: Membership)
    requires d.memberships == [first, second] && first.id != second.id
    requires {first.userId, second.userId} <= d.users.Keys && {first.tenant, second.tenant} <= d.asked
    requires rows == [Row(Some(first.tenant), AsMember(d, first)), Row(Some(second.tenant), AsMember(d, second))]
    ensures Queried(rows, d) && DistinctMemberships(d)
  {
    assert first in d.memberships && second in d.memberships;
    assert forall m | m in d.memberships :: m == first || m == second;
    forall r | r in rows ensures Joined(r, d) {
      assert r == Row(Some(first.tenant), AsMember(d, first)) || r == Row(Some(second.tenant), AsMember(d, second));
    }
  }

  lemma SignedUpIsAnAccount(raw: Raw)
    requires raw.signups == [Row(Some("t"), Signup(None, None, None, None))]
    ensures "t" in AccountsOf(raw, "o")
  {
    assert raw.signups[0] in raw.signups && Counts(Some("t"), "o") by { assert Lowered("t")[0] == 't'; }
    AccountsAre(raw, "o", "t");
  }

  /** A first sign-in without a valid address: the page shows the second one's, and no opening email is sent. */
  lemma {:induction false} LaterAddressIsShown(now: int) returns (raw: Raw, d: Directory)
    ensures Queried(raw.emails, d) && DistinctMemberships(d) && "t" in AccountsOf(raw, "o")
    ensures FullAccounts(raw, "o", now)["t"].email == Some("a@b") && EmailOfTenant(d, "t") == None
  {
    var first, second := Membership("t", "u", "2024", "1"), Membership("t", "v", "2025", "2");
    d := Directory([first, second], map["u" := "", "v" := "a@b"], {"t"});
    var rows := [Row(Some("t"), AsMember(d, first)), Row(Some("t"), AsMember(d, second))];
    raw := Raw([Row(Some("t"), Signup(None, None, None, None))], rows, [], [], [], [], []);
    TwoRowsAreQueried(rows, d, first, second);
    assert ValidEmail("a@b") && !ValidEmail("") by { assert "a@b"[1] == '@'; }
    SignedUpIsAnAccount(raw);
    EmailShown(raw, "o", now, "t");
    assert FirstMember(rows[..1], "t") == None by { assert rows[..1][..0] == []; }
    assert FirstMember(rows, "t") == Some(AsMember(d, second));
    assert Less("2024", "2025");
    assert Earliest(d, d.memberships[..1], "t") == Some(first);
    assert Earliest(d, d.memberships, "t") == Some(first);
  }

  lemma EmailShown(raw: Raw, owner: string, now: int, t: string)
    requires t in AccountsOf(raw, owner)
    ensures FullAccounts(raw, owner, now)[t].email ==
      if FirstMember(raw.emails, t).Some? then Some(FirstMember(raw.emails, t).value.email) else None
  {
    AccountsAre(raw, owner, t);
    hide AccountsOf, FirstMember, Total, Last, Counts;
  }
}
