/**
 * What the Agentics admin page says, stated on the page itself (agenticsAnalytics.ts), row by row of the tables it is
 * made from. AgenticsAnalytics builds the page; here is what that means, without the functions it is built with.
 */
module AgenticsPage {
  import opened Ordering
  import opened Owner
  import Decimals
  import SignupTable
  import opened AgenticsAnalytics

  // ── Who is listed ─────────────────────────────────────────────────────────

  /** The same id but for capital letters in the first. */
  predicate SameId(id: string, owner: string) {
    && |id| == |owner|
    && forall i | 0 <= i < |id| :: owner[i] == if 'A' <= id[i] <= 'Z' then (id[i] as int + 32) as char else id[i]
  }

  predicate NamedIn<D>(rows: seq<Row<D>>, t: string) { exists i :: 0 <= i < |rows| && rows[i].tenant == Some(t) }

  /** The tenant has an account on the page: some table names it, and it is not the owner's. */
  predicate IsListed(raw: Raw, owner: string, t: string) {
    && t != "" && !SameId(t, owner)
    && (NamedIn(raw.signups, t) || NamedIn(raw.tins, t) || NamedIn(raw.wallets, t) || NamedIn(raw.addresses, t)
      || NamedIn(raw.events, t))
  }

  lemma NamedExactly<D>(rows: seq<Row<D>>, owner: string, t: string)
    ensures t in Named(rows, owner) <==> t != "" && !SameId(t, owner) && NamedIn(rows, t)
  {
    OwnerByCharacter(t, owner);
    hide IsOwner;
    if NamedIn(rows, t) {
      var i :| 0 <= i < |rows| && rows[i].tenant == Some(t);
      assert rows[i] in rows;
    }
  }

  lemma ListedExactly(raw: Raw, owner: string, t: string)
    ensures t in AccountsOf(raw, owner) <==> IsListed(raw, owner, t)
  {
    AccountsAre(raw, owner, t);
    NamedExactly(raw.signups, owner, t);
    NamedExactly(raw.tins, owner, t);
    NamedExactly(raw.wallets, owner, t);
    NamedExactly(raw.addresses, owner, t);
    NamedExactly(raw.events, owner, t);
    hide AccountsOf, Named, NamedIn, SameId;
  }

  /** The page lists each account once, and no one else. */
  lemma {:induction false} PageListsExactly(raw: Raw, owner: string, now: int, t: string)
    ensures var accounts := Summary(raw, owner, now).accounts;
      && ((exists i :: 0 <= i < |accounts| && accounts[i].tenantId == t) <==> IsListed(raw, owner, t))
      && forall i, j | 0 <= i < j < |accounts| :: accounts[i].tenantId != accounts[j].tenantId
  {
    ListedExactly(raw, owner, t);
    var full, accounts := FullAccounts(raw, owner, now), Summary(raw, owner, now).accounts;
    FullAreFiled(raw, owner, now);
    AccountsAreFull(raw, owner, now);
    hide *;
    if t in full {
      assert full[t].tenantId == t by { assert full[t] in full.Values; FiledUnderItself(full, t); }
      assert full[t] in accounts;
    }
  }

  lemma FiledUnderItself(m: Accounts, t: string)
    requires Filed(m) && t in m
    ensures m[t].tenantId == t
  {
  }

  lemma AccountsAreFull(raw: Raw, owner: string, now: int)
    ensures var full, accounts := FullAccounts(raw, owner, now), Summary(raw, owner, now).accounts;
      && (forall a :: a in accounts <==> a.tenantId in full && full[a.tenantId] == a)
      && forall i, j | 0 <= i < j < |accounts| :: accounts[i].tenantId != accounts[j].tenantId
  {
    PageParts(raw, owner, now);
    FullAreFiled(raw, owner, now);
    var full, accounts := FullAccounts(raw, owner, now), Summary(raw, owner, now).accounts;
    hide Summary, FullAccounts, AccountsOf, InOrder, Ranked, TotalPreorder, TotalsOf, CountriesSet;
    OrdersAreTotal();
    InOrderIs(Ranked, full.Values);
    ListedOnceEach(accounts, full.Values);
    forall i, j | 0 <= i < j < |accounts| ensures accounts[i].tenantId != accounts[j].tenantId {
      assert accounts[i] in accounts && accounts[j] in accounts;
    }
  }

  // ── What an account shows ─────────────────────────────────────────────────

  /** The last row the table has of the tenant says `d`. */
  predicate SaysLast<D(==)>(rows: seq<Row<D>>, t: string, d: D) {
    exists i :: 0 <= i < |rows| && rows[i] == Row(Some(t), d) && forall j | i < j < |rows| :: rows[j].tenant != Some(t)
  }

  lemma {:induction false} LastIsLast<D>(rows: seq<Row<D>>, t: string)
    ensures Last(rows, t).None? <==> !NamedIn(rows, t)
    ensures forall d :: SaysLast(rows, t, d) ==> Last(rows, t) == Some(d)
  {
    if rows != [] {
      var front, last := rows[..|rows| - 1], rows[|rows| - 1];
      LastIsLast(front, t);
      if NamedIn(front, t) {
        var i :| 0 <= i < |front| && front[i].tenant == Some(t);
        assert rows[i] == front[i];
      }
      forall d | SaysLast(rows, t, d) && last.tenant != Some(t) ensures SaysLast(front, t, d) {
        var i :| 0 <= i < |rows| && rows[i] == Row(Some(t), d)
          && forall j | i < j < |rows| :: rows[j].tenant != Some(t);
        assert front[i] == rows[i];
      }
    }
  }

  /** Text, an @, text, with no other @ and no white space. */
  predicate LooksLikeAddress(e: string) {
    exists i | 0 < i < |e| - 1 ::
      e[i] == '@' && forall j | 0 <= j < |e| && j != i :: e[j] != '@' && !Decimals.IsSpace(e[j])
  }

  /** An account shows what the last row of each table says of it, and nothing where a table says nothing. */
  lemma {:induction false} AccountsShowTheirRows(raw: Raw, owner: string, now: int, a: Account)
    requires a in Summary(raw, owner, now).accounts
    ensures forall s | SaysLast(raw.signups, a.tenantId, s) ::
      && a.source == s.source && a.signedUpAt == s.createdAt && a.lastSeenAt == s.lastSeenAt
      && a.country == (if s.country.Some? && |s.country.value| == 2
        && 'A' <= s.country.value[0] <= 'Z' && 'A' <= s.country.value[1] <= 'Z' then s.country else None)
    ensures !NamedIn(raw.signups, a.tenantId) ==>
      a.source.None? && a.signedUpAt.None? && a.lastSeenAt.None? && a.country.None?
    ensures (forall n | SaysLast(raw.tins, a.tenantId, n) :: a.bots == n)
      && (!NamedIn(raw.tins, a.tenantId) ==> a.bots == 0)
    ensures (forall n | SaysLast(raw.wallets, a.tenantId, n) :: a.wallets == n)
      && (!NamedIn(raw.wallets, a.tenantId) ==> a.wallets == 0)
    ensures (forall n | SaysLast(raw.addresses, a.tenantId, n) :: a.addresses == n)
      && (!NamedIn(raw.addresses, a.tenantId) ==> a.addresses == 0)
    ensures forall e | SaysLast(raw.events, a.tenantId, e) ::
      && a.checks == e.checks && a.transactions == e.transactions && a.sent == e.sent && a.usd == e.usd
      && a.received == (if e.transactions > e.sent then e.transactions - e.sent else 0)
      && a.firstActivityAt == e.firstAt && a.lastActivityAt == e.lastAt
    ensures !NamedIn(raw.events, a.tenantId) ==>
      a.checks == a.transactions == a.sent == a.received == a.usd == 0
      && a.firstActivityAt.None? && a.lastActivityAt.None?
  {
    var t := a.tenantId;
    ShownIsOfTables(raw, owner, now, a);
    AccountShows(raw, owner, t);
    LastIsLast(raw.signups, t);
    LastIsLast(raw.tins, t);
    LastIsLast(raw.wallets, t);
    LastIsLast(raw.addresses, t);
    LastIsLast(raw.events, t);
    hide AccountsOf, Summary, NamedIn, SaysLast, Last;
  }

  /** All but the address and the recent events is as the grouped tables have it. */
  lemma ShownIsOfTables(raw: Raw, owner: string, now: int, a: Account)
    requires a in Summary(raw, owner, now).accounts
    ensures a.tenantId in AccountsOf(raw, owner)
    ensures var b := AccountsOf(raw, owner)[a.tenantId];
      a == b.(email := a.email, recentEvents := a.recentEvents)
    ensures FullAccounts(raw, owner, now).Keys == AccountsOf(raw, owner).Keys
    ensures FullAccounts(raw, owner, now)[a.tenantId] == a
  {
    FullAreFiled(raw, owner, now);
    AccountsAreFull(raw, owner, now);
    hide AccountsOf, Summary, FirstMember, Total;
  }

  /** The address of the first membership with one that looks like an address, by time and then id. */
  lemma {:induction false} AccountsShowTheirAddress(raw: Raw, owner: string, now: int, a: Account)
    requires a in Summary(raw, owner, now).accounts
    ensures a.email.None? <==>
      forall r | r in raw.emails && r.tenant == Some(a.tenantId) :: !LooksLikeAddress(r.data.email)
    ensures a.email.Some? ==>
      exists r | r in raw.emails && r.tenant == Some(a.tenantId) && LooksLikeAddress(r.data.email) ::
        && a.email == Some(r.data.email)
        && forall q | q in raw.emails && q.tenant == Some(a.tenantId) && LooksLikeAddress(q.data.email) ::
          !(Less(q.data.at, r.data.at) || (q.data.at == r.data.at && Less(q.data.id, r.data.id)))
  {
    var t := a.tenantId;
    ShownIsOfTables(raw, owner, now, a);
    EmailShown(raw, owner, now, t);
    FirstMemberIsLeast(raw.emails, t);
    forall e ensures ValidEmail(e) <==> LooksLikeAddress(e) { }
    hide AccountsOf, Summary, FirstMember, ValidEmail, LooksLikeAddress, Less, FullAccounts;
  }

  // ── Order and totals ──────────────────────────────────────────────────────

  /** The later of two times, where there is one. */
  function LaterOf(a: Option<string>, b: Option<string>): Option<string> {
    if a.Some? && b.Some? then (if Less(b.value, a.value) then a else b) else if a.Some? then a else b
  }

  /** When the account was last active, else signed up, else ''. */
  function LastSign(a: Account): string {
    var x := LaterOf(a.lastActivityAt, a.lastSeenAt);
    if x.Some? then x.value else if a.signedUpAt.Some? then a.signedUpAt.value else ""
  }

  /** The latest active accounts come first, then by tenant. */
  lemma {:induction false} AccountsAreInOrder(raw: Raw, owner: string, now: int)
    ensures var accounts := Summary(raw, owner, now).accounts;
      forall i, j | 0 <= i < j < |accounts| ::
        || Less(LastSign(accounts[j]), LastSign(accounts[i]))
        || (LastSign(accounts[j]) == LastSign(accounts[i]) && !Less(accounts[j].tenantId, accounts[i].tenantId))
  {
    CountriesPartition(raw, owner, now);
    var accounts := Summary(raw, owner, now).accounts;
    hide Summary, Less;
    forall i, j | 0 <= i < j < |accounts| ensures Ranked(accounts[i], accounts[j]) { }
  }

  function CountryShown(a: Account): string { if a.country.Some? then a.country.value else "Unknown" }

  function OneIn(country: string): Account -> int { (a: Account) => if CountryShown(a) == country then 1 else 0 }

  lemma {:induction false} CountedInCountry(accounts: seq<Account>, country: string)
    ensures InCountry(accounts, country) == SumOf(OneIn(country), accounts)
  {
    if accounts != [] {
      var front, last := accounts[..|accounts| - 1], accounts[|accounts| - 1];
      assert accounts == front + [last] && [last][1..] == [];
      CountedInCountry(front, country);
      SumOfConcat(OneIn(country), front, [last]);
    }
  }

  /** The rest of the page, from the accounts listed and from the hours. */
  lemma PageParts(raw: Raw, owner: string, now: int)
    ensures var s, w := Summary(raw, owner, now), Window(AccountsOf(raw, owner).Keys, now);
      && s.accounts == InOrder(Ranked, FullAccounts(raw, owner, now).Values)
      && s.totals == TotalsOf(s.accounts) && s.countries == InOrder(CountryOrder, CountriesSet(s.accounts))
      && s.byHour == HourBuckets(w, raw.hours) && s.byWeekday == WeekdayBuckets(w, raw.hours)
      && s.daily == Daily(w, raw.hours)
  {
    hide FullAccounts, AccountsOf, InOrder, TotalsOf, CountriesSet, HourBuckets, WeekdayBuckets, Daily;
  }

  lemma CountriesAreSorted(accounts: seq<Account>)
    ensures var countries := InOrder(CountryOrder, CountriesSet(accounts));
      && multiset(countries) == multiset(CountriesSet(accounts))
      && forall i, j | 0 <= i < j < |countries| :: CountryOrder(countries[i], countries[j])
  {
    OrdersAreTotal();
    InOrderIs(CountryOrder, CountriesSet(accounts));
    hide InOrder, CountryOrder, CountriesSet, TotalPreorder;
  }

  lemma CountriesAre(accounts: seq<Account>, countries: seq<Country>)
    requires multiset(countries) == multiset(CountriesSet(accounts))
    ensures forall c | c in countries ::
      c.accounts == SumOf(OneIn(c.country), accounts) && exists a :: a in accounts && CountryShown(a) == c.country
    ensures forall a | a in accounts :: exists c :: c in countries && c.country == CountryShown(a)
  {
    hide InCountry, OneIn;
    forall c ensures c in countries <==> c in CountriesSet(accounts) {
      assert c in multiset(countries) <==> c in multiset(CountriesSet(accounts));
    }
    forall c ensures InCountry(accounts, c) == SumOf(OneIn(c), accounts) { CountedInCountry(accounts, c); }
    forall a | a in accounts ensures exists c :: c in countries && c.country == CountryShown(a) {
      assert Country(CountryShown(a), InCountry(accounts, CountryShown(a))) in countries;
    }
  }

  /** Each country once, with its accounts counted; the unknown last, then the most accounts first, then by name. */
  lemma {:induction false} CountriesAreCounted(raw: Raw, owner: string, now: int)
    ensures var s := Summary(raw, owner, now);
      && (forall c | c in s.countries ::
        && c.accounts == SumOf(OneIn(c.country), s.accounts)
        && exists a :: a in s.accounts && CountryShown(a) == c.country)
      && (forall a | a in s.accounts :: exists c :: c in s.countries && c.country == CountryShown(a))
      && (forall i, j | 0 <= i < j < |s.countries| ::
        var c, d := s.countries[i], s.countries[j];
        && c.country != d.country && c.country != "Unknown"
        && (d.country != "Unknown" ==>
          c.accounts > d.accounts || (c.accounts == d.accounts && !Less(d.country, c.country))))
  {
    PageParts(raw, owner, now);
    var s := Summary(raw, owner, now);
    hide Summary, FullAccounts, AccountsOf, InOrder, Less, OneIn, InCountry, DistinctIds, CountryShown, CountriesSet;
    CountriesAreSorted(s.accounts);
    CountriesAre(s.accounts, s.countries);
    ListedOnce(s.accounts, s.countries);
    forall i, j | 0 <= i < j < |s.countries| ensures s.countries[i].country != s.countries[j].country {
      NamesDiffer(s.countries, i, j);
    }
  }

  lemma NamesDiffer(countries: seq<Country>, i: nat, j: nat)
    requires DistinctIds(NamesOf(countries)) && i < j < |countries|
    ensures countries[i].country != countries[j].country
  {
    assert NamesOf(countries)[i] == countries[i].country && NamesOf(countries)[j] == countries[j].country;
  }

  function AgentOne(a: Account): int { if a.bots > 0 then 1 else 0 }
  function ActiveOne(a: Account): int { if a.recentEvents > 0 then 1 else 0 }
  function BotsOf(a: Account): int { a.bots }
  function WalletsOf(a: Account): int { a.wallets }
  function AddressesOf(a: Account): int { a.addresses }
  function ChecksOf(a: Account): int { a.checks }
  function TransactionsOf(a: Account): int { a.transactions }
  function UsdOf(a: Account): int { a.usd }

  /** The totals are sums over the accounts listed; an account counts as active with an event in the last seven days. */
  lemma {:induction false} TotalsAddUp(raw: Raw, owner: string, now: int)
    ensures var s := Summary(raw, owner, now);
      s.totals == Totals(|s.accounts|, SumOf(AgentOne, s.accounts), SumOf(ActiveOne, s.accounts),
        SumOf(BotsOf, s.accounts), SumOf(WalletsOf, s.accounts), SumOf(AddressesOf, s.accounts),
        SumOf(ChecksOf, s.accounts), SumOf(TransactionsOf, s.accounts), SumOf(UsdOf, s.accounts))
  {
    PageParts(raw, owner, now);
    hide Summary, FullAccounts, AccountsOf, InOrder;
    TotalsAre(Summary(raw, owner, now).accounts);
  }

  lemma TotalsAre(accounts: seq<Account>)
    ensures TotalsOf(accounts) == Totals(|accounts|, SumOf(AgentOne, accounts), SumOf(ActiveOne, accounts),
      SumOf(BotsOf, accounts), SumOf(WalletsOf, accounts), SumOf(AddressesOf, accounts),
      SumOf(ChecksOf, accounts), SumOf(TransactionsOf, accounts), SumOf(UsdOf, accounts))
  {
    SumOverIs(HasAgents, accounts, AgentOne);
    SumOverIs(IsActive, accounts, ActiveOne);
    SumOverIs(Bots, accounts, BotsOf);
    SumOverIs(Wallets, accounts, WalletsOf);
    SumOverIs(Addresses, accounts, AddressesOf);
    SumOverIs(Checks, accounts, ChecksOf);
    SumOverIs(Transactions, accounts, TransactionsOf);
    SumOverIs(Usd, accounts, UsdOf);
  }

  // ── Charts ────────────────────────────────────────────────────────────────

  /** The events of the row count: it is of an account listed, of an hour of the last 30 days or today. */
  predicate IsCounted(raw: Raw, owner: string, now: int, r: Row<HourCount>) {
    && r.tenant.Some? && IsListed(raw, owner, r.tenant.value) && r.data.hour.Some? && r.data.n > 0
    && r.data.hour.value * 3_600_000 >= (now / 86_400_000 - 30) * 86_400_000
  }

  /** Days since 1970; 2024-01-07, a Sunday, is day 19,729. */
  function DayOfRow(r: Row<HourCount>): int
    requires r.data.hour.Some?
  {
    r.data.hour.value / 24
  }

  /** What the chart's bars and the accounts' recent events add up: the events of the rows counted in them. */
  datatype Bar = HourBar(h: int) | WeekdayBar(d: int) | DayBar(day: int) | RecentBar(tenant: string)

  predicate InBar(now: int, r: Row<HourCount>, b: Bar)
    requires r.data.hour.Some?
  {
    match b
    case HourBar(h) => r.data.hour.value % 24 == h
    case WeekdayBar(d) => (DayOfRow(r) - 19_729 - d) % 7 == 0
    case DayBar(day) => DayOfRow(r) == day
    case RecentBar(t) => r.tenant == Some(t) && (r.data.hour.value + 1) * 3_600_000 > now - 7 * 86_400_000
  }

  function EventsIn(raw: Raw, owner: string, now: int, b: Bar, rows: seq<Row<HourCount>>): int {
    if rows == [] then 0
    else
      var front, r := EventsIn(raw, owner, now, b, rows[..|rows| - 1]), rows[|rows| - 1];
      if IsCounted(raw, owner, now, r) && InBar(now, r, b) then front + r.data.n else front
  }

  function PickOf(b: Bar): Pick {
    match b
    case HourBar(h) => OfHour(h)
    case WeekdayBar(d) => OfWeekday(d)
    case DayBar(day) => OfDay(day)
    case RecentBar(t) => RecentOf(t)
  }

  lemma PickedIsInBar(raw: Raw, owner: string, now: int, b: Bar, r: Row<HourCount>)
    requires b.WeekdayBar? ==> 0 <= b.d < 7
    ensures Picks(Window(AccountsOf(raw, owner).Keys, now), PickOf(b), r) <==>
      IsCounted(raw, owner, now, r) && InBar(now, r, b)
  {
    if r.tenant.Some? { ListedExactly(raw, owner, r.tenant.value); }
    hide AccountsOf, IsListed;
  }

  lemma {:induction false} TotalIsEvents(raw: Raw, owner: string, now: int, b: Bar, rows: seq<Row<HourCount>>)
    requires b.WeekdayBar? ==> 0 <= b.d < 7
    ensures Total(Window(AccountsOf(raw, owner).Keys, now), PickOf(b), rows) == EventsIn(raw, owner, now, b, rows)
  {
    hide AccountsOf, Picks, IsCounted, InBar, PickOf;
    if rows != [] {
      TotalIsEvents(raw, owner, now, b, rows[..|rows| - 1]);
      PickedIsInBar(raw, owner, now, b, rows[|rows| - 1]);
    }
  }

  /** The accounts with a counted row of the day. */
  function AccountsOn(raw: Raw, owner: string, now: int, day: int): set<string> {
    set r | r in raw.hours && IsCounted(raw, owner, now, r) && DayOfRow(r) == day :: r.tenant.value
  }

  lemma TenantsAreAccountsOn(raw: Raw, owner: string, now: int, day: int)
    ensures TenantsOn(Window(AccountsOf(raw, owner).Keys, now), day, raw.hours) == AccountsOn(raw, owner, now, day)
  {
    var w := Window(AccountsOf(raw, owner).Keys, now);
    hide AccountsOf, TenantsOn;
    forall r ensures Picks(w, OfDay(day), r) <==> IsCounted(raw, owner, now, r) && DayOfRow(r) == day {
      PickedIsInBar(raw, owner, now, DayBar(day), r);
    }
    hide IsCounted, Picks;
    forall t ensures t in TenantsOn(w, day, raw.hours) <==> t in AccountsOn(raw, owner, now, day) {
      TenantsOnAre(w, day, raw.hours, t);
    }
  }

  lemma BarIsEvents(raw: Raw, owner: string, now: int, b: Bar)
    requires b.WeekdayBar? ==> 0 <= b.d < 7
    ensures var w, e := Window(AccountsOf(raw, owner).Keys, now), EventsIn(raw, owner, now, b, raw.hours);
      match b
      case HourBar(h) => Total(w, OfHour(h), raw.hours) == e
      case WeekdayBar(d) => Total(w, OfWeekday(d), raw.hours) == e
      case DayBar(day) => Total(w, OfDay(day), raw.hours) == e
      case RecentBar(t) => Total(w, RecentOf(t), raw.hours) == e
  {
    TotalIsEvents(raw, owner, now, b, raw.hours);
    hide Total, EventsIn, AccountsOf;
  }

  lemma DayIsCharted(raw: Raw, owner: string, now: int, i: nat)
    requires i < 14
    ensures var w, day := Window(AccountsOf(raw, owner).Keys, now), now / 86_400_000 - 13 + i;
      && |Daily(w, raw.hours)| == 14
      && Daily(w, raw.hours)[i] ==
        Day(day, EventsIn(raw, owner, now, DayBar(day), raw.hours), |AccountsOn(raw, owner, now, day)|)
  {
    var w, day := Window(AccountsOf(raw, owner).Keys, now), now / 86_400_000 - 13 + i;
    TenantsAreAccountsOn(raw, owner, now, day);
    BarIsEvents(raw, owner, now, DayBar(day));
    hide AccountsOf, Total, EventsIn, TenantsOn, AccountsOn;
    assert FirstDay(w) + i == day;
    assert Daily(w, raw.hours)[i] == DayOf(w, day, raw.hours);
  }

  lemma HoursOfBuckets(w: Window, rows: seq<Row<HourCount>>)
    ensures |HourBuckets(w, rows)| == 24 && |WeekdayBuckets(w, rows)| == 7 && |Daily(w, rows)| == 14
    ensures forall h | 0 <= h < 24 :: HourBuckets(w, rows)[h] == Total(w, OfHour(h), rows)
    ensures forall d | 0 <= d < 7 :: WeekdayBuckets(w, rows)[d] == Total(w, OfWeekday(d), rows)
  {
  }

  /**
   * The charts: 24 hours, seven weekdays from Sunday, the last 14 days with their events and the accounts that had any,
   * and each account's events of the hours that end in the last seven days.
   */
  lemma {:induction false} HoursAreCharted(raw: Raw, owner: string, now: int)
    ensures var s := Summary(raw, owner, now);
      && |s.byHour| == 24 && |s.byWeekday| == 7 && |s.daily| == 14
      && (forall h | 0 <= h < 24 :: s.byHour[h] == EventsIn(raw, owner, now, HourBar(h), raw.hours))
      && (forall d | 0 <= d < 7 :: s.byWeekday[d] == EventsIn(raw, owner, now, WeekdayBar(d), raw.hours))
      && (forall i | 0 <= i < 14 ::
        var day := now / 86_400_000 - 13 + i;
        s.daily[i] == Day(day, EventsIn(raw, owner, now, DayBar(day), raw.hours), |AccountsOn(raw, owner, now, day)|))
      && (forall a | a in s.accounts ::
        a.recentEvents == EventsIn(raw, owner, now, RecentBar(a.tenantId), raw.hours))
  {
    PageParts(raw, owner, now);
    var s := Summary(raw, owner, now);
    hide *;
    HoursOfBuckets(Window(AccountsOf(raw, owner).Keys, now), raw.hours);
    forall h | 0 <= h < 24 ensures s.byHour[h] == EventsIn(raw, owner, now, HourBar(h), raw.hours) {
      BarIsEvents(raw, owner, now, HourBar(h));
    }
    forall d | 0 <= d < 7 ensures s.byWeekday[d] == EventsIn(raw, owner, now, WeekdayBar(d), raw.hours) {
      BarIsEvents(raw, owner, now, WeekdayBar(d));
    }
    forall i | 0 <= i < 14
      ensures var day := now / 86_400_000 - 13 + i;
        s.daily[i] == Day(day, EventsIn(raw, owner, now, DayBar(day), raw.hours), |AccountsOn(raw, owner, now, day)|)
    {
      DayIsCharted(raw, owner, now, i);
    }
    forall a | a in s.accounts
      ensures a.recentEvents == EventsIn(raw, owner, now, RecentBar(a.tenantId), raw.hours)
    {
      RecentIsTotal(raw, owner, now, a);
      BarIsEvents(raw, owner, now, RecentBar(a.tenantId));
    }
  }

  lemma RecentIsTotal(raw: Raw, owner: string, now: int, a: Account)
    requires a in Summary(raw, owner, now).accounts
    ensures a.recentEvents == Total(Window(AccountsOf(raw, owner).Keys, now), RecentOf(a.tenantId), raw.hours)
  {
    ShownIsOfTables(raw, owner, now, a);
    NoRecentYet(raw, owner, a.tenantId);
    hide AccountsOf, Summary, Total, WithEmails;
  }
}
