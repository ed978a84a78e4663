/**
 * Cancelling every Stripe subscription of an account before it is deleted (accountDeleteBilling.ts), while others
 * (another tab, the billing portal, Stripe itself) go on changing subscriptions and any call may fail.
 */
module AccountBilling {
  import opened Ordering

  type Id = string

  datatype Status = Active | Trialing | PastDue | Unpaid | Paused | Incomplete | IncompleteExpired | Canceled

  datatype Sub = Sub(status: Status, customer: string, tenant: Option<string>)

  predicate Ended(sub: Sub) { sub.status == Canceled || sub.status == IncompleteExpired }

  /** Not labeled with another tenant. */
  predicate NotAnothers(sub: Sub, tenant: string) {
    sub.tenant.None? || sub.tenant.value == "" || sub.tenant.value == tenant
  }

  /** What may happen to subscriptions: none goes away, changes its customer or label, or comes back to life. */
  ghost predicate Onward(before: map<Id, Sub>, after: map<Id, Sub>) {
    forall id | id in before ::
      && id in after && after[id].customer == before[id].customer && after[id].tenant == before[id].tenant
      && (Ended(before[id]) ==> Ended(after[id]))
  }

  /** What happened, and who ended what: a subscription ends by the others or after this code asked to cancel it. */
  ghost predicate Moved(before: map<Id, Sub>, after: map<Id, Sub>, byOthers: set<Id>, asked: set<Id>) {
    && Onward(before, after)
    && forall id | id in before && !Ended(before[id]) && Ended(after[id]) :: id in byOthers || id in asked
  }

  lemma MovedChains(a: map<Id, Sub>, b: map<Id, Sub>, c: map<Id, Sub>, byOthers: set<Id>, more: set<Id>,
      asked: set<Id>, again: set<Id>)
    requires Moved(a, b, byOthers, asked) && Moved(b, c, more, again) && byOthers <= more
    ensures Moved(a, c, more, asked + again)
  {
  }

  /** Stripe, as its API shows it. Each call first lets the others act, then may fail. */
  class Stripe {
    var subs: map<Id, Sub>
    var calls: nat
    /** The subscriptions this code has asked to cancel. */
    var asked: seq<Id>
    /** The subscriptions the others have ended. */
    var byOthers: set<Id>
    /** What the others do before call `n`. */
    const others: (nat, map<Id, Sub>) -> map<Id, Sub>
    const fails: nat -> bool
    /** A failing cancel that Stripe carried out all the same. */
    const carriedOut: nat -> bool
    /** Subscriptions search does not show yet. */
    const unindexed: set<Id>

    ghost predicate Valid()
      reads this`subs, this`byOthers
    {
      && (forall n, m :: Onward(m, others(n, m)))
      && forall id | id in byOthers :: id in subs && Ended(subs[id])
    }

    ghost predicate NeverFails() { forall n :: !fails(n) }

    constructor (subs: map<Id, Sub>, others: (nat, map<Id, Sub>) -> map<Id, Sub>,
        fails: nat -> bool, carriedOut: nat -> bool, unindexed: set<Id>)
      requires forall n, m :: Onward(m, others(n, m))
      ensures Valid() && this.subs == subs && asked == [] && byOthers == {} && this.unindexed == unindexed
    {
      this.subs, calls, asked, byOthers := subs, 0, [], {};
      this.others, this.fails, this.carriedOut, this.unindexed := others, fails, carriedOut, unindexed;
    }

    method Begin() returns (failed: bool)
      requires Valid()
      modifies this
      ensures Valid() && Moved(old(subs), subs, byOthers, {}) && old(byOthers) <= byOthers
      ensures asked == old(asked) && (NeverFails() ==> !failed)
    {
      var next := others(calls, subs);
      byOthers := byOthers + set id | id in subs && !Ended(subs[id]) && id in next && Ended(next[id]);
      subs, failed, calls := next, fails(calls), calls + 1;
    }

    /** The customer's subscriptions; canceled ones are not listed. */
    method List(customer: string) returns (found: Option<map<Id, Sub>>)
      requires Valid()
      modifies this
      ensures Valid() && Moved(old(subs), subs, byOthers, {}) && old(byOthers) <= byOthers
      ensures asked == old(asked) && (NeverFails() ==> found.Some?)
      ensures found.Some? ==>
        found.value == map id | id in subs && subs[id].customer == customer && subs[id].status != Canceled :: subs[id]
    {
      var failed := Begin();
      if failed { return None; }
      found := Some(map id | id in subs && subs[id].customer == customer && subs[id].status != Canceled :: subs[id]);
    }

    /** The subscriptions labeled with the tenant, as far as they are indexed. */
    method Search(tenant: string) returns (found: Option<map<Id, Sub>>)
      requires Valid()
      modifies this
      ensures Valid() && Moved(old(subs), subs, byOthers, {}) && old(byOthers) <= byOthers
      ensures asked == old(asked) && (NeverFails() ==> found.Some?)
      ensures found.Some? ==>
        found.value == map id | id in subs && subs[id].tenant == Some(tenant) && id !in unindexed :: subs[id]
    {
      var failed := Begin();
      if failed { return None; }
      found := Some(map id | id in subs && subs[id].tenant == Some(tenant) && id !in unindexed :: subs[id]);
    }

    method Retrieve(id: Id) returns (sub: Option<Sub>)
      requires Valid()
      modifies this
      ensures Valid() && Moved(old(subs), subs, byOthers, {}) && old(byOthers) <= byOthers && asked == old(asked)
      ensures sub.Some? ==> id in subs && subs[id] == sub.value
      ensures NeverFails() && id in subs ==> sub.Some?
    {
      var failed := Begin();
      sub := if failed || id !in subs then None else Some(subs[id]);
    }

    /** Cancels at once; a subscription that has ended cannot be canceled again. */
    method Cancel(id: Id) returns (ok: bool)
      requires Valid()
      modifies this
      ensures Valid() && Moved(old(subs), subs, byOthers, {id}) && old(byOthers) <= byOthers
      ensures asked == old(asked) + [id]
      ensures ok ==> id in subs && Ended(subs[id])
      ensures NeverFails() && id in subs ==> Ended(subs[id])
    {
      var failed := Begin();
      asked := asked + [id];
      ok := !failed && id in subs && !Ended(subs[id]);
      if id in subs && !Ended(subs[id]) && (!failed || carriedOut(calls)) {
        subs := subs[id := subs[id].(status := Canceled)];
      }
    }
  }

  /** Normal return means the subscription has ended, by this cancel or another. */
  method CancelSubscriptionNow(stripe: Stripe, id: Id) returns (threw: bool)
    requires stripe.Valid()
    modifies stripe
    ensures stripe.Valid() && old(stripe.byOthers) <= stripe.byOthers && stripe.asked == old(stripe.asked) + [id]
    ensures Moved(old(stripe.subs), stripe.subs, stripe.byOthers, {id})
    ensures !threw ==> id in stripe.subs && Ended(stripe.subs[id])
    ensures stripe.NeverFails() && id in old(stripe.subs) ==> !threw
  {
    var ok := stripe.Cancel(id);
    threw := false;
    if !ok {
      ghost var was, wasOthers := stripe.subs, stripe.byOthers;
      var now := stripe.Retrieve(id);
      MovedChains(old(stripe.subs), was, stripe.subs, wasOthers, stripe.byOthers, {id}, {});
      threw := now.None? || !Ended(now.value);
    }
  }

  /** A subscriptions row's Stripe ids. */
  datatype Row = Row(customer: Option<string>, subscription: Option<Id>)

  datatype Outcome = Done(canceled: seq<Id>) | NotConfigured | Threw

  predicate Distinct(ids: seq<Id>) { forall i, j | 0 <= i < j < |ids| :: ids[i] != ids[j] }

  /** consider() over everything one call returned. */
  method ConsiderAll(found: map<Id, Sub>, tenant: string, live: seq<Id>) returns (more: seq<Id>)
    requires Distinct(live)
    ensures Distinct(more)
    ensures forall id :: id in more <==>
      id in live || (id in found && !Ended(found[id]) && NotAnothers(found[id], tenant))
  {
    more := live;
    var left := found.Keys;
    while left != {}
      invariant left <= found.Keys && Distinct(more)
      invariant forall id :: id in more <==>
        id in live || (id in found && id !in left && !Ended(found[id]) && NotAnothers(found[id], tenant))
      decreases left
    {
      var id :| id in left;
      left := left - {id};
      if !Ended(found[id]) && NotAnothers(found[id], tenant) && id !in more { more := more + [id]; }
    }
  }

  function Customers(rows: seq<Row>): set<string> {
    set r | r in rows && r.customer.Some? && r.customer.value != "" :: r.customer.value
  }

  function StoredIds(rows: seq<Row>): set<Id> {
    set r | r in rows && r.subscription.Some? && r.subscription.value != "" :: r.subscription.value
  }

  /** Every live id is a subscription that is not labeled with another tenant. */
  ghost predicate LiveAreOwn(subs: map<Id, Sub>, live: seq<Id>, tenant: string) {
    forall id | id in live :: id in subs && NotAnothers(subs[id], tenant)
  }

  /** What the list holds of the subscriptions of `before` was live then, picked, and not another tenant's. */
  ghost predicate LiveAtStart(before: map<Id, Sub>, live: seq<Id>, tenant: string, picked: set<Id>) {
    forall id | id in live && id in before :: id in picked && NotAnothers(before[id], tenant) && !Ended(before[id])
  }

  /** The subscriptions of `before` that are `picked` have ended or are in the list. */
  ghost predicate Covered(before: map<Id, Sub>, subs: map<Id, Sub>, live: seq<Id>, tenant: string, picked: set<Id>) {
    forall id | id in before && id in picked && NotAnothers(before[id], tenant) ::
      id in live || (id in subs && Ended(subs[id]))
  }

  function OnCustomers(subs: map<Id, Sub>, customers: set<string>): set<Id> {
    set id | id in subs && subs[id].customer in customers
  }

  function Indexed(subs: map<Id, Sub>, tenant: string, unindexed: set<Id>): set<Id> {
    set id | id in subs && subs[id].tenant == Some(tenant) && id !in unindexed
  }

  lemma CoveredStays(before: map<Id, Sub>, subs: map<Id, Sub>, after: map<Id, Sub>, live: seq<Id>, more: seq<Id>,
      tenant: string, picked: set<Id>)
    requires Covered(before, subs, live, tenant, picked) && Onward(subs, after) && forall id | id in live :: id in more
    ensures Covered(before, after, more, tenant, picked)
  {
  }

  lemma OwnStays(subs: map<Id, Sub>, after: map<Id, Sub>, live: seq<Id>, tenant: string)
    requires LiveAreOwn(subs, live, tenant) && Onward(subs, after)
    ensures LiveAreOwn(after, live, tenant)
  {
  }

  /** What a call found live, and picked by what does not change, was live and picked at the start. */
  lemma FoundWasLive(before: map<Id, Sub>, subs: map<Id, Sub>, found: map<Id, Sub>, live: seq<Id>, more: seq<Id>,
      tenant: string, picked: set<Id>, all: set<Id>)
    requires Onward(before, subs) && LiveAtStart(before, live, tenant, picked) && picked <= all
    requires forall id | id in found :: id in subs && found[id] == subs[id] && (id in before ==> id in all)
    requires forall id | id in more ::
      id in live || (id in found && !Ended(found[id]) && NotAnothers(found[id], tenant))
    ensures LiveAtStart(before, more, tenant, all)
  {
  }

  /** A list of a customer that misses nothing of it but what has ended covers the customer. */
  lemma ListCovers(before: map<Id, Sub>, subs: map<Id, Sub>, found: map<Id, Sub>, more: seq<Id>,
      tenant: string, customer: string)
    requires Onward(before, subs)
    requires found == map id | id in subs && subs[id].customer == customer && subs[id].status != Canceled :: subs[id]
    requires forall id | id in found && !Ended(found[id]) && NotAnothers(found[id], tenant) :: id in more
    ensures Covered(before, subs, more, tenant, OnCustomers(before, {customer}))
  {
  }

  lemma SearchCovers(before: map<Id, Sub>, subs: map<Id, Sub>, found: map<Id, Sub>, more: seq<Id>,
      tenant: string, unindexed: set<Id>)
    requires Onward(before, subs)
    requires found == map id | id in subs && subs[id].tenant == Some(tenant) && id !in unindexed :: subs[id]
    requires forall id | id in found && !Ended(found[id]) && NotAnothers(found[id], tenant) :: id in more
    ensures Covered(before, subs, more, tenant, Indexed(before, tenant, unindexed))
  {
  }

  /** The first loop: every customer's subscriptions. None where a call threw. */
  method ListCustomers(stripe: Stripe, tenant: string, customers: set<string>) returns (live: Option<seq<Id>>)
    requires stripe.Valid()
    modifies stripe
    ensures stripe.Valid() && old(stripe.byOthers) <= stripe.byOthers && stripe.asked == old(stripe.asked)
    ensures Moved(old(stripe.subs), stripe.subs, stripe.byOthers, {})
    ensures stripe.NeverFails() ==> live.Some?
    ensures live.Some? ==>
      && Distinct(live.value) && LiveAreOwn(stripe.subs, live.value, tenant)
      && LiveAtStart(old(stripe.subs), live.value, tenant, OnCustomers(old(stripe.subs), customers))
      && Covered(old(stripe.subs), stripe.subs, live.value, tenant, OnCustomers(old(stripe.subs), customers))
  {
    ghost var before := stripe.subs;
    var ids: seq<Id> := [];
    var left := customers;
    while left != {}
      invariant left <= customers && stripe.Valid() && stripe.asked == old(stripe.asked)
      invariant old(stripe.byOthers) <= stripe.byOthers && Moved(before, stripe.subs, stripe.byOthers, {})
      invariant Distinct(ids) && LiveAreOwn(stripe.subs, ids, tenant)
      invariant LiveAtStart(before, ids, tenant, OnCustomers(before, customers - left))
      invariant Covered(before, stripe.subs, ids, tenant, OnCustomers(before, customers - left))
      decreases left
    {
      var customer :| customer in left;
      ghost var was, wasOthers := stripe.subs, stripe.byOthers;
      var found := stripe.List(customer);
      MovedChains(before, was, stripe.subs, wasOthers, stripe.byOthers, {}, {});
      if found.None? { return None; }
      var more := ConsiderAll(found.value, tenant, ids);
      ghost var done := OnCustomers(before, customers - left);
      OwnStays(was, stripe.subs, ids, tenant);
      CoveredStays(before, was, stripe.subs, ids, more, tenant, done);
      ListCovers(before, stripe.subs, found.value, more, tenant, customer);
      FoundWasLive(before, stripe.subs, found.value, ids, more, tenant, done, done + OnCustomers(before, {customer}));
      assert done + OnCustomers(before, {customer}) == OnCustomers(before, customers - (left - {customer}));
      ids, left := more, left - {customer};
    }
    live := Some(ids);
  }

  /** The last lookups: each stored id that is not found yet. */
  method RetrieveStored(stripe: Stripe, tenant: string, stored: set<Id>, found: seq<Id>) returns (live: Option<seq<Id>>)
    requires stripe.Valid() && Distinct(found) && LiveAreOwn(stripe.subs, found, tenant)
    modifies stripe
    ensures stripe.Valid() && old(stripe.byOthers) <= stripe.byOthers && stripe.asked == old(stripe.asked)
    ensures Moved(old(stripe.subs), stripe.subs, stripe.byOthers, {})
    ensures stripe.NeverFails() && stored <= old(stripe.subs).Keys ==> live.Some?
    ensures live.Some? ==>
      && Distinct(live.value) && LiveAreOwn(stripe.subs, live.value, tenant)
      && (forall id | id in found :: id in live.value)
      && (forall id | id in live.value && id !in found && id in old(stripe.subs) ::
        id in stored && NotAnothers(old(stripe.subs)[id], tenant) && !Ended(old(stripe.subs)[id]))
      && Covered(old(stripe.subs), stripe.subs, live.value, tenant, stored)
  {
    ghost var before := stripe.subs;
    var ids, left := found, stored;
    while left != {}
      invariant left <= stored && stripe.Valid() && stripe.asked == old(stripe.asked)
      invariant old(stripe.byOthers) <= stripe.byOthers && Moved(before, stripe.subs, stripe.byOthers, {})
      invariant Distinct(ids) && LiveAreOwn(stripe.subs, ids, tenant) && forall id | id in found :: id in ids
      invariant forall id | id in ids && id !in found && id in before ::
        id in stored && NotAnothers(before[id], tenant) && !Ended(before[id])
      invariant Covered(before, stripe.subs, ids, tenant, stored - left)
      decreases left
    {
      var id :| id in left;
      if id !in ids {
        ghost var was, wasOthers := stripe.subs, stripe.byOthers;
        var sub := stripe.Retrieve(id);
        MovedChains(before, was, stripe.subs, wasOthers, stripe.byOthers, {}, {});
        if sub.None? { return None; }
        var more := ConsiderAll(map[id := sub.value], tenant, ids);
        OwnStays(was, stripe.subs, ids, tenant);
        CoveredStays(before, was, stripe.subs, ids, more, tenant, stored - left);
        ids := more;
      }
      left := left - {id};
    }
    live := Some(ids);
  }

  /** The ids asked before the last. */
  function AllButLast(ids: seq<Id>): seq<Id> { if ids == [] then [] else ids[..|ids| - 1] }

  ghost predicate AllEnded(subs: map<Id, Sub>, ids: seq<Id>) { forall id | id in ids :: id in subs && Ended(subs[id]) }

  function SetOf(ids: seq<Id>): set<Id> { set id | id in ids }

  /**
   * The last loop: cancels one after the other, and stops where one cannot be confirmed: every one asked before it
   * has ended then.
   */
  method CancelAll(stripe: Stripe, live: seq<Id>) returns (threw: bool, ghost n: nat)
    requires stripe.Valid()
    modifies stripe
    ensures stripe.Valid() && old(stripe.byOthers) <= stripe.byOthers
    ensures n <= |live| && stripe.asked == old(stripe.asked) + live[..n]
    ensures Moved(old(stripe.subs), stripe.subs, stripe.byOthers, SetOf(live[..n]))
    ensures if threw then n > 0 && AllEnded(stripe.subs, live[..n - 1]) else n == |live| && AllEnded(stripe.subs, live)
    ensures stripe.NeverFails() && (forall id | id in live :: id in old(stripe.subs)) ==> !threw
  {
    ghost var before := stripe.subs;
    n := 0;
    for i := 0 to |live|
      invariant n == i && stripe.Valid() && old(stripe.byOthers) <= stripe.byOthers
      invariant stripe.asked == old(stripe.asked) + live[..i]
      invariant Moved(before, stripe.subs, stripe.byOthers, SetOf(live[..i])) && AllEnded(stripe.subs, live[..i])
    {
      ghost var was, wasOthers := stripe.subs, stripe.byOthers;
      threw := CancelSubscriptionNow(stripe, live[i]);
      MovedChains(before, was, stripe.subs, wasOthers, stripe.byOthers, SetOf(live[..i]), {live[i]});
      n := i + 1;
      assert live[..n] == live[..i] + [live[i]];
      assert SetOf(live[..n]) == SetOf(live[..i]) + {live[i]};
      if threw { return; }
    }
    assert live[..n] == live;
    threw := false;
  }

  /** What the rows, the labels and the search index point at. */
  function Reachable(subs: map<Id, Sub>, rows: seq<Row>, tenant: string, unindexed: set<Id>): set<Id> {
    OnCustomers(subs, Customers(rows)) + Indexed(subs, tenant, unindexed) + StoredIds(rows)
  }

  /** The account's live subscriptions that the rows, the label or the index point at: what a call sets out to end. */
  function LiveOwn(subs: map<Id, Sub>, rows: seq<Row>, tenant: string, unindexed: set<Id>): set<Id> {
    set id | id in subs && id in Reachable(subs, rows, tenant, unindexed) && NotAnothers(subs[id], tenant)
      && !Ended(subs[id])
  }

  /**
   * A call on the stored rows, while search did not show `unindexed`: what it made of the subscriptions, what the
   * others had ended by then, and what it asked to cancel.
   */
  datatype Call = Call(
    rows: seq<Row>, unindexed: set<Id>, before: map<Id, Sub>, after: map<Id, Sub>, byOthers: set<Id>, ids: seq<Id>)

  /**
   * A call, failed or not: only what the others ended and what it asked to cancel has ended since, every one it asked
   * before the last has, and it asked for none there at the start but the account's live ones.
   */
  ghost predicate Attempt(c: Call, tenant: string) {
    && Moved(c.before, c.after, c.byOthers, SetOf(c.ids)) && AllEnded(c.after, AllButLast(c.ids))
    && (forall id | id in c.byOthers :: id in c.after && Ended(c.after[id]))
    && forall id | id in c.ids && id in c.before :: id in LiveOwn(c.before, c.rows, tenant, c.unindexed)
  }

  /**
   * No subscription charges the account any more: whatever a stored row names, by its customer or itself, and whatever
   * search shows under the tenant's label, unless labeled with another tenant, is canceled or has expired.
   */
  ghost predicate NothingBills(
    before: map<Id, Sub>, after: map<Id, Sub>, rows: seq<Row>, tenant: string, unindexed: set<Id>)
  {
    && (forall id, row | id in before && row in rows
        && (before[id].tenant.None? || before[id].tenant == Some("") || before[id].tenant == Some(tenant))
        && ((row.customer == Some(before[id].customer) && before[id].customer != "")
          || (row.subscription == Some(id) && id != "")) ::
      id in after && (after[id].status == Canceled || after[id].status == IncompleteExpired))
    && (forall id | id in before && before[id].tenant == Some(tenant) && id !in unindexed ::
      id in after && (after[id].status == Canceled || after[id].status == IncompleteExpired))
  }

  /** Nothing there at the start was asked to be canceled that had ended, or was not the account's. */
  ghost predicate AskedForOwnLive(before: map<Id, Sub>, rows: seq<Row>, tenant: string, ids: seq<Id>) {
    forall id | id in ids && id in before ::
      && before[id].status != Canceled && before[id].status != IncompleteExpired
      && (before[id].tenant.None? || before[id].tenant == Some("") || before[id].tenant == Some(tenant))
      && (before[id].tenant == Some(tenant)
        || exists row | row in rows ::
          || (row.customer == Some(before[id].customer) && before[id].customer != "")
          || (row.subscription == Some(id) && id != ""))
  }

  predicate NothingStored(rows: seq<Row>) {
    forall row | row in rows ::
      (row.customer.None? || row.customer == Some("")) && (row.subscription.None? || row.subscription == Some(""))
  }

  /**
   * On normal return every live subscription of the account has ended. Whatever the return, only such are ever asked
   * to be canceled, each once, and all but the last asked have ended even where the call throws.
   */
  method CancelTenantStripeSubscriptions(stripe: Stripe, configured: bool, rows: seq<Row>, tenant: string)
    returns (r: Outcome, ghost ids: seq<Id>)
    requires stripe.Valid()
    modifies stripe
    ensures stripe.Valid() && old(stripe.byOthers) <= stripe.byOthers
    ensures Attempt(Call(rows, stripe.unindexed, old(stripe.subs), stripe.subs, stripe.byOthers, ids), tenant)
    ensures !configured ==>
      && stripe.subs == old(stripe.subs) && ids == []
      && r == if Customers(rows) == {} && StoredIds(rows) == {} then Done([]) else NotConfigured
    ensures stripe.asked == old(stripe.asked) + ids && Distinct(ids) && LiveAreOwn(stripe.subs, ids, tenant)
    ensures configured && r.Done? ==>
      && r.canceled == ids && AllEnded(stripe.subs, ids)
      && forall id | id in LiveOwn(old(stripe.subs), rows, tenant, stripe.unindexed) ::
        id in stripe.subs && Ended(stripe.subs[id])
    ensures configured && r.Done? ==> NothingBills(old(stripe.subs), stripe.subs, rows, tenant, stripe.unindexed)
    ensures AskedForOwnLive(old(stripe.subs), rows, tenant, ids)
    ensures !configured ==> (r.Done? <==> NothingStored(rows))
    ensures configured && stripe.NeverFails() && StoredIds(rows) <= old(stripe.subs).Keys ==> r.Done?
  {
    var customerIds, subscriptionIds := Customers(rows), StoredIds(rows);
    NothingStoredIs(rows);
    hide NothingBills, AskedForOwnLive, NothingStored;
    ids := [];
    if !configured {
      r := if customerIds != {} || subscriptionIds != {} then NotConfigured else Done([]);
      NoneAsked(old(stripe.subs), rows, tenant);
      return;
    }
    var all := FindLive(stripe, rows, tenant);
    if all.None? {
      NoneAsked(old(stripe.subs), rows, tenant);
      return Threw, [];
    }
    ghost var s, others := stripe.subs, stripe.byOthers;
    var threw;
    ghost var n;
    threw, n := CancelAll(stripe, all.value);
    ids := all.value[..n];
    MovedChains(old(stripe.subs), s, stripe.subs, others, stripe.byOthers, {}, SetOf(ids));
    OwnStays(s, stripe.subs, all.value, tenant);
    AskedAreOwn(stripe.subs, all.value, n, tenant);
    assert !threw ==> ids == all.value;
    assert n > 0 ==> AllButLast(ids) == all.value[..n - 1];
    r := if threw then Threw else Done(all.value);
    AskedAreOwnLive(old(stripe.subs), rows, tenant, stripe.unindexed, ids);
    if !threw {
      CoveredHaveEnded(old(stripe.subs), s, stripe.subs, all.value, rows, tenant, stripe.unindexed);
      EndedBillNothing(old(stripe.subs), stripe.subs, rows, tenant, stripe.unindexed);
    }
  }

  lemma NoneAsked(subs: map<Id, Sub>, rows: seq<Row>, tenant: string)
    ensures AskedForOwnLive(subs, rows, tenant, [])
  {
  }

  lemma AskedAreOwnLive(subs: map<Id, Sub>, rows: seq<Row>, tenant: string, unindexed: set<Id>, ids: seq<Id>)
    requires forall id | id in ids && id in subs :: id in LiveOwn(subs, rows, tenant, unindexed)
    ensures AskedForOwnLive(subs, rows, tenant, ids)
  {
  }

  lemma EndedBillNothing(before: map<Id, Sub>, after: map<Id, Sub>, rows: seq<Row>, tenant: string, unindexed: set<Id>)
    requires Onward(before, after)
    requires forall id | id in LiveOwn(before, rows, tenant, unindexed) :: id in after && Ended(after[id])
    ensures NothingBills(before, after, rows, tenant, unindexed)
  {
    forall id | id in before && !Ended(before[id]) && NotAnothers(before[id], tenant)
        && id in Reachable(before, rows, tenant, unindexed)
      ensures id in after && Ended(after[id])
    {
      assert id in LiveOwn(before, rows, tenant, unindexed);
    }
    hide LiveOwn;
  }

  lemma NothingStoredIs(rows: seq<Row>)
    ensures Customers(rows) == {} && StoredIds(rows) == {} <==> NothingStored(rows)
  {
    forall row | row in rows
      ensures row.customer.Some? && row.customer.value != "" ==> row.customer.value in Customers(rows)
      ensures row.subscription.Some? && row.subscription.value != "" ==> row.subscription.value in StoredIds(rows)
    {
    }
    if NothingStored(rows) { assert Customers(rows) == {} && StoredIds(rows) == {}; }
  }

  lemma CoveredHaveEnded(before: map<Id, Sub>, subs: map<Id, Sub>, after: map<Id, Sub>, live: seq<Id>,
      rows: seq<Row>, tenant: string, unindexed: set<Id>)
    requires Covered(before, subs, live, tenant, Reachable(before, rows, tenant, unindexed))
    requires Onward(subs, after) && AllEnded(after, live)
    ensures forall id | id in LiveOwn(before, rows, tenant, unindexed) :: id in after && Ended(after[id])
  {
    hide Reachable;
  }

  /** The three ways the live subscriptions are found, one after the other. None where a call threw. */
  method FindLive(stripe: Stripe, rows: seq<Row>, tenant: string) returns (live: Option<seq<Id>>)
    requires stripe.Valid()
    modifies stripe
    ensures stripe.Valid() && old(stripe.byOthers) <= stripe.byOthers && stripe.asked == old(stripe.asked)
    ensures Moved(old(stripe.subs), stripe.subs, stripe.byOthers, {})
    ensures live.Some? ==>
      && Distinct(live.value) && LiveAreOwn(stripe.subs, live.value, tenant)
      && LiveAtStart(old(stripe.subs), live.value, tenant, Reachable(old(stripe.subs), rows, tenant, stripe.unindexed))
      && Covered(old(stripe.subs), stripe.subs, live.value, tenant,
        Reachable(old(stripe.subs), rows, tenant, stripe.unindexed))
    ensures stripe.NeverFails() && StoredIds(rows) <= old(stripe.subs).Keys ==> live.Some?
  {
    var customerIds, subscriptionIds := Customers(rows), StoredIds(rows);
    ghost var s0 := stripe.subs;
    ghost var byCustomer, byLabel := OnCustomers(s0, customerIds), Indexed(s0, tenant, stripe.unindexed);
    var listed := ListCustomers(stripe, tenant, customerIds);
    if listed.None? { return None; }
    ghost var s1, o1 := stripe.subs, stripe.byOthers;
    var found := stripe.Search(tenant);
    MovedChains(s0, s1, stripe.subs, o1, stripe.byOthers, {}, {});
    if found.None? { return None; }
    var more := ConsiderAll(found.value, tenant, listed.value);
    ghost var s2, o2 := stripe.subs, stripe.byOthers;
    OwnStays(s1, s2, listed.value, tenant);
    SearchCovers(s0, s2, found.value, more, tenant, stripe.unindexed);
    CoveredStays(s0, s1, s2, listed.value, more, tenant, byCustomer);
    FoundWasLive(s0, s2, found.value, listed.value, more, tenant, byCustomer, byCustomer + byLabel);
    live := RetrieveStored(stripe, tenant, subscriptionIds, more);
    ghost var s3 := stripe.subs;
    MovedChains(s0, s2, s3, o2, stripe.byOthers, {}, {});
    if live.None? { return None; }
    CoveredStays(s0, s2, s3, more, live.value, tenant, byCustomer);
    CoveredStays(s0, s2, s3, more, live.value, tenant, byLabel);
    CoveredEarlier(s0, s2, s3, live.value, tenant, subscriptionIds);
  }

  lemma CoveredEarlier(before: map<Id, Sub>, start: map<Id, Sub>, subs: map<Id, Sub>, live: seq<Id>,
      tenant: string, picked: set<Id>)
    requires Covered(start, subs, live, tenant, picked) && Onward(before, start)
    ensures Covered(before, subs, live, tenant, picked)
  {
  }

  lemma AskedAreOwn(subs: map<Id, Sub>, live: seq<Id>, n: nat, tenant: string)
    requires n <= |live| && Distinct(live) && LiveAreOwn(subs, live, tenant)
    ensures Distinct(live[..n]) && LiveAreOwn(subs, live[..n], tenant)
  {
  }

  // ── Retrying ──────────────────────────────────────────────────────────────

  /** What ended by the end of a call: by the others, every id before the last, and the last if carried out. */
  function Gone(c: Call): set<Id> {
    c.byOthers + SetOf(AllButLast(c.ids))
    + if c.ids != [] && c.ids[|c.ids| - 1] in c.after && Ended(c.after[c.ids[|c.ids| - 1]]) then {c.ids[|c.ids| - 1]}
      else {}
  }

  /** The call had a cancel confirmed, of one of the given subscriptions. */
  ghost predicate Confirms(c: Call, of: set<Id>) { exists id :: id in AllButLast(c.ids) && id in of }

  /**
   * Of what one call set out to end, the next is left with exactly the rest: without what the others ended, without
   * every one it asked to cancel before the last, and without the last if that was carried out. So fewer are left as
   * soon as one cancel of a subscription there at the start is confirmed.
   */
  lemma {:induction false} RetryFindsTheRest(c: Call, tenant: string)
    requires Attempt(c, tenant)
    ensures var was := LiveOwn(c.before, c.rows, tenant, c.unindexed);
      var rest := LiveOwn(c.after, c.rows, tenant, c.unindexed);
      && rest * c.before.Keys == was - Gone(c)
      && (Confirms(c, c.before.Keys) ==> |rest * c.before.Keys| < |was|)
  {
    var was, rest := LiveOwn(c.before, c.rows, tenant, c.unindexed), LiveOwn(c.after, c.rows, tenant, c.unindexed);
    var of := c.before.Keys;
    forall id ensures id in rest * of <==> id in was && id !in Gone(c) { RestExactly(c, tenant, id); }
    if Confirms(c, of) {
      var id :| id in AllButLast(c.ids) && id in of;
      AskedAreGone(c, id);
      hide LiveOwn, Moved, AllEnded, Ended, AllButLast, Gone, SetOf;
      ProperSubsetIsSmaller(rest * of, was, id);
    }
  }

  lemma AskedAreGone(c: Call, id: Id)
    requires id in AllButLast(c.ids)
    ensures id in c.ids && id in Gone(c)
  {
  }

  lemma RestExactly(c: Call, tenant: string, id: Id)
    requires Attempt(c, tenant)
    ensures id in LiveOwn(c.after, c.rows, tenant, c.unindexed) && id in c.before <==>
      id in LiveOwn(c.before, c.rows, tenant, c.unindexed) && id !in Gone(c)
  {
    if id in c.before { StillLiveExactly(c.before, c.after, c.rows, tenant, c.unindexed, id); }
    if id in c.before && !Ended(c.before[id]) { EndedExactly(c, id); }
    hide Reachable, Moved, AllEnded, Gone;
  }

  lemma StillLiveExactly(before: map<Id, Sub>, after: map<Id, Sub>, rows: seq<Row>, tenant: string,
      unindexed: set<Id>, id: Id)
    requires Onward(before, after) && id in before
    ensures id in LiveOwn(after, rows, tenant, unindexed) <==>
      id in LiveOwn(before, rows, tenant, unindexed) && !Ended(after[id])
  {
  }

  lemma EndedExactly(c: Call, id: Id)
    requires Moved(c.before, c.after, c.byOthers, SetOf(c.ids)) && AllEnded(c.after, AllButLast(c.ids))
    requires forall o | o in c.byOthers :: o in c.after && Ended(c.after[o])
    requires id in c.before && !Ended(c.before[id])
    ensures Ended(c.after[id]) <==> id in Gone(c)
  {
    assert forall i | 0 <= i < |c.ids| - 1 :: AllButLast(c.ids)[i] == c.ids[i];
  }

  /** Calls one after the other, each on what the one before it left. */
  ghost predicate Retries(start: map<Id, Sub>, calls: seq<Call>, tenant: string) {
    forall i | 0 <= i < |calls| :: Attempt(calls[i], tenant) && calls[i].before == LeftBy(start, calls[..i])
  }

  function LeftBy(start: map<Id, Sub>, calls: seq<Call>): map<Id, Sub> {
    if calls == [] then start else calls[|calls| - 1].after
  }

  function AllGone(calls: seq<Call>): set<Id> {
    if calls == [] then {} else AllGone(calls[..|calls| - 1]) + Gone(calls[|calls| - 1])
  }

  /** How many of the calls had a cancel of the given subscriptions confirmed. */
  ghost function ConfirmingCalls(calls: seq<Call>, of: set<Id>): nat {
    if calls == [] then 0
    else ConfirmingCalls(calls[..|calls| - 1], of) + if Confirms(calls[|calls| - 1], of) then 1 else 0
  }

  /** Those of the given subscriptions that are live. */
  function Live(subs: map<Id, Sub>, of: set<Id>): set<Id> { set id | id in of && id in subs && !Ended(subs[id]) }

  /**
   * However often the owner retries, and whatever the stored rows and the index come to be between the calls: of any
   * subscriptions live at the start, such as all the account's, exactly those are left that no call and nobody else
   * ended, and no more calls can confirm a cancel of one of them than there are of them.
   */
  lemma {:induction false} RetriesComeToAnEnd(start: map<Id, Sub>, calls: seq<Call>, tenant: string, of: set<Id>)
    requires Retries(start, calls, tenant) && Live(start, of) == of
    ensures Live(LeftBy(start, calls), of) == of - AllGone(calls)
    ensures |Live(LeftBy(start, calls), of)| + ConfirmingCalls(calls, of) <= |of|
  {
    if calls == [] {
      assert AllGone(calls) == {};
    } else {
      var front, last := calls[..|calls| - 1], calls[|calls| - 1];
      OneMoreCall(start, calls, tenant);
      RetriesComeToAnEnd(start, front, tenant, of);
      KeysStay(start, front, tenant);
      assert of <= last.before.Keys by { assert of <= start.Keys; }
      hide *;
      OneMoreLeaves(last, tenant, of);
      TakenAway(of, AllGone(front), Gone(last));
    }
  }

  lemma TakenAway(s: set<Id>, first: set<Id>, after: set<Id>)
    ensures s - first - after == s - (first + after)
  {
  }

  lemma OneMoreLeaves(c: Call, tenant: string, of: set<Id>)
    requires Attempt(c, tenant) && of <= c.before.Keys
    ensures Live(c.after, of) == Live(c.before, of) - Gone(c)
    ensures |Live(c.after, of)| + (if Confirms(c, of) then 1 else 0) <= |Live(c.before, of)|
  {
    var was, rest := Live(c.before, of), Live(c.after, of);
    forall id | id in of ensures id in rest <==> id in was && id !in Gone(c) {
      if !Ended(c.before[id]) { EndedExactly(c, id); }
      hide LiveOwn, Gone, AllEnded;
    }
    assert rest == was - Gone(c);
    if Confirms(c, of) {
      var id :| id in AllButLast(c.ids) && id in of;
      AskedAreGone(c, id);
      assert id in LiveOwn(c.before, c.rows, tenant, c.unindexed);
      assert id in was;
      hide *;
      ProperSubsetIsSmaller(rest, was, id);
    } else {
      hide *;
      SubsetIsNoLarger(rest, was);
    }
  }

  lemma {:induction false} KeysStay(start: map<Id, Sub>, calls: seq<Call>, tenant: string)
    requires Retries(start, calls, tenant)
    ensures start.Keys <= LeftBy(start, calls).Keys
  {
    if calls != [] {
      OneMoreCall(start, calls, tenant);
      hide Attempt, Retries, ConfirmingCalls;
      KeysStay(start, calls[..|calls| - 1], tenant);
    }
  }

  lemma OneMoreCall(start: map<Id, Sub>, calls: seq<Call>, tenant: string)
    requires calls != [] && Retries(start, calls, tenant)
    ensures var front, last := calls[..|calls| - 1], calls[|calls| - 1];
      && Retries(start, front, tenant) && Attempt(last, tenant)
      && last.before == LeftBy(start, front) && LeftBy(start, calls) == last.after
      && last.before.Keys <= last.after.Keys
      && AllGone(calls) == AllGone(front) + Gone(last)
      && forall of :: ConfirmingCalls(calls, of) == ConfirmingCalls(front, of) + if Confirms(last, of) then 1 else 0
  {
    hide Gone, Confirms, LiveOwn, AllEnded, AllButLast, Ended, SetOf;
    var front := calls[..|calls| - 1];
    forall i | 0 <= i < |front| ensures front[i] == calls[i] && front[..i] == calls[..i] { }
  }

  lemma ProperSubsetIsSmaller(a: set<Id>, b: set<Id>, x: Id)
    requires a <= b && x in b && x !in a
    ensures |a| < |b|
  {
    SubsetIsNoLarger(a, b - {x});
  }

  lemma {:induction false} SubsetIsNoLarger(a: set<Id>, b: set<Id>)
    requires a <= b
    ensures |a| <= |b|
  {
    if a != {} {
      var x :| x in a;
      SubsetIsNoLarger(a - {x}, b - {x});
    }
  }

  // ── The search text ───────────────────────────────────────────────────────

  /** s.replace(/c/g, to) of one character. */
  function ReplaceAll(s: string, c: char, to: string): string {
    if s == "" then "" else (if s[0] == c then to else [s[0]]) + ReplaceAll(s[1..], c, to)
  }

  const BACKSLASH := '\\'
  const QUOTE := '\''

  function Escaped(s: string): string {
    ReplaceAll(ReplaceAll(s, BACKSLASH, [BACKSLASH, BACKSLASH]), QUOTE, [BACKSLASH, QUOTE])
  }

  function SearchLiteral(s: string): string { [QUOTE] + Escaped(s) + [QUOTE] }

  /**
   * What a literal denotes, read from after its first quote: a backslash takes the next character as it is, and the
   * literal ends at the first other quote; None if it does not, or has more after it.
   */
  function ReadLiteral(t: string): Option<string> {
    if t == "" then None
    else if t[0] == QUOTE then (if |t| == 1 then Some("") else None)
    else if t[0] == BACKSLASH then
      if |t| == 1 then None
      else match ReadLiteral(t[2..]) case None => None case Some(r) => Some([t[1]] + r)
    else match ReadLiteral(t[1..]) case None => None case Some(r) => Some([t[0]] + r)
  }

  lemma {:induction false} EscapedStep(s: string)
    requires s != ""
    ensures Escaped(s) == (if s[0] == BACKSLASH || s[0] == QUOTE then [BACKSLASH, s[0]] else [s[0]]) + Escaped(s[1..])
  {
    var u := ReplaceAll(s[1..], BACKSLASH, [BACKSLASH, BACKSLASH]);
    if s[0] == BACKSLASH {
      var v := [BACKSLASH, BACKSLASH] + u;
      assert v[0] == BACKSLASH && v[1..] == [BACKSLASH] + u && v[1..][1..] == u;
      assert ReplaceAll(v, QUOTE, [BACKSLASH, QUOTE]) ==
        [BACKSLASH] + ([BACKSLASH] + ReplaceAll(u, QUOTE, [BACKSLASH, QUOTE]));
    } else {
      var v := [s[0]] + u;
      assert v[1..] == u;
    }
  }

  /**
   * The literal denotes the text it was made of, and ends where it ends: no quote or backslash of a tenant id closes
   * it early, or escapes the closing quote.
   */
  lemma {:induction false} LiteralReadsBack(s: string)
    ensures SearchLiteral(s) == [QUOTE] + (Escaped(s) + [QUOTE]) && ReadLiteral(SearchLiteral(s)[1..]) == Some(s)
  {
    assert SearchLiteral(s) == [QUOTE] + (Escaped(s) + [QUOTE]);
    EscapedReads(s);
    assert SearchLiteral(s)[1..] == Escaped(s) + [QUOTE];
  }

  lemma {:induction false} EscapedReads(s: string)
    ensures ReadLiteral(Escaped(s) + [QUOTE]) == Some(s)
  {
    if s == "" {
      assert Escaped(s) + [QUOTE] == [QUOTE];
    } else {
      EscapedStep(s);
      EscapedReads(s[1..]);
      hide Escaped;
      assert [s[0]] + s[1..] == s;
      var t, rest := Escaped(s) + [QUOTE], Escaped(s[1..]) + [QUOTE];
      if s[0] == BACKSLASH || s[0] == QUOTE {
        assert t == [BACKSLASH, s[0]] + rest && t[2..] == rest;
      } else {
        assert t == [s[0]] + rest && t[1..] == rest;
      }
    }
  }

  /** So the searches of two tenants never read alike. */
  lemma {:induction false} LiteralsTellTenantsApart(a: string, b: string)
    requires SearchLiteral(a) == SearchLiteral(b)
    ensures a == b
  {
    LiteralReadsBack(a);
    LiteralReadsBack(b);
  }
}
