/**
 * The table agentics_signups and the statements of agenticsSignup.ts on it. Each statement names one tenant and
 * runs atomically. A time column holds the whole second of its stamp: `Stamps.StampBeforeIsSecondBefore` and
 * `Stamps.StampOrderIsSecondOrder` say that comparing the stored texts is comparing these.
 */
module SignupTable {
  import opened Ordering
  import opened Stamps
  import opened Statements

  type Tenant = string

  /** A time column: the second of the stamp in it, or NULL. */
  type Column = Option<int>

  datatype Row = Row(
    source: string,
    createdAt: string,
    claimedAt: Column,
    welcomedAt: Column,
    openClaimedAt: Column,
    openedNotifiedAt: Column,
    country: Option<string>,
    lastSeenAt: Column)

  /** `column IS NULL OR column < stamp(now - window)`. */
  predicate NullOrOlder(c: Column, now: int, window: nat) {
    c.None? || c.value < Sec(now - window)
  }

  // ── What each statement makes of a row it matches ─────────────────────────

  function NewRow(source: string, createdAt: string, vaultOpen: bool, now: int): Row {
    Row(source, createdAt, None, None, None, if vaultOpen then Some(Sec(now)) else None, None, None)
  }

  predicate WelcomeClaimable(r: Row, now: int) {
    r.welcomedAt.None? && NullOrOlder(r.claimedAt, now, CLAIM_STALE_MS)
  }

  function WelcomeReleased(r: Row): Row {
    if r.welcomedAt.None? then r.(claimedAt := None) else r
  }

  function Welcomed(r: Row, now: int, alsoOpened: bool): Row {
    r.(welcomedAt := Some(Sec(now)), openedNotifiedAt := if alsoOpened then Some(Sec(now)) else r.openedNotifiedAt)
  }

  predicate OpeningClaimable(r: Row, now: int) {
    r.openedNotifiedAt.None? && NullOrOlder(r.openClaimedAt, now, CLAIM_STALE_MS)
  }

  /** Given the time of a claim, the release matches only that claim's stamp; given none, any claim. */
  function OpeningReleased(r: Row, claimedAt: Option<int>): Row {
    if r.openedNotifiedAt.None? && (claimedAt.None? || r.openClaimedAt == Some(Sec(claimedAt.value))) then
      r.(openClaimedAt := None)
    else r
  }

  function Opened(r: Row, now: int): Row { r.(openedNotifiedAt := Some(Sec(now))) }

  predicate SeenDue(r: Row, now: int) { NullOrOlder(r.lastSeenAt, now, SEEN_EVERY_MS) }

  /** The first known country stays. */
  function WithCountry(r: Row, country: string): Row {
    if r.country.None? then r.(country := Some(country)) else r
  }

  function Seen(r: Row, now: int): Row { if SeenDue(r, now) then r.(lastSeenAt := Some(Sec(now))) else r }

  /** /^[A-Z]{2}$/ */
  predicate IsCountryCode(s: string) { |s| == 2 && 'A' <= s[0] <= 'Z' && 'A' <= s[1] <= 'Z' }

  /** The country a visit may write: the two-letter code it comes with, if it is one. */
  function Code(country: Option<string>): Option<string> {
    if country.Some? && IsCountryCode(country.value) then country else None
  }

  /** touchSignup's two UPDATEs, each with its own reply; the second runs only once the first is through. */
  function Touched(r: Row, country: Option<string>, now: int, countryReply: Reply, seenReply: Reply): Row {
    var code := Code(country);
    var noted := if code.Some? && Applied(countryReply) then WithCountry(r, code.value) else r;
    if code.Some? && countryReply != Done then noted
    else if Applied(seenReply) then Seen(noted, now)
    else noted
  }

  // ── The table ─────────────────────────────────────────────────────────────

  class Signups {
    var rows: map<Tenant, Row>

    constructor ()
      ensures rows == map[]
    {
      rows := map[];
    }

    /** True when this call made the row; a row that is already there is left as it is. */
    method RegisterSignup(t: Tenant, source: string, createdAt: string, vaultOpen: bool, now: int) returns (made: bool)
      modifies this
      ensures made <==> t !in old(rows)
      ensures rows == if made then old(rows)[t := NewRow(source, createdAt, vaultOpen, now)] else old(rows)
      ensures t in rows && (made ==>
        && rows[t].source == source && rows[t].createdAt == createdAt
        && rows[t].openedNotifiedAt == (if vaultOpen then Some(Sec(now)) else None)
        && rows[t].claimedAt == rows[t].welcomedAt == rows[t].openClaimedAt == rows[t].lastSeenAt == None
        && rows[t].country == None)
    {
      made := t !in rows;
      if made { rows := rows[t := NewRow(source, createdAt, vaultOpen, now)]; }
    }

    method SetCountry(t: Tenant, country: string)
      modifies this
      ensures rows == if t in old(rows) then old(rows)[t := WithCountry(old(rows)[t], country)] else old(rows)
      ensures t in old(rows) ==>
        rows[t] == if old(rows)[t].country.None? then old(rows)[t].(country := Some(country)) else old(rows)[t]
    {
      if t in rows && rows[t].country.None? { rows := rows[t := rows[t].(country := Some(country))]; }
    }

    method SetLastSeen(t: Tenant, now: int)
      modifies this
      ensures rows == if t in old(rows) then old(rows)[t := Seen(old(rows)[t], now)] else old(rows)
      ensures t in old(rows) ==> var seen := old(rows)[t].lastSeenAt;
        rows[t] == old(rows)[t].(
          lastSeenAt := if seen.None? || seen.value < Sec(now - 3_600_000) then Some(Sec(now)) else seen)
    {
      if t in rows && (rows[t].lastSeenAt.None? || rows[t].lastSeenAt.value < Sec(now - SEEN_EVERY_MS)) {
        rows := rows[t := rows[t].(lastSeenAt := Some(Sec(now)))];
      }
    }

    /** False when one of its UPDATEs threw. */
    method TouchSignup(t: Tenant, country: Option<string>, now: int, countryReply: Reply, seenReply: Reply)
      returns (ok: bool)
      modifies this
      ensures rows ==
        if t in old(rows) then old(rows)[t := Touched(old(rows)[t], country, now, countryReply, seenReply)]
        else old(rows)
      ensures ok <==> (Code(country).Some? ==> countryReply == Done) && seenReply == Done
      ensures t in old(rows) && old(rows)[t].country.None? ==>
        rows[t].country ==
          if countryReply != ThrewLost && country.Some? && |country.value| == 2
            && 'A' <= country.value[0] <= 'Z' && 'A' <= country.value[1] <= 'Z' then country else None
    {
      var code := Code(country);
      if code.Some? {
        if Applied(countryReply) { SetCountry(t, code.value); }
        if countryReply != Done { return false; }
      }
      if Applied(seenReply) { SetLastSeen(t, now); }
      ok := seenReply == Done;
    }

    method ClaimWelcome(t: Tenant, now: int) returns (claimed: bool)
      modifies this
      ensures claimed <==>
        && t in old(rows) && old(rows)[t].welcomedAt.None?
        && (old(rows)[t].claimedAt.None? || old(rows)[t].claimedAt.value < Sec(now - 900_000))
      ensures rows == if claimed then old(rows)[t := old(rows)[t].(claimedAt := Some(Sec(now)))] else old(rows)
    {
      claimed := t in rows && rows[t].welcomedAt.None?
        && (rows[t].claimedAt.None? || rows[t].claimedAt.value < Sec(now - CLAIM_STALE_MS));
      if claimed { rows := rows[t := rows[t].(claimedAt := Some(Sec(now)))]; }
    }

    method MarkWelcomed(t: Tenant, now: int, alsoOpened: bool)
      modifies this
      ensures rows == if t in old(rows) then old(rows)[t := Welcomed(old(rows)[t], now, alsoOpened)] else old(rows)
      ensures t in old(rows) ==> rows[t] == old(rows)[t].(welcomedAt := Some(Sec(now)),
        openedNotifiedAt := if alsoOpened then Some(Sec(now)) else old(rows)[t].openedNotifiedAt)
    {
      if t in rows {
        var r := rows[t].(welcomedAt := Some(Sec(now)));
        if alsoOpened { r := r.(openedNotifiedAt := Some(Sec(now))); }
        rows := rows[t := r];
      }
    }

    method ReleaseWelcome(t: Tenant)
      modifies this
      ensures rows == if t in old(rows) then old(rows)[t := WelcomeReleased(old(rows)[t])] else old(rows)
      ensures t in old(rows) ==>
        rows[t] == if old(rows)[t].welcomedAt.None? then old(rows)[t].(claimedAt := None) else old(rows)[t]
    {
      if t in rows && rows[t].welcomedAt.None? { rows := rows[t := rows[t].(claimedAt := None)]; }
    }

    method ClaimOpening(t: Tenant, now: int) returns (claimed: bool)
      modifies this
      ensures claimed <==>
        && t in old(rows) && old(rows)[t].openedNotifiedAt.None?
        && (old(rows)[t].openClaimedAt.None? || old(rows)[t].openClaimedAt.value < Sec(now - 900_000))
      ensures rows == if claimed then old(rows)[t := old(rows)[t].(openClaimedAt := Some(Sec(now)))] else old(rows)
    {
      claimed := t in rows && rows[t].openedNotifiedAt.None?
        && (rows[t].openClaimedAt.None? || rows[t].openClaimedAt.value < Sec(now - CLAIM_STALE_MS));
      if claimed { rows := rows[t := rows[t].(openClaimedAt := Some(Sec(now)))]; }
    }

    method MarkOpened(t: Tenant, now: int)
      modifies this
      ensures rows == if t in old(rows) then old(rows)[t := Opened(old(rows)[t], now)] else old(rows)
      ensures t in old(rows) ==> rows[t] == old(rows)[t].(openedNotifiedAt := Some(Sec(now)))
    {
      if t in rows { rows := rows[t := rows[t].(openedNotifiedAt := Some(Sec(now)))]; }
    }

    method ReleaseOpening(t: Tenant, claimedAt: Option<int>)
      modifies this
      ensures rows == if t in old(rows) then old(rows)[t := OpeningReleased(old(rows)[t], claimedAt)] else old(rows)
      ensures t in old(rows) ==> var r := old(rows)[t];
        rows[t] ==
          if r.openedNotifiedAt.Some? then r
          else if claimedAt.Some? && r.openClaimedAt != Some(Sec(claimedAt.value)) then r
          else r.(openClaimedAt := None)
    {
      if t in rows && rows[t].openedNotifiedAt.None? {
        if claimedAt.None? || rows[t].openClaimedAt == Some(Sec(claimedAt.value)) {
          rows := rows[t := rows[t].(openClaimedAt := None)];
        }
      }
    }
  }
}
