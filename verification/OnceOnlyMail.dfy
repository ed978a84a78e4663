/**
 * The once-only mails of agenticsSignup.ts as a state machine on one account: any number of calls claim its row,
 * send, mark and release in any interleaving, and any of them may crash, time out or lose a statement's reply.
 * A run is a list of actions; an action that is not possible in a state changes nothing, so a statement about
 * every list is a statement about every run.
 */
module OnceOnlyMail {
  import opened Ordering
  import opened Stamps
  import opened SignupTable
  import opened Statements

  /** A refused send is any that throws but for running out of time; the mail may have gone out all the same. */
  datatype SendResult = Delivered | SendRefused(mailWent: bool) | SendTimedOut

  /** What one call that took a claim is doing. A timed-out send keeps its claim and may still arrive. */
  datatype Phase = Held | Sent(tries: nat) | AwaitingArrival | GivingBack | Finished

  /** One claim on the row, by the call that took it at time `at`, and what became of it. */
  datatype Claim = Claim(at: int, phase: Phase, delivered: bool, released: bool, markedAt: Option<int>)

  datatype State = State(
    now: int,
    row: Option<Row>,
    openings: seq<Claim>,
    welcomes: seq<Claim>,
    seenWrites: seq<int>)

  datatype Action =
    | Tick(ms: nat)
    | Register(source: string, createdAt: string, vaultOpen: bool)
    | NoteCountry(country: string)
    | NoteSeen
    | OpenClaim(reply: Reply)
    | OpenNoAddress(i: nat, reply: Reply)
    | OpenLookupThrew(i: nat)
    | OpenSend(i: nat, result: SendResult)
    | OpenLateArrival(i: nat)
    | OpenMark(i: nat, reply: Reply)
    | OpenRelease(i: nat, reply: Reply)
    | OpenCrash(i: nat, mailWent: bool)
    | WelcomeClaim(reply: Reply)
    | WelcomeSend(i: nat, throws: bool, mailWent: bool)
    | WelcomeMark(i: nat, alsoOpened: bool, reply: Reply)
    | WelcomeRelease(i: nat, reply: Reply)
    | WelcomeCrash(i: nat, mailWent: bool)

  function Init(now: int): State { State(now, None, [], [], []) }

  // ── The steps ─────────────────────────────────────────────────────────────

  function WithOpening(s: State, i: nat, c: Claim): State
    requires i < |s.openings|
  {
    s.(openings := s.openings[i := c])
  }

  function WithWelcome(s: State, i: nat, c: Claim): State
    requires i < |s.welcomes|
  {
    s.(welcomes := s.welcomes[i := c])
  }

  /** A claim just taken; a call that never hears of its success does nothing with it. */
  function TakenClaim(s: State, reply: Reply): Claim {
    Claim(s.now, if reply == Done then Held else Finished, false, false, None)
  }

  function OpenStep(s: State, r: Row, a: Action): State
    requires s.row == Some(r)
  {
    match a
    case OpenClaim(reply) =>
      if OpeningClaimable(r, s.now) && Applied(reply) then
        s.(row := Some(r.(openClaimedAt := Some(Sec(s.now)))), openings := s.openings + [TakenClaim(s, reply)])
      else s
    case OpenNoAddress(i, reply) =>
      if i < |s.openings| && s.openings[i].phase == Held then
        var c := s.openings[i].(phase := if reply == Done then Finished else GivingBack);
        if Applied(reply) then
          WithOpening(s, i, c.(markedAt := Some(s.now))).(row := Some(Opened(r, s.now)))
        else WithOpening(s, i, c)
      else s
    case OpenLookupThrew(i) =>
      if i < |s.openings| && s.openings[i].phase == Held then
        WithOpening(s, i, s.openings[i].(phase := GivingBack))
      else s
    case OpenSend(i, result) =>
      if i < |s.openings| && s.openings[i].phase == Held then
        match result
        case Delivered => WithOpening(s, i, s.openings[i].(phase := Sent(0), delivered := true))
        case SendRefused(mailWent) =>
          WithOpening(s, i, s.openings[i].(phase := GivingBack, delivered := mailWent))
        case SendTimedOut => WithOpening(s, i, s.openings[i].(phase := AwaitingArrival))
      else s
    case OpenLateArrival(i) =>
      if i < |s.openings| && s.openings[i].phase == AwaitingArrival then
        WithOpening(s, i, s.openings[i].(phase := Finished, delivered := true))
      else s
    case OpenMark(i, reply) =>
      if i < |s.openings| && s.openings[i].phase.Sent? then
        var c := s.openings[i];
        var d := c.(phase := if reply == Done || c.phase.tries >= 2 then Finished else Sent(c.phase.tries + 1));
        if Applied(reply) then
          WithOpening(s, i, d.(markedAt := if c.markedAt.None? then Some(s.now) else c.markedAt))
            .(row := Some(Opened(r, s.now)))
        else WithOpening(s, i, d)
      else s
    case OpenRelease(i, reply) =>
      if i < |s.openings| && s.openings[i].phase == GivingBack then
        var c := s.openings[i].(phase := Finished, released := Applied(reply));
        if Applied(reply) then
          WithOpening(s, i, c).(row := Some(OpeningReleased(r, Some(c.at))))
        else WithOpening(s, i, c)
      else s
    case OpenCrash(i, mailWent) =>
      if i < |s.openings| then
        var c := s.openings[i];
        WithOpening(s, i, c.(phase := Finished, delivered := c.delivered || (c.phase == Held && mailWent)))
      else s
    case _ => s
  }

  function WelcomeStep(s: State, r: Row, a: Action): State
    requires s.row == Some(r)
  {
    match a
    case WelcomeClaim(reply) =>
      if WelcomeClaimable(r, s.now) && Applied(reply) then
        s.(row := Some(r.(claimedAt := Some(Sec(s.now)))), welcomes := s.welcomes + [TakenClaim(s, reply)])
      else s
    case WelcomeSend(i, throws, mailWent) =>
      if i < |s.welcomes| && s.welcomes[i].phase == Held then
        WithWelcome(s, i, s.welcomes[i].(
          phase := if throws then GivingBack else Sent(0), delivered := !throws || mailWent))
      else s
    case WelcomeMark(i, alsoOpened, reply) =>
      if i < |s.welcomes| && s.welcomes[i].phase.Sent? then
        var c := s.welcomes[i].(phase := if reply == Done then Finished else GivingBack);
        if Applied(reply) then
          WithWelcome(s, i, c.(markedAt := Some(s.now))).(row := Some(Welcomed(r, s.now, alsoOpened)))
        else WithWelcome(s, i, c)
      else s
    case WelcomeRelease(i, reply) =>
      if i < |s.welcomes| && s.welcomes[i].phase == GivingBack then
        var c := s.welcomes[i].(phase := Finished, released := Applied(reply));
        if Applied(reply) then WithWelcome(s, i, c).(row := Some(WelcomeReleased(r))) else WithWelcome(s, i, c)
      else s
    case WelcomeCrash(i, mailWent) =>
      if i < |s.welcomes| then
        var c := s.welcomes[i];
        WithWelcome(s, i, c.(phase := Finished, delivered := c.delivered || (c.phase == Held && mailWent)))
      else s
    case _ => s
  }

  function Next(s: State, a: Action): State {
    match a
    case Tick(ms) => s.(now := s.now + ms)
    case Register(source, createdAt, vaultOpen) =>
      if s.row.None? then s.(row := Some(NewRow(source, createdAt, vaultOpen, s.now))) else s
    case NoteCountry(country) =>
      if s.row.None? then s else s.(row := Some(WithCountry(s.row.value, country)))
    case NoteSeen =>
      if s.row.None? then s
      else
        s.(row := Some(Seen(s.row.value, s.now)),
           seenWrites := s.seenWrites + if SeenDue(s.row.value, s.now) then [s.now] else [])
    case WelcomeClaim(_) => if s.row.None? then s else WelcomeStep(s, s.row.value, a)
    case WelcomeSend(_, _, _) => if s.row.None? then s else WelcomeStep(s, s.row.value, a)
    case WelcomeMark(_, _, _) => if s.row.None? then s else WelcomeStep(s, s.row.value, a)
    case WelcomeRelease(_, _) => if s.row.None? then s else WelcomeStep(s, s.row.value, a)
    case WelcomeCrash(_, _) => if s.row.None? then s else WelcomeStep(s, s.row.value, a)
    case _ => if s.row.None? then s else OpenStep(s, s.row.value, a)
  }

  /** The state after a list of actions. */
  function Exec(s: State, actions: seq<Action>): State {
    if actions == [] then s else Next(Exec(s, actions[..|actions| - 1]), actions[|actions| - 1])
  }

  // ── What one step can make of a claim ─────────────────────────────────────

  /**
   * Any call may stop at once. One that has not sent may find no address and mark, or fail and give back, or send: the
   * mail arrives, or not, or may still arrive, and the call hears of it, or that it failed, or nothing. A mark is tried
   * three times, and giving back once.
   */
  predicate OpeningMoves(c: Claim, d: Claim, now: int) {
    var marked := c.(markedAt := if c.phase.Sent? && c.markedAt.Some? then c.markedAt else Some(now));
    d in {c, c.(phase := Finished)} ||
    match c.phase
    case Held =>
      d in {c.(phase := GivingBack), marked.(phase := Finished), marked.(phase := GivingBack),
        c.(phase := Sent(0), delivered := true), c.(phase := Finished, delivered := true),
        c.(phase := GivingBack, delivered := true), c.(phase := GivingBack, delivered := false),
        c.(phase := AwaitingArrival)}
    case AwaitingArrival => d == c.(phase := Finished, delivered := true)
    case Sent(tries) =>
      var again := if tries >= 2 then Finished else Sent(tries + 1);
      d in {marked.(phase := Finished), marked.(phase := again), c.(phase := again)}
    case GivingBack => d in {c.(phase := Finished, released := true), c.(phase := Finished, released := false)}
    case Finished => false
  }

  lemma OpeningMovesOnly(s: State, i: nat, a: Action)
    requires i < |s.openings|
    ensures i < |Next(s, a).openings| && OpeningMoves(s.openings[i], Next(s, a).openings[i], s.now)
  {
  }

  /** A step can make of an opening claim exactly these. */
  lemma {:induction false} OpeningMovesExactly(s: State, i: nat, d: Claim)
    requires s.row.Some? && i < |s.openings|
    ensures (exists a :: i < |Next(s, a).openings| && Next(s, a).openings[i] == d) <==>
      OpeningMoves(s.openings[i], d, s.now)
  {
    var c := s.openings[i];
    forall a ensures OpeningMoves(c, Next(s, a).openings[i], s.now) { OpeningMovesOnly(s, i, a); }
    if OpeningMoves(c, d, s.now) {
      var a := OpeningMoveTo(s, i, d);
    }
  }

  lemma OpeningMoveTo(s: State, i: nat, d: Claim) returns (a: Action)
    requires s.row.Some? && i < |s.openings| && OpeningMoves(s.openings[i], d, s.now)
    ensures i < |Next(s, a).openings| && Next(s, a).openings[i] == d
  {
    var c := s.openings[i];
    if d == c {
      a := Tick(0);
    } else if d == c.(phase := Finished) {
      a := OpenCrash(i, false);
    } else if c.phase == Held {
      a := if d == c.(phase := GivingBack) then OpenLookupThrew(i)
        else if d.phase.Sent? then OpenSend(i, Delivered)
        else if d.phase == AwaitingArrival then OpenSend(i, SendTimedOut)
        else if d == c.(phase := Finished, delivered := true) then OpenCrash(i, true)
        else if d == c.(phase := GivingBack, delivered := d.delivered) then OpenSend(i, SendRefused(d.delivered))
        else OpenNoAddress(i, if d.phase == Finished then Done else ThrewApplied);
    } else if c.phase == AwaitingArrival {
      a := OpenLateArrival(i);
    } else if c.phase.Sent? {
      var marked := c.(markedAt := if c.markedAt.Some? then c.markedAt else Some(s.now));
      a := OpenMark(i,
        if d == marked.(phase := Finished) then Done else if d.markedAt == marked.markedAt then ThrewApplied
        else ThrewLost);
    } else {
      a := OpenRelease(i, if d.released then Done else ThrewLost);
    }
  }

  /** The account is untold and its row free, or claimed 15 minutes ago and more. */
  predicate MayBeClaimed(s: State) {
    && s.row.Some? && s.row.value.openedNotifiedAt.None?
    && (s.row.value.openClaimedAt.None? || s.row.value.openClaimedAt.value < Sec(s.now - 900_000))
  }

  lemma ClaimedOnly(s: State, a: Action)
    ensures var t, n := Next(s, a), |s.openings|;
      && n <= |t.openings| <= n + 1
      && (|t.openings| == n + 1 ==>
        && MayBeClaimed(s) && t.row == Some(s.row.value.(openClaimedAt := Some(Sec(s.now))))
        && t.openings[n] in {Claim(s.now, Held, false, false, None), Claim(s.now, Finished, false, false, None)})
  {
  }

  /**
   * A step can add exactly these opening claims: one of this moment, when the account may be claimed, which then bears
   * its stamp; its call holds it unless the statement's reply was lost.
   */
  lemma {:induction false} OpeningIsClaimedExactly(s: State, d: Claim)
    ensures (exists a :: Next(s, a).openings == s.openings + [d]) <==>
      && MayBeClaimed(s)
      && d in {Claim(s.now, Held, false, false, None), Claim(s.now, Finished, false, false, None)}
    ensures forall a :: Next(s, a).openings == s.openings + [d] ==>
      Next(s, a).row == Some(s.row.value.(openClaimedAt := Some(Sec(s.now))))
  {
    forall a | Next(s, a).openings == s.openings + [d]
      ensures MayBeClaimed(s) && Next(s, a).row == Some(s.row.value.(openClaimedAt := Some(Sec(s.now))))
      ensures d in {Claim(s.now, Held, false, false, None), Claim(s.now, Finished, false, false, None)}
    {
      ClaimedOnly(s, a);
      hide Next;
      assert Next(s, a).openings[|s.openings|] == d;
    }
    if MayBeClaimed(s) && d in {Claim(s.now, Held, false, false, None), Claim(s.now, Finished, false, false, None)} {
      var a := OpenClaim(if d.phase == Held then Done else ThrewApplied);
      assert Next(s, a).openings == s.openings + [d];
    }
  }

  /** The same for the welcome letter, whose mark is tried once and which is given back when that throws. */
  predicate WelcomeMoves(c: Claim, d: Claim, now: int) {
    d in {c, c.(phase := Finished)} ||
    match c.phase
    case Held =>
      d in {c.(phase := Sent(0), delivered := true), c.(phase := Finished, delivered := true),
        c.(phase := GivingBack, delivered := true), c.(phase := GivingBack, delivered := false)}
    case Sent(_) =>
      d in {c.(phase := Finished, markedAt := Some(now)), c.(phase := GivingBack, markedAt := Some(now)),
        c.(phase := GivingBack)}
    case GivingBack => d in {c.(phase := Finished, released := true), c.(phase := Finished, released := false)}
    case _ => false
  }

  lemma WelcomeMovesOnly(s: State, i: nat, a: Action)
    requires i < |s.welcomes|
    ensures i < |Next(s, a).welcomes| && WelcomeMoves(s.welcomes[i], Next(s, a).welcomes[i], s.now)
  {
  }

  /** A step can make of a welcome claim exactly these. */
  lemma {:induction false} WelcomeMovesExactly(s: State, i: nat, d: Claim)
    requires s.row.Some? && i < |s.welcomes|
    ensures (exists a :: i < |Next(s, a).welcomes| && Next(s, a).welcomes[i] == d) <==>
      WelcomeMoves(s.welcomes[i], d, s.now)
  {
    var c := s.welcomes[i];
    forall a ensures WelcomeMoves(c, Next(s, a).welcomes[i], s.now) { WelcomeMovesOnly(s, i, a); }
    if WelcomeMoves(c, d, s.now) {
      var a := WelcomeMoveTo(s, i, d);
    }
  }

  lemma WelcomeMoveTo(s: State, i: nat, d: Claim) returns (a: Action)
    requires s.row.Some? && i < |s.welcomes| && WelcomeMoves(s.welcomes[i], d, s.now)
    ensures i < |Next(s, a).welcomes| && Next(s, a).welcomes[i] == d
  {
    var c := s.welcomes[i];
    if d == c {
      a := Tick(0);
    } else if d == c.(phase := Finished) {
      a := WelcomeCrash(i, false);
    } else if c.phase == Held {
      a := if d.phase == Finished then WelcomeCrash(i, true) else WelcomeSend(i, d.phase == GivingBack, d.delivered);
    } else if c.phase.Sent? {
      a := WelcomeMark(i, false, if d.phase == Finished then Done else if d == c.(phase := GivingBack) then ThrewLost
        else ThrewApplied);
    } else {
      a := WelcomeRelease(i, if d.released then Done else ThrewLost);
    }
  }

  /** The letter is unsent and the row free, or claimed 15 minutes ago and more. */
  predicate MayBeWelcomed(s: State) {
    && s.row.Some? && s.row.value.welcomedAt.None?
    && (s.row.value.claimedAt.None? || s.row.value.claimedAt.value < Sec(s.now - 900_000))
  }

  lemma ClaimedForTheLetterOnly(s: State, a: Action)
    ensures var t, n := Next(s, a), |s.welcomes|;
      && n <= |t.welcomes| <= n + 1
      && (|t.welcomes| == n + 1 ==>
        && MayBeWelcomed(s) && t.row == Some(s.row.value.(claimedAt := Some(Sec(s.now))))
        && t.welcomes[n] in {Claim(s.now, Held, false, false, None), Claim(s.now, Finished, false, false, None)})
  {
  }

  /** A step can add exactly these welcome claims. */
  lemma {:induction false} WelcomeIsClaimedExactly(s: State, d: Claim)
    ensures (exists a :: Next(s, a).welcomes == s.welcomes + [d]) <==>
      && MayBeWelcomed(s)
      && d in {Claim(s.now, Held, false, false, None), Claim(s.now, Finished, false, false, None)}
    ensures forall a :: Next(s, a).welcomes == s.welcomes + [d] ==>
      Next(s, a).row == Some(s.row.value.(claimedAt := Some(Sec(s.now))))
  {
    forall a | Next(s, a).welcomes == s.welcomes + [d]
      ensures MayBeWelcomed(s) && Next(s, a).row == Some(s.row.value.(claimedAt := Some(Sec(s.now))))
      ensures d in {Claim(s.now, Held, false, false, None), Claim(s.now, Finished, false, false, None)}
    {
      ClaimedForTheLetterOnly(s, a);
      hide Next;
      assert Next(s, a).welcomes[|s.welcomes|] == d;
    }
    if MayBeWelcomed(s) && d in {Claim(s.now, Held, false, false, None), Claim(s.now, Finished, false, false, None)} {
      var a := WelcomeClaim(if d.phase == Held then Done else ThrewApplied);
      assert Next(s, a).welcomes == s.welcomes + [d];
    }
  }

  // ── The opening email ─────────────────────────────────────────────────────

  /** The row still carries this claim's stamp, or the claim is old enough to be taken over. */
  predicate HoldsOrStale(s: State, c: Claim) {
    s.row.Some? && (s.row.value.openClaimedAt == Some(Sec(c.at)) || Sec(c.at) < Sec(s.now - CLAIM_STALE_MS))
  }

  predicate OpeningSound(s: State, c: Claim) {
    && c.at <= s.now
    && (!c.released ==> HoldsOrStale(s, c))
    && (c.phase != Finished ==> !c.released)
    && (c.delivered ==> c.phase != Held && c.phase != AwaitingArrival)
    && (c.phase.Sent? ==> c.delivered)
    && (c.phase == Held || c.phase == AwaitingArrival ==> c.markedAt.None?)
    && (c.delivered && c.markedAt.Some? ==> !c.released && c.phase != GivingBack)
    && (c.markedAt.Some? ==> s.row.Some? && s.row.value.openedNotifiedAt.Some?)
  }

  /** Every later claim is more than the stale time after one that was not given back. */
  predicate Apart(c: Claim, d: Claim) {
    !c.released ==> Sec(c.at) < Sec(d.at - CLAIM_STALE_MS)
  }

  /** No claim is taken after the account was marked told. */
  predicate NotAfterMark(c: Claim, d: Claim) { c.markedAt.Some? ==> d.at <= c.markedAt.value }

  ghost predicate OpeningInv(s: State) {
    && (forall i | 0 <= i < |s.openings| :: OpeningSound(s, s.openings[i]))
    && (forall i, j | 0 <= i < j < |s.openings| :: Apart(s.openings[i], s.openings[j]))
    && (forall i, j | 0 <= i < |s.openings| && 0 <= j < |s.openings| :: NotAfterMark(s.openings[i], s.openings[j]))
  }

  lemma ClaimKeepsInv(s: State, r: Row, reply: Reply)
    requires OpeningInv(s) && s.row == Some(r)
    ensures OpeningInv(OpenStep(s, r, OpenClaim(reply)))
  {
  }

  /** A step on one claim keeps the invariant when it changes the row in no way the other claims notice. */
  lemma StepOnClaimKeepsInv(s: State, t: State, i: nat)
    requires OpeningInv(s) && i < |s.openings| && s.row.Some? && t.row.Some? && t.now == s.now
    requires |t.openings| == |s.openings| && t.openings == s.openings[i := t.openings[i]]
    requires var c, d := s.openings[i], t.openings[i];
      && d.at == c.at && (c.released ==> d.released)
      && (d.markedAt == c.markedAt || d.markedAt == Some(s.now))
      && OpeningSound(t, d)
    requires s.row.value.openedNotifiedAt.Some? ==> t.row.value.openedNotifiedAt.Some?
    requires forall j | 0 <= j < |s.openings| && j != i :: HoldsOrStale(s, s.openings[j]) && !s.openings[j].released ==>
      HoldsOrStale(t, s.openings[j])
    ensures OpeningInv(t)
  {
  }

  /**
   * releaseOpening, given its own claim time, leaves every other claim on the row: two claims that were not given
   * back never carry the same stamp, so the guard can match only the releaser's own.
   */
  lemma {:induction false} ReleaseLeavesOtherClaims(s: State, i: nat, j: nat)
    requires OpeningInv(s) && s.row.Some? && i < |s.openings| && j < |s.openings| && i != j
    requires !s.openings[i].released && !s.openings[j].released
    ensures Sec(s.openings[i].at) != Sec(s.openings[j].at)
    ensures s.row.value.openClaimedAt == Some(Sec(s.openings[j].at)) ==>
      OpeningReleased(s.row.value, Some(s.openings[i].at)).openClaimedAt == Some(Sec(s.openings[j].at))
  {
  }

  lemma OpenStepKeepsInv(s: State, r: Row, a: Action)
    requires OpeningInv(s) && s.row == Some(r)
    ensures OpeningInv(OpenStep(s, r, a))
  {
    var t := OpenStep(s, r, a);
    if a.OpenClaim? {
      ClaimKeepsInv(s, r, a.reply);
    } else if t != s {
      var i := a.i;
      assert OpeningSound(s, s.openings[i]);
      assert t.openings == s.openings[i := t.openings[i]];
      forall j | 0 <= j < |s.openings| && j != i && HoldsOrStale(s, s.openings[j]) && !s.openings[j].released
        ensures HoldsOrStale(t, s.openings[j])
      {
        if a.OpenRelease? { ReleaseLeavesOtherClaims(s, i, j); }
      }
      StepOnClaimKeepsInv(s, t, i);
    }
  }

  /** A step that touches neither the opening columns nor the opening claims. */
  lemma OtherStepKeepsInv(s: State, t: State)
    requires OpeningInv(s) && t.openings == s.openings && s.now <= t.now
    requires s.row.Some? ==> t.row.Some? && t.row.value.openClaimedAt == s.row.value.openClaimedAt
    requires s.row.Some? && s.row.value.openedNotifiedAt.Some? ==> t.row.value.openedNotifiedAt.Some?
    ensures OpeningInv(t)
  {
  }

  lemma NextKeepsOpeningInv(s: State, a: Action)
    requires OpeningInv(s)
    ensures OpeningInv(Next(s, a))
  {
    var t := Next(s, a);
    match a
    case Tick(_) => OtherStepKeepsInv(s, t);
    case Register(_, _, _) => OtherStepKeepsInv(s, t);
    case NoteCountry(_) => OtherStepKeepsInv(s, t);
    case NoteSeen => OtherStepKeepsInv(s, t);
    case WelcomeClaim(_) => OtherStepKeepsInv(s, t);
    case WelcomeSend(_, _, _) => OtherStepKeepsInv(s, t);
    case WelcomeMark(_, _, _) => OtherStepKeepsInv(s, t);
    case WelcomeRelease(_, _) => OtherStepKeepsInv(s, t);
    case WelcomeCrash(_, _) => OtherStepKeepsInv(s, t);
    case _ => if s.row.Some? { OpenStepKeepsInv(s, s.row.value, a); }
  }

  lemma {:induction false} RunsKeepOpeningInv(now: int, actions: seq<Action>)
    ensures OpeningInv(Exec(Init(now), actions))
  {
    if actions != [] {
      RunsKeepOpeningInv(now, actions[..|actions| - 1]);
      NextKeepsOpeningInv(Exec(Init(now), actions[..|actions| - 1]), actions[|actions| - 1]);
    }
  }

  /**
   * In every run, any opening claim taken after one that was not given back was taken more than CLAIM_STALE_MS after
   * it, whatever crashes, times out or fails to be marked. So two claims that both end in a delivery are that far
   * apart, unless the first was given back after its mail had gone out.
   */
  lemma {:induction false} DeliveredOpeningsAreApart(now: int, actions: seq<Action>, i: nat, j: nat)
    requires i < j < |Exec(Init(now), actions).openings| && !Exec(Init(now), actions).openings[i].released
    ensures var s := Exec(Init(now), actions); s.openings[j].at - s.openings[i].at > CLAIM_STALE_MS
  {
    RunsKeepOpeningInv(now, actions);
    var s := Exec(Init(now), actions);
    assert Apart(s.openings[i], s.openings[j]);
    AgeInSeconds(s.openings[i].at, s.openings[j].at, CLAIM_STALE_MS);
  }

  /** Every delivering claim was marked while it was too young to be taken over. */
  ghost predicate DeliveriesMarkedInTime(s: State) {
    forall i | 0 <= i < |s.openings| && s.openings[i].delivered ::
      s.openings[i].markedAt.Some? && s.openings[i].markedAt.value <= s.openings[i].at + CLAIM_STALE_MS
  }

  /** When every delivering call marks in time, an account gets at most one opening email. */
  lemma {:induction false} AtMostOneOpening(now: int, actions: seq<Action>, i: nat, j: nat)
    requires DeliveriesMarkedInTime(Exec(Init(now), actions))
    requires var s := Exec(Init(now), actions);
      i < |s.openings| && j < |s.openings| && s.openings[i].delivered && s.openings[j].delivered
    ensures i == j
  {
    if i < j {
      EarlierDeliveryIsLate(now, actions, i, j);
    } else if j < i {
      EarlierDeliveryIsLate(now, actions, j, i);
    }
  }

  lemma {:induction false} EarlierDeliveryIsLate(now: int, actions: seq<Action>, i: nat, j: nat)
    requires var s := Exec(Init(now), actions);
      i < j < |s.openings| && s.openings[i].delivered && s.openings[j].delivered
    ensures var c := Exec(Init(now), actions).openings[i];
      c.markedAt.None? || c.markedAt.value > c.at + CLAIM_STALE_MS
  {
    RunsKeepOpeningInv(now, actions);
    var s := Exec(Init(now), actions);
    assert OpeningSound(s, s.openings[i]) && NotAfterMark(s.openings[i], s.openings[j]);
    if s.openings[i].markedAt.Some? { DeliveredOpeningsAreApart(now, actions, i, j); }
  }

  /**
   * In every run, giving a claim back leaves every other claim that still stands: if the row carried the stamp of
   * another call's claim, it carries it afterwards.
   */
  lemma {:induction false} ReleaseNeverClearsAnother(now: int, actions: seq<Action>, i: nat, reply: Reply, j: nat)
    requires var s := Exec(Init(now), actions);
      && j < |s.openings| && j != i && !s.openings[j].released
      && s.row.Some? && s.row.value.openClaimedAt == Some(Sec(s.openings[j].at))
    ensures var t := Exec(Init(now), actions + [OpenRelease(i, reply)]);
      t.row.Some? && t.row.value.openClaimedAt == Some(Sec(t.openings[j].at))
  {
    RunsKeepOpeningInv(now, actions);
    var s := Exec(Init(now), actions);
    var more := actions + [OpenRelease(i, reply)];
    assert more[..|more| - 1] == actions;
    if i < |s.openings| && s.openings[i].phase == GivingBack {
      assert OpeningSound(s, s.openings[i]);
      ReleaseLeavesOtherClaims(s, i, j);
    }
  }

  // ── What is never undone ──────────────────────────────────────────────────

  /** Columns that only fill up, and claims that are only ever added once the account has not been told. */
  predicate OnlyForward(s: State, t: State) {
    && s.now <= t.now
    && (s.row.Some? ==>
      && t.row.Some?
      && (s.row.value.welcomedAt.Some? ==> t.row.value.welcomedAt.Some? && |t.welcomes| == |s.welcomes|)
      && (s.row.value.openedNotifiedAt.Some? ==> t.row.value.openedNotifiedAt.Some? && |t.openings| == |s.openings|)
      && (s.row.value.country.Some? ==> t.row.value.country == s.row.value.country)
      && t.row.value.source == s.row.value.source && t.row.value.createdAt == s.row.value.createdAt)
  }

  lemma StepOnlyForward(s: State, a: Action)
    ensures OnlyForward(s, Next(s, a))
  {
    hide Sec, NullOrOlder;
  }

  /**
   * Once an account is marked told, by registering with the vault open, by a welcome letter that says so or by its
   * opening email, no continuation of the run ever claims it for the opening email; once welcomed, none ever claims
   * it for the letter. Neither mark, nor the first known country, is ever undone.
   */
  lemma {:induction false} MarksAreForever(s: State, actions: seq<Action>)
    ensures OnlyForward(s, Exec(s, actions))
  {
    if actions != [] {
      MarksAreForever(s, actions[..|actions| - 1]);
      StepOnlyForward(Exec(s, actions[..|actions| - 1]), actions[|actions| - 1]);
    }
  }

  /** The two ways besides its own email that mark an account told. */
  lemma {:induction false} ToldWithoutTheOpeningEmail(s: State, a: Action, more: seq<Action>)
    requires
      || (a.Register? && a.vaultOpen && s.row.None?)
      || (a.WelcomeMark? && a.alsoOpened && Applied(a.reply)
        && s.row.Some? && a.i < |s.welcomes| && s.welcomes[a.i].phase.Sent?)
    ensures |Exec(Next(s, a), more).openings| == |s.openings|
  {
    MarksAreForever(Next(s, a), more);
  }

  // ── When another opening email can go out ─────────────────────────────────

  /** A claim delivered in `after` that was not there, or not delivered, in `before`. */
  predicate NewDelivery(before: seq<Claim>, after: seq<Claim>) {
    exists i :: 0 <= i < |after| && after[i].delivered && (i >= |before| || !before[i].delivered)
  }

  /** The claim's mail may still go out: its call has not sent yet, or its timed-out mail may arrive. */
  predicate MailAhead(c: Claim) { c.phase == Held || c.phase == AwaitingArrival }

  /** The account is marked told and no claim has its mail ahead. */
  predicate OpeningOver(s: State) {
    && s.row.Some? && s.row.value.openedNotifiedAt.Some?
    && forall i | 0 <= i < |s.openings| :: !MailAhead(s.openings[i])
  }

  predicate SameDeliveries(before: seq<Claim>, after: seq<Claim>) {
    |after| == |before| && forall i | 0 <= i < |after| :: after[i].delivered == before[i].delivered
  }

  lemma OpeningStaysOver(s: State, a: Action)
    requires OpeningOver(s)
    ensures OpeningOver(Next(s, a)) && SameDeliveries(s.openings, Next(s, a).openings)
  {
  }

  lemma {:induction false} OpeningRunsStayOver(s: State, more: seq<Action>)
    requires OpeningOver(s)
    ensures OpeningOver(Exec(s, more)) && SameDeliveries(s.openings, Exec(s, more).openings)
  {
    if more != [] {
      OpeningRunsStayOver(s, more[..|more| - 1]);
      hide OpeningOver, Next;
      OpeningStaysOver(Exec(s, more[..|more| - 1]), more[|more| - 1]);
    }
  }

  /** How long to wait until a claim's stamp is stale. */
  function WaitFor(c: Column, now: int): nat {
    var stale := if c.None? then now else (c.value + 1) * MS_PER_SECOND + CLAIM_STALE_MS;
    if stale > now then stale - now else 0
  }

  lemma WaitedLongEnough(c: Column, now: int)
    ensures NullOrOlder(c, now + WaitFor(c, now), CLAIM_STALE_MS)
  {
  }

  /** From a row that is not told, a new call can claim, if need be after a wait, and deliver. */
  lemma {:induction false} UntoldIsMailed(start: State, trace: seq<Action>, s: State)
    returns (longer: seq<Action>, end: State)
    requires s == Exec(start, trace) && s.row.Some? && s.row.value.openedNotifiedAt.None?
    ensures end == Exec(start, longer)
    ensures |end.openings| == |s.openings| + 1 && end.openings[|s.openings|].delivered
  {
    var wait := WaitFor(s.row.value.openClaimedAt, s.now);
    WaitedLongEnough(s.row.value.openClaimedAt, s.now);
    hide WaitFor;
    longer, end := Then(start, trace, s, Tick(wait));
    longer, end := Then(start, longer, end, OpenClaim(Done));
    longer, end := Then(start, longer, end, OpenSend(|s.openings|, Delivered));
  }

  /** Registering while the vault is closed makes a row to be mailed, and no claim. */
  lemma RegisteredIsUnmailed(s: State)
    requires s.row.None?
    ensures var t := Next(s, Register("direct", "", false));
      && t.row.Some? && t.row.value.openedNotifiedAt.None? && t.row.value.welcomedAt.None?
      && t.openings == s.openings && t.welcomes == s.welcomes
  {
  }

  lemma {:induction false} AnotherOpeningGoesOut(now: int, actions: seq<Action>, s: State) returns (more: seq<Action>)
    requires s == Exec(Init(now), actions) && !OpeningOver(s)
    ensures NewDelivery(s.openings, Exec(s, more).openings)
  {
    RunsKeepOpeningInv(now, actions);
    hide OpeningInv, OpeningSound, Next;
    var t := s;
    more := [];
    if s.row.None? {
      RegisteredIsUnmailed(s);
      more, t := Then(s, more, t, Register("direct", "", false));
    }
    if t.row.value.openedNotifiedAt.None? {
      more, t := UntoldIsMailed(s, more, t);
    } else {
      var i :| 0 <= i < |s.openings| && MailAhead(s.openings[i]);
      var a := MailAheadArrives(s, i);
      assert !s.openings[i].delivered by { HeldIsUndelivered(s, i); }
      more, t := Then(s, more, t, a);
    }
  }

  lemma HeldIsUndelivered(s: State, i: nat)
    requires OpeningInv(s) && i < |s.openings| && MailAhead(s.openings[i])
    ensures !s.openings[i].delivered
  {
    assert OpeningSound(s, s.openings[i]);
  }

  /**
   * After any run another opening email can still go out exactly when the account is not marked told, or has no row,
   * or a call still holds a claim it has not sent for, or a timed-out mail may still arrive.
   */
  lemma {:induction false} AnotherOpeningExactly(now: int, actions: seq<Action>)
    ensures var s := Exec(Init(now), actions);
      (exists more :: NewDelivery(s.openings, Exec(s, more).openings)) <==>
        || s.row.None? || s.row.value.openedNotifiedAt.None?
        || exists i :: 0 <= i < |s.openings| && (s.openings[i].phase == Held || s.openings[i].phase == AwaitingArrival)
  {
    var s := Exec(Init(now), actions);
    hide Exec, NewDelivery;
    if OpeningOver(s) {
      forall more ensures !NewDelivery(s.openings, Exec(s, more).openings) {
        OpeningRunsStayOver(s, more);
        NothingNew(s.openings, Exec(s, more).openings);
      }
    } else {
      var more := AnotherOpeningGoesOut(now, actions, s);
      assert NewDelivery(s.openings, Exec(s, more).openings);
    }
  }

  lemma NothingNew(before: seq<Claim>, after: seq<Claim>)
    requires SameDeliveries(before, after)
    ensures !NewDelivery(before, after)
  {
  }

  // ── When a second opening email can follow at once ────────────────────────

  /** A later claim, taken within the stale time after claim `i`, has its mail delivered too. */
  predicate SecondSoon(s: State, i: nat) {
    exists j :: i < j < |s.openings| && s.openings[j].delivered && s.openings[j].at - s.openings[i].at <= CLAIM_STALE_MS
  }

  /** A later claim, taken within the stale time after claim `i`, has its mail ahead. */
  predicate SecondMailAhead(s: State, i: nat) {
    exists j ::
      i < j < |s.openings| && MailAhead(s.openings[j]) && s.openings[j].at - s.openings[i].at <= CLAIM_STALE_MS
  }

  /** The account can be claimed anew within the stale time after claim `i`: it is free, or its claim is given back. */
  predicate SecondClaimAhead(s: State, i: nat)
    requires i < |s.openings|
  {
    && s.row.Some? && s.row.value.openedNotifiedAt.None? && s.now - s.openings[i].at <= CLAIM_STALE_MS
    && (s.row.value.openClaimedAt.None? || s.openings[|s.openings| - 1].phase == GivingBack)
  }

  predicate SecondAhead(s: State, i: nat)
    requires i < |s.openings|
  {
    SecondSoon(s, i) || SecondMailAhead(s, i) || SecondClaimAhead(s, i)
  }

  /** Claims are in the order of their times, and the stamp of an untold row is of the last, which is not given back. */
  predicate LastHolds(s: State) {
    && (forall i, j | 0 <= i <= j < |s.openings| :: s.openings[i].at <= s.openings[j].at <= s.now)
    && (s.row.None? ==> s.openings == [])
    && (s.row.Some? && s.row.value.openClaimedAt.Some? ==>
      && s.openings != []
      && var last := s.openings[|s.openings| - 1];
      && s.row.value.openClaimedAt == Some(Sec(last.at))
      && (s.row.value.openedNotifiedAt.None? ==> !last.released))
  }

  /** What a step that neither claims nor releases can do to the claims and to the opening columns. */
  predicate LeavesClaims(s: State, t: State) {
    && s.now <= t.now && |t.openings| == |s.openings|
    && (forall i | 0 <= i < |s.openings| ::
      var c, d := s.openings[i], t.openings[i];
      && d.at == c.at && d.released == c.released && (c.delivered && !MailAhead(c) ==> d.delivered)
      && (MailAhead(d) || (d.delivered && !c.delivered) || (d.phase == GivingBack && c.phase != GivingBack) ==>
        MailAhead(c)))
    && (t.row.None? ==> s.row.None?)
    && (s.row.None? && t.row.Some? ==> t.row.value.openClaimedAt.None?)
    && (s.row.Some? && t.row.Some? ==>
      && t.row.value.openClaimedAt == s.row.value.openClaimedAt
      && (s.row.value.openedNotifiedAt.Some? ==> t.row.value.openedNotifiedAt.Some?))
  }

  lemma OtherStepsLeaveClaims(s: State, a: Action)
    requires !a.OpenClaim? && !a.OpenRelease?
    ensures LeavesClaims(s, Next(s, a))
  {
  }

  lemma NextKeepsLastHolds(s: State, a: Action)
    requires LastHolds(s)
    ensures LastHolds(Next(s, a))
  {
    if a.OpenClaim? {
    } else if a.OpenRelease? {
      ReleaseKeepsLastHolds(s, a.i, a.reply);
    } else {
      OtherStepsLeaveClaims(s, a);
      hide Next;
    }
  }

  lemma ReleaseKeepsLastHolds(s: State, i: nat, reply: Reply)
    requires LastHolds(s)
    ensures LastHolds(Next(s, OpenRelease(i, reply)))
  {
  }

  lemma {:induction false} RunsKeepLastHolds(now: int, actions: seq<Action>)
    ensures LastHolds(Exec(Init(now), actions))
  {
    if actions != [] {
      RunsKeepLastHolds(now, actions[..|actions| - 1]);
      hide LastHolds, Next;
      NextKeepsLastHolds(Exec(Init(now), actions[..|actions| - 1]), actions[|actions| - 1]);
    }
  }

  /** A new claim comes too late for the window of claim `i`, or finds the row taken by a fresh one. */
  lemma ClaimBringsNoSecond(s: State, i: nat, reply: Reply)
    requires LastHolds(s) && i < |s.openings| && !SecondAhead(s, i)
    ensures var t := Next(s, OpenClaim(reply)); i < |t.openings| && !SecondAhead(t, i)
  {
  }

  /** What a release does to the claims; if it frees the row, it is the last claim's. */
  lemma ReleaseEndsItsClaim(s: State, k: nat, reply: Reply)
    requires OpeningInv(s) && LastHolds(s)
    ensures var t, n := Next(s, OpenRelease(k, reply)), |s.openings|;
      && t.now == s.now && |t.openings| == n && t.row.Some? == s.row.Some?
      && (forall j | 0 <= j < n :: t.openings[j].at == s.openings[j].at)
      && (forall j | 0 <= j < n :: t.openings[j].delivered == s.openings[j].delivered)
      && (forall j | 0 <= j < n :: t.openings[j].phase in {s.openings[j].phase, Finished})
      && (t.row.Some? && t.row.value.openedNotifiedAt.None? ==>
        && s.row.value.openedNotifiedAt.None?
        && (t.row.value.openClaimedAt.None? ==>
          s.row.value.openClaimedAt.None? || (n > 0 && s.openings[n - 1].phase == GivingBack)))
  {
    var n := |s.openings| - 1;
    if k < n && s.openings[k].phase == GivingBack && s.row.Some?
      && s.row.value.openClaimedAt.Some? && s.row.value.openedNotifiedAt.None?
    {
      assert OpeningSound(s, s.openings[k]);
      ReleaseLeavesOtherClaims(s, k, n);
    }
    hide OpeningInv;
  }

  lemma ReleaseBringsNoSecond(s: State, i: nat, k: nat, reply: Reply)
    requires OpeningInv(s) && LastHolds(s) && i < |s.openings| && s.openings[i].delivered && !SecondAhead(s, i)
    ensures var t := Next(s, OpenRelease(k, reply));
      i < |t.openings| && t.openings[i].delivered && !SecondAhead(t, i)
  {
    ReleaseEndsItsClaim(s, k, reply);
    hide Next, OpeningInv, LastHolds;
  }

  lemma OtherStepBringsNoSecond(s: State, t: State, i: nat)
    requires LastHolds(s) && LeavesClaims(s, t)
    requires i < |s.openings| && s.openings[i].delivered && !MailAhead(s.openings[i]) && !SecondAhead(s, i)
    ensures !SecondAhead(t, i)
  {
  }

  lemma StepBringsNoSecond(s: State, i: nat, a: Action)
    requires OpeningInv(s) && LastHolds(s) && i < |s.openings| && s.openings[i].delivered && !SecondAhead(s, i)
    ensures var t := Next(s, a); i < |t.openings| && t.openings[i].delivered && !SecondAhead(t, i)
  {
    if a.OpenClaim? {
      ClaimBringsNoSecond(s, i, a.reply);
    } else if a.OpenRelease? {
      ReleaseBringsNoSecond(s, i, a.i, a.reply);
    } else {
      assert OpeningSound(s, s.openings[i]);
      OtherStepsLeaveClaims(s, a);
      hide OpeningInv, Next;
      OtherStepBringsNoSecond(s, Next(s, a), i);
    }
  }

  lemma {:induction false} RunBringsNoSecond(s: State, i: nat, more: seq<Action>)
    requires OpeningInv(s) && LastHolds(s) && i < |s.openings| && s.openings[i].delivered && !SecondAhead(s, i)
    ensures var t := Exec(s, more);
      OpeningInv(t) && LastHolds(t) && i < |t.openings| && t.openings[i].delivered && !SecondAhead(t, i)
  {
    if more != [] {
      RunBringsNoSecond(s, i, more[..|more| - 1]);
      var t, a := Exec(s, more[..|more| - 1]), more[|more| - 1];
      hide OpeningInv, LastHolds, SecondAhead, Next;
      NextKeepsOpeningInv(t, a);
      NextKeepsLastHolds(t, a);
      StepBringsNoSecond(t, i, a);
    }
  }

  /** A claim with its mail ahead delivers in one step. */
  lemma MailAheadArrives(s: State, j: nat) returns (a: Action)
    requires OpeningInv(s) && j < |s.openings| && MailAhead(s.openings[j])
    ensures var t := Next(s, a);
      && |t.openings| == |s.openings| && t.openings[j].delivered
      && forall k | 0 <= k < |s.openings| :: t.openings[k].at == s.openings[k].at
  {
    assert OpeningSound(s, s.openings[j]);
    hide OpeningInv;
    a := if s.openings[j].phase == Held then OpenSend(j, Delivered) else OpenLateArrival(j);
  }

  /** The last claim is given back, and the row is free. */
  lemma GivingBackFrees(s: State, a: Action)
    requires LastHolds(s) && s.row.Some? && s.row.value.openedNotifiedAt.None? && s.openings != []
    requires s.openings[|s.openings| - 1].phase == GivingBack && a == OpenRelease(|s.openings| - 1, Done)
    ensures var t := Next(s, a);
      && t.row.Some? && t.row.value.openedNotifiedAt.None? && t.row.value.openClaimedAt.None?
      && t.now == s.now && |t.openings| == |s.openings|
      && forall k | 0 <= k < |s.openings| :: t.openings[k].at == s.openings[k].at
  {
  }

  /** A free row is claimed and mailed at once. */
  lemma {:induction false} FreeRowIsMailed(start: State, trace: seq<Action>, s: State)
    returns (longer: seq<Action>, t: State)
    requires s == Exec(start, trace) && s.row.Some?
    requires s.row.value.openedNotifiedAt.None? && s.row.value.openClaimedAt.None?
    ensures t == Exec(start, longer) && |t.openings| == |s.openings| + 1 && t.openings[..|s.openings|] == s.openings
    ensures t.openings[|s.openings|].delivered && t.openings[|s.openings|].at == s.now
  {
    longer, t := Then(start, trace, s, OpenClaim(Done));
    longer, t := Then(start, longer, t, OpenSend(|s.openings|, Delivered));
  }

  lemma {:induction false} SecondGoesOut(s: State, i: nat) returns (more: seq<Action>)
    requires OpeningInv(s) && LastHolds(s) && i < |s.openings| && SecondAhead(s, i)
    ensures SecondSoon(Exec(s, more), i)
  {
    var t, n := s, |s.openings|;
    more := [];
    assert t == Exec(s, more);
    if SecondMailAhead(s, i) {
      var j :| i < j < n && MailAhead(s.openings[j]) && s.openings[j].at - s.openings[i].at <= CLAIM_STALE_MS;
      var a := MailAheadArrives(s, j);
      hide Next, Exec, OpeningInv, LastHolds;
      more, t := Then(s, more, t, a);
      assert t.openings[j].delivered;
    } else if SecondClaimAhead(s, i) {
      hide Next, Exec, OpeningInv;
      if s.row.value.openClaimedAt.Some? {
        var a := OpenRelease(n - 1, Done);
        GivingBackFrees(s, a);
        more, t := Then(s, more, t, a);
      }
      hide LastHolds;
      ghost var at := t.openings[i].at;
      more, t := FreeRowIsMailed(s, more, t);
      assert t.openings[..n][i].at == at;
      assert t.openings[n].delivered;
    }
  }

  /**
   * When two deliveries come close. After any run, with claim `i` delivered, another mail of a claim taken within
   * CLAIM_STALE_MS after it can go out exactly when one has, or such a claim has its mail ahead, or the account is not
   * marked told, the time is not over, and its row is free or about to be freed: its last claim is being given back.
   */
  lemma {:induction false} SecondSoonExactly(now: int, actions: seq<Action>, i: nat)
    requires i < |Exec(Init(now), actions).openings| && Exec(Init(now), actions).openings[i].delivered
    ensures var s := Exec(Init(now), actions);
      (exists more :: SecondSoon(Exec(s, more), i)) <==>
        SecondSoon(s, i) || SecondMailAhead(s, i) || SecondClaimAhead(s, i)
  {
    var s := Exec(Init(now), actions);
    RunsKeepOpeningInv(now, actions);
    RunsKeepLastHolds(now, actions);
    hide Exec, OpeningInv, LastHolds, SecondSoon, SecondMailAhead, SecondClaimAhead;
    if SecondAhead(s, i) {
      var more := SecondGoesOut(s, i);
      assert SecondSoon(Exec(s, more), i);
    } else {
      forall more ensures !SecondSoon(Exec(s, more), i) { RunBringsNoSecond(s, i, more); }
    }
  }

  /**
   * So a delivered claim that stands keeps every other delivery more than CLAIM_STALE_MS away exactly unless its call
   * is about to give it back, which it is when its send threw although the mail went out, on an account that is not
   * marked told, within that time.
   */
  lemma {:induction false} StandingDeliveryIsAloneExactly(now: int, actions: seq<Action>, i: nat)
    requires var s := Exec(Init(now), actions);
      i < |s.openings| && s.openings[i].delivered && !s.openings[i].released
    ensures var s := Exec(Init(now), actions); var c := s.openings[i];
      (exists more :: SecondSoon(Exec(s, more), i)) <==>
        c.phase == GivingBack && s.row.Some? && s.row.value.openedNotifiedAt.None? && s.now - c.at <= CLAIM_STALE_MS
  {
    var s := Exec(Init(now), actions);
    SecondSoonExactly(now, actions, i);
    RunsKeepOpeningInv(now, actions);
    hide Exec, OpeningInv, SecondSoon, SecondMailAhead, SecondClaimAhead;
    StandingIsAheadExactly(s, i);
  }

  lemma StandingIsAheadExactly(s: State, i: nat)
    requires OpeningInv(s) && i < |s.openings| && s.openings[i].delivered && !s.openings[i].released
    ensures var c := s.openings[i];
      SecondAhead(s, i) <==>
        c.phase == GivingBack && s.row.Some? && s.row.value.openedNotifiedAt.None? && s.now - c.at <= CLAIM_STALE_MS
  {
    StandingClaimIsLast(s, i);
    hide OpeningInv;
  }

  /** While a claim that stands is fresh, it is the last, and its stamp is on the row. */
  lemma StandingClaimIsLast(s: State, i: nat)
    requires OpeningInv(s) && i < |s.openings| && !s.openings[i].released
    ensures forall j | i < j < |s.openings| :: s.openings[j].at - s.openings[i].at > CLAIM_STALE_MS
    ensures s.row.Some?
    ensures s.now - s.openings[i].at <= CLAIM_STALE_MS ==>
      i == |s.openings| - 1 && s.row.value.openClaimedAt == Some(Sec(s.openings[i].at))
  {
    var c := s.openings[i];
    assert OpeningSound(s, c);
    forall j | i < j < |s.openings| ensures s.openings[j].at - c.at > CLAIM_STALE_MS && s.openings[j].at <= s.now {
      assert Apart(c, s.openings[j]) && OpeningSound(s, s.openings[j]);
      AgeInSeconds(c.at, s.openings[j].at, CLAIM_STALE_MS);
    }
    hide OpeningInv;
    var last := s.openings[|s.openings| - 1];
    assert i < |s.openings| - 1 ==> last.at - c.at > CLAIM_STALE_MS && last.at <= s.now;
  }

  lemma {:induction false} RefusedMailFreesItsClaim() returns (trace: seq<Action>, s: State)
    ensures s == Exec(Init(0), trace) && s.now == 0 && s.row.Some?
    ensures s.row.value.openClaimedAt.None? && s.row.value.openedNotifiedAt.None?
    ensures s.openings == [Claim(0, Finished, true, true, None)]
  {
    s := Init(0);
    trace := [];
    trace, s := Then(Init(0), trace, s, Register("direct", "", false));
    trace, s := Then(Init(0), trace, s, OpenClaim(Done));
    trace, s := Then(Init(0), trace, s, OpenSend(0, SendRefused(true)));
    trace, s := Then(Init(0), trace, s, OpenRelease(0, Done));
  }

  /** A mail that went out although its send threw: the claim is given back and a second email goes out at once. */
  lemma {:induction false} RefusedMailIsSentAgain() returns (trace: seq<Action>)
    ensures var s := Exec(Init(0), trace);
      && s.now == 0 && |s.openings| == 2 && s.openings[0].delivered && s.openings[1].delivered
      && s.openings[0].released && s.openings[1].markedAt == Some(0)
  {
    var s: State;
    trace, s := RefusedMailFreesItsClaim();
    trace, s := Then(Init(0), trace, s, OpenClaim(Done));
    trace, s := Then(Init(0), trace, s, OpenSend(1, Delivered));
    trace, s := Then(Init(0), trace, s, OpenMark(1, Done));
  }

  lemma {:induction false} TimedOutMailArrives() returns (trace: seq<Action>, s: State)
    ensures s == Exec(Init(0), trace) && s.now == 901_000 && s.row.Some?
    ensures s.row.value.openClaimedAt == Some(0) && s.row.value.openedNotifiedAt.None?
    ensures s.openings == [Claim(0, Finished, true, false, None)]
  {
    s := Init(0);
    trace := [];
    trace, s := Then(Init(0), trace, s, Register("direct", "", false));
    trace, s := Then(Init(0), trace, s, OpenClaim(Done));
    trace, s := Then(Init(0), trace, s, OpenSend(0, SendTimedOut));
    trace, s := Then(Init(0), trace, s, OpenLateArrival(0));
    trace, s := Then(Init(0), trace, s, Tick(901_000));
  }

  /** A timed-out mail that arrives, and the retry of its account at 901 s, which arrives too. */
  lemma {:induction false} TimedOutMailIsSentAgain() returns (trace: seq<Action>)
    ensures var s := Exec(Init(0), trace);
      && |s.openings| == 2 && s.openings[0].delivered && s.openings[1].delivered
      && s.openings[0].at == 0 && s.openings[1].at == 901_000 && !s.openings[0].released
      && s.openings[1].markedAt.Some?
  {
    var s: State;
    trace, s := TimedOutMailArrives();
    trace, s := Then(Init(0), trace, s, OpenClaim(Done));
    trace, s := Then(Init(0), trace, s, OpenSend(1, Delivered));
    trace, s := Then(Init(0), trace, s, OpenMark(1, Done));
  }

  // ── Visits ────────────────────────────────────────────────────────────────

  function LastOf(writes: seq<int>): Column {
    if writes == [] then None else Some(Sec(writes[|writes| - 1]))
  }

  predicate SeenInv(s: State) {
    && (s.row.None? ==> s.seenWrites == [])
    && (s.row.Some? ==> s.row.value.lastSeenAt == LastOf(s.seenWrites))
    && (forall i | 0 < i < |s.seenWrites| :: s.seenWrites[i] - s.seenWrites[i - 1] > SEEN_EVERY_MS)
  }

  lemma OnlyNoteSeenWritesSeen(s: State, a: Action)
    requires !a.NoteSeen?
    ensures Next(s, a).seenWrites == s.seenWrites
    ensures s.row.Some? ==> Next(s, a).row.Some? && Next(s, a).row.value.lastSeenAt == s.row.value.lastSeenAt
    ensures s.row.None? && Next(s, a).row.Some? ==> Next(s, a).row.value.lastSeenAt.None?
  {
  }

  lemma SeenKeepsSeenInv(s: State)
    requires SeenInv(s) && s.row.Some?
    ensures SeenInv(Next(s, NoteSeen))
  {
  }

  lemma NextKeepsSeenInv(s: State, a: Action)
    requires SeenInv(s)
    ensures SeenInv(Next(s, a))
  {
    if !a.NoteSeen? {
      OnlyNoteSeenWritesSeen(s, a);
    } else if s.row.Some? {
      SeenKeepsSeenInv(s);
    }
  }

  lemma {:induction false} RunsKeepSeenInv(now: int, actions: seq<Action>)
    ensures SeenInv(Exec(Init(now), actions))
  {
    if actions != [] {
      RunsKeepSeenInv(now, actions[..|actions| - 1]);
      NextKeepsSeenInv(Exec(Init(now), actions[..|actions| - 1]), actions[|actions| - 1]);
    }
  }

  lemma {:induction false} SeenWritesSpread(w: seq<int>, n: nat)
    requires 2 <= n <= |w| && forall i | 0 < i < |w| :: w[i] - w[i - 1] > SEEN_EVERY_MS
    ensures w[n - 1] - w[0] > (n - 1) * SEEN_EVERY_MS
  {
    if n > 2 { SeenWritesSpread(w, n - 1); }
  }

  /** In every run, any n >= 2 writes of last_seen_at in a row span more than n - 1 hours. */
  lemma {:induction false} VisitsWriteAtMostHourly(now: int, actions: seq<Action>, from: nat, n: nat)
    requires 2 <= n && from + n <= |Exec(Init(now), actions).seenWrites|
    ensures var w := Exec(Init(now), actions).seenWrites; w[from + n - 1] - w[from] > (n - 1) * 3_600_000
  {
    RunsKeepSeenInv(now, actions);
    var w := Exec(Init(now), actions).seenWrites;
    SeenWritesSpread(w[from..], n);
  }

  // ── The welcome letter ────────────────────────────────────────────────────

  /** No call is still at work on a claim that has gone stale. */
  predicate WelcomesTimely(s: State) {
    forall i | 0 <= i < |s.welcomes| && s.welcomes[i].phase != Finished ::
      s.now <= s.welcomes[i].at + CLAIM_STALE_MS
  }

  ghost predicate TimelyRun(now: int, actions: seq<Action>) {
    forall k | 0 <= k <= |actions| :: WelcomesTimely(Exec(Init(now), actions[..k]))
  }

  /** Only the last claim is at work, and it has the row; every earlier one ended without a mark. */
  predicate WelcomeSound(s: State, i: nat)
    requires i < |s.welcomes|
  {
    var c := s.welcomes[i];
    && s.row.Some?
    && (i < |s.welcomes| - 1 ==> c.phase == Finished && c.markedAt.None?)
    && (c.phase != Finished ==> s.row.value.claimedAt == Some(Sec(c.at)))
    && (c.markedAt.Some? ==> s.row.value.welcomedAt.Some?)
  }

  ghost predicate WelcomeInv(s: State) {
    forall i: nat | i < |s.welcomes| :: WelcomeSound(s, i)
  }

  lemma NextKeepsWelcomeInv(s: State, a: Action)
    requires WelcomeInv(s) && WelcomesTimely(s)
    ensures WelcomeInv(Next(s, a))
  {
    var t := Next(s, a);
    if |s.welcomes| > 0 {
      var last := s.welcomes[|s.welcomes| - 1];
      assert WelcomeSound(s, |s.welcomes| - 1);
      if a.WelcomeClaim? && last.phase != Finished { AgeInSeconds(last.at, s.now, CLAIM_STALE_MS); }
      if a.WelcomeRelease? && a.i < |s.welcomes| { assert WelcomeSound(s, a.i); }
    }
    forall i: nat | i < |t.welcomes| ensures WelcomeSound(t, i) {
      if i < |s.welcomes| { assert WelcomeSound(s, i); }
    }
  }

  lemma {:induction false} TimelyRunsKeepWelcomeInv(now: int, actions: seq<Action>)
    requires TimelyRun(now, actions)
    ensures WelcomeInv(Exec(Init(now), actions))
  {
    if actions != [] {
      var before := actions[..|actions| - 1];
      forall k | 0 <= k <= |before| ensures WelcomesTimely(Exec(Init(now), before[..k])) {
        assert before[..k] == actions[..k];
      }
      assert before[..|before|] == before;
      TimelyRunsKeepWelcomeInv(now, before);
      NextKeepsWelcomeInv(Exec(Init(now), before), actions[|actions| - 1]);
    }
  }

  /**
   * If every call finishes while its claim is fresh and every delivered letter is marked, an account gets at most
   * one welcome letter. The two traces below show that each condition is needed.
   */
  lemma {:induction false} AtMostOneWelcome(now: int, actions: seq<Action>, i: nat, j: nat)
    requires TimelyRun(now, actions)
    requires var s := Exec(Init(now), actions);
      && (forall k | 0 <= k < |s.welcomes| && s.welcomes[k].delivered :: s.welcomes[k].markedAt.Some?)
      && i < |s.welcomes| && j < |s.welcomes| && s.welcomes[i].delivered && s.welcomes[j].delivered
    ensures i == j
  {
    TimelyRunsKeepWelcomeInv(now, actions);
    var s := Exec(Init(now), actions);
    assert WelcomeSound(s, i) && WelcomeSound(s, j);
  }

  /** One more action of a trace that is being written down. */
  lemma {:induction false} Then(start: State, trace: seq<Action>, s: State, a: Action)
    returns (longer: seq<Action>, t: State)
    requires s == Exec(start, trace)
    ensures longer == trace + [a] && t == Next(s, a) == Exec(start, longer)
  {
    longer, t := trace + [a], Next(s, a);
    assert longer[..|longer| - 1] == trace;
  }

  /** A call that holds a claim has not delivered its letter. */
  predicate HeldUndelivered(s: State) {
    forall i | 0 <= i < |s.welcomes| && s.welcomes[i].phase == Held :: !s.welcomes[i].delivered
  }

  lemma NextKeepsHeldUndelivered(s: State, a: Action)
    requires HeldUndelivered(s)
    ensures HeldUndelivered(Next(s, a))
  {
  }

  lemma {:induction false} RunsKeepHeldUndelivered(now: int, actions: seq<Action>)
    ensures HeldUndelivered(Exec(Init(now), actions))
  {
    if actions != [] {
      RunsKeepHeldUndelivered(now, actions[..|actions| - 1]);
      NextKeepsHeldUndelivered(Exec(Init(now), actions[..|actions| - 1]), actions[|actions| - 1]);
    }
  }

  /** The letter is marked sent and no call holds a claim it has not sent for. */
  predicate WelcomeOver(s: State) {
    && s.row.Some? && s.row.value.welcomedAt.Some?
    && forall i | 0 <= i < |s.welcomes| :: s.welcomes[i].phase != Held
  }

  lemma WelcomeStaysOver(s: State, a: Action)
    requires WelcomeOver(s)
    ensures WelcomeOver(Next(s, a)) && SameDeliveries(s.welcomes, Next(s, a).welcomes)
  {
  }

  lemma {:induction false} WelcomeRunsStayOver(s: State, more: seq<Action>)
    requires WelcomeOver(s)
    ensures WelcomeOver(Exec(s, more)) && SameDeliveries(s.welcomes, Exec(s, more).welcomes)
  {
    if more != [] {
      WelcomeRunsStayOver(s, more[..|more| - 1]);
      hide WelcomeOver, Next;
      WelcomeStaysOver(Exec(s, more[..|more| - 1]), more[|more| - 1]);
    }
  }

  lemma {:induction false} UnwelcomedIsMailed(start: State, trace: seq<Action>, s: State)
    returns (longer: seq<Action>, end: State)
    requires s == Exec(start, trace) && s.row.Some? && s.row.value.welcomedAt.None?
    ensures end == Exec(start, longer)
    ensures |end.welcomes| == |s.welcomes| + 1 && end.welcomes[|s.welcomes|].delivered
  {
    var wait := WaitFor(s.row.value.claimedAt, s.now);
    WaitedLongEnough(s.row.value.claimedAt, s.now);
    hide WaitFor;
    longer, end := Then(start, trace, s, Tick(wait));
    longer, end := Then(start, longer, end, WelcomeClaim(Done));
    longer, end := Then(start, longer, end, WelcomeSend(|s.welcomes|, false, true));
  }

  lemma SendDelivers(s: State, i: nat)
    requires HeldUndelivered(s) && s.row.Some? && i < |s.welcomes| && s.welcomes[i].phase == Held
    ensures var t := Next(s, WelcomeSend(i, false, true));
      |t.welcomes| == |s.welcomes| && t.welcomes[i].delivered && !s.welcomes[i].delivered
  {
  }

  lemma {:induction false} AnotherLetterGoesOut(s: State) returns (more: seq<Action>)
    requires HeldUndelivered(s) && !WelcomeOver(s)
    ensures NewDelivery(s.welcomes, Exec(s, more).welcomes)
  {
    var t := s;
    more := [];
    hide Next;
    if s.row.None? || s.row.value.welcomedAt.None? {
      if s.row.None? {
        RegisteredIsUnmailed(s);
        more, t := Then(s, more, t, Register("direct", "", false));
      }
      more, t := UnwelcomedIsMailed(s, more, t);
    } else {
      var i :| 0 <= i < |s.welcomes| && s.welcomes[i].phase == Held;
      SendDelivers(s, i);
      more, t := Then(s, more, t, WelcomeSend(i, false, true));
    }
  }

  /**
   * After any run another welcome letter can still go out exactly when the letter is not marked sent, or there is no
   * row, or a call still holds a claim it has not sent for.
   */
  lemma {:induction false} AnotherLetterExactly(now: int, actions: seq<Action>)
    ensures var s := Exec(Init(now), actions);
      (exists more :: NewDelivery(s.welcomes, Exec(s, more).welcomes)) <==>
        || s.row.None? || s.row.value.welcomedAt.None?
        || exists i :: 0 <= i < |s.welcomes| && s.welcomes[i].phase == Held
  {
    var s := Exec(Init(now), actions);
    RunsKeepHeldUndelivered(now, actions);
    hide Exec, NewDelivery;
    if WelcomeOver(s) {
      forall more ensures !NewDelivery(s.welcomes, Exec(s, more).welcomes) {
        WelcomeRunsStayOver(s, more);
        NothingNew(s.welcomes, Exec(s, more).welcomes);
      }
    } else {
      var more := AnotherLetterGoesOut(s);
      assert NewDelivery(s.welcomes, Exec(s, more).welcomes);
    }
  }

  lemma {:induction false} SlowReleaseFreesTheNewClaim() returns (trace: seq<Action>, s: State)
    ensures s == Exec(Init(0), trace) && s.row.Some?
    ensures |s.welcomes| == 3 && s.welcomes[1] == s.welcomes[2] == Claim(901_000, Held, false, false, None)
  {
    s := Init(0);
    trace := [];
    trace, s := Then(Init(0), trace, s, Register("direct", "", false));
    trace, s := Then(Init(0), trace, s, WelcomeClaim(Done));
    trace, s := Then(Init(0), trace, s, Tick(901_000));
    trace, s := Then(Init(0), trace, s, WelcomeClaim(Done));
    trace, s := Then(Init(0), trace, s, WelcomeSend(0, true, false));
    trace, s := Then(Init(0), trace, s, WelcomeRelease(0, Done));
    trace, s := Then(Init(0), trace, s, WelcomeClaim(Done));
  }

  /**
   * releaseWelcome names no claim, so a slow call that fails gives back the claim another call took over from it,
   * and a third call claims in the same second: two letters, both marked.
   */
  lemma {:induction false} UnguardedReleaseSendsTwice() returns (trace: seq<Action>)
    ensures var s := Exec(Init(0), trace);
      && |s.welcomes| == 3 && s.welcomes[1].at == s.welcomes[2].at
      && s.welcomes[1].delivered && s.welcomes[2].delivered
      && s.welcomes[1].markedAt.Some? && s.welcomes[2].markedAt.Some?
  {
    var s: State;
    trace, s := SlowReleaseFreesTheNewClaim();
    trace, s := Then(Init(0), trace, s, WelcomeSend(1, false, true));
    trace, s := Then(Init(0), trace, s, WelcomeSend(2, false, true));
    trace, s := Then(Init(0), trace, s, WelcomeMark(1, false, Done));
    trace, s := Then(Init(0), trace, s, WelcomeMark(2, false, Done));
  }

  lemma {:induction false} UnmarkedLetterFreesItsClaim() returns (trace: seq<Action>, s: State)
    ensures s == Exec(Init(0), trace) && s.now == 0 && s.row.Some?
    ensures s.row.value.claimedAt.None? && s.row.value.welcomedAt.None?
    ensures s.welcomes == [Claim(0, Finished, true, true, None)]
  {
    s := Init(0);
    trace := [];
    trace, s := Then(Init(0), trace, s, Register("direct", "", false));
    trace, s := Then(Init(0), trace, s, WelcomeClaim(Done));
    trace, s := Then(Init(0), trace, s, WelcomeSend(0, false, true));
    trace, s := Then(Init(0), trace, s, WelcomeMark(0, false, ThrewLost));
    trace, s := Then(Init(0), trace, s, WelcomeRelease(0, Done));
  }

  /** A letter that went out but could not be marked gives its claim back, so the next visit sends another. */
  lemma {:induction false} UnmarkedLetterIsSentAgain() returns (trace: seq<Action>)
    ensures var s := Exec(Init(0), trace);
      && s.now == 0 && |s.welcomes| == 2 && s.welcomes[0].delivered && s.welcomes[1].delivered
      && s.welcomes[0].phase == Finished && s.welcomes[1].markedAt.Some?
  {
    var s: State;
    trace, s := UnmarkedLetterFreesItsClaim();
    trace, s := Then(Init(0), trace, s, WelcomeClaim(Done));
    trace, s := Then(Init(0), trace, s, WelcomeSend(1, false, true));
    trace, s := Then(Init(0), trace, s, WelcomeMark(1, false, Done));
  }

  /**
   * The opening claim's guard needs the clock to be read with the UPDATE. Here a call read time 0 and its UPDATE
   * runs at 901 s, after a takeover was given back: it carries the stamp of the first, still working call, whose
   * own release then clears it.
   */
  lemma {:induction false} ClaimOnAnOldClockReading(r: Row)
    requires r.openedNotifiedAt.None? && r.openClaimedAt.None?
    ensures OpeningClaimable(r, 0)
    ensures var first := r.(openClaimedAt := Some(Sec(0)));
      && OpeningClaimable(first, 901_000)
      && var taken := first.(openClaimedAt := Some(Sec(901_000)));
      var free := OpeningReleased(taken, Some(901_000));
      && OpeningClaimable(free, 0)
      && OpeningReleased(free.(openClaimedAt := Some(Sec(0))), Some(0)).openClaimedAt.None?
  {
    AgeInSeconds(0, 901_000, CLAIM_STALE_MS);
  }
}
