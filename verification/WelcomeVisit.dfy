/** welcomeOnFirstVisit of agenticsSignup.ts: one visit records the signup and tries to send the welcome letter. */
module WelcomeVisit {
  import opened Ordering
  import opened Stamps
  import opened SignupTable
  import opened Statements
  import opened OnceOnlyMail

  datatype Outcome = SentLetter | Already | NoEmail | Failed

  /** What the visitor brings, when each statement runs and how it ends, and what the mail server does. */
  datatype Visit = Visit(
    source: string, createdAt: string, hasEmail: bool, country: Option<string>, vaultOpen: bool,
    registerAt: int, register: Reply,
    touchAt: int, noteCountry: Reply, noteSeen: Reply,
    claimAt: int, claim: Reply,
    sendThrows: bool, mailWent: bool,
    markAt: int, mark: Reply,
    release: Reply)

  /** The row once the signup is recorded and the visit noted. */
  function Recorded(row: Option<Row>, v: Visit): Row
    requires v.register == Done
  {
    var r := if row.Some? then row.value else NewRow(v.source, v.createdAt, v.vaultOpen, v.registerAt);
    Touched(r, v.country, v.touchAt, v.noteCountry, v.noteSeen)
  }

  /** From the claim on. */
  function Lettered(r: Row, v: Visit): (Row, Outcome) {
    var claimable := WelcomeClaimable(r, v.claimAt);
    var claimed := r.(claimedAt := Some(Sec(v.claimAt)));
    if v.claim != Done then (if claimable && Applied(v.claim) then claimed else r, Failed)
    else if !claimable then (r, Already)
    else
      var marked := if !v.sendThrows && Applied(v.mark) then Welcomed(claimed, v.markAt, v.vaultOpen) else claimed;
      if !v.sendThrows && v.mark == Done then (marked, SentLetter)
      else (if Applied(v.release) then WelcomeReleased(marked) else marked, Failed)
  }

  /** The account's row after a visit, and what the visit answers. */
  function Visited(row: Option<Row>, v: Visit): (Option<Row>, Outcome) {
    if v.register != Done then
      (if row.None? && Applied(v.register) then Some(NewRow(v.source, v.createdAt, v.vaultOpen, v.registerAt)) else row,
       Failed)
    else
      var r := Recorded(row, v);
      if !v.hasEmail then (Some(r), NoEmail) else (Some(Lettered(r, v).0), Lettered(r, v).1)
  }

  function RowOf(rows: map<Tenant, Row>, t: Tenant): Option<Row> {
    if t in rows then Some(rows[t]) else None
  }

  method WelcomeOnFirstVisit(table: Signups, who: Tenant, v: Visit) returns (outcome: Outcome)
    modifies table
    ensures (RowOf(table.rows, who), outcome) == Visited(RowOf(old(table.rows), who), v)
    ensures forall t | t != who :: RowOf(table.rows, t) == RowOf(old(table.rows), t)
  {
    if v.register != Done {
      if Applied(v.register) {
        var _ := table.RegisterSignup(who, v.source, v.createdAt, v.vaultOpen, v.registerAt);
      }
      return Failed;
    }
    var _ := table.RegisterSignup(who, v.source, v.createdAt, v.vaultOpen, v.registerAt);
    var _ := table.TouchSignup(who, v.country, v.touchAt, v.noteCountry, v.noteSeen);
    if !v.hasEmail { return NoEmail; }
    outcome := SendLetter(table, who, v);
  }

  method SendLetter(table: Signups, who: Tenant, v: Visit) returns (outcome: Outcome)
    requires who in table.rows
    modifies table
    ensures table.rows.Keys == old(table.rows.Keys)
    ensures (table.rows[who], outcome) == Lettered(old(table.rows)[who], v)
    ensures forall t | t in table.rows && t != who :: table.rows[t] == old(table.rows)[t]
  {
    if v.claim != Done {
      if Applied(v.claim) { var _ := table.ClaimWelcome(who, v.claimAt); }
      return Failed;
    }
    var claimed := table.ClaimWelcome(who, v.claimAt);
    if !claimed { return Already; }
    if !v.sendThrows {
      if Applied(v.mark) { table.MarkWelcomed(who, v.markAt, v.vaultOpen); }
      if v.mark == Done { return SentLetter; }
    }
    if Applied(v.release) { table.ReleaseWelcome(who); }
    outcome := Failed;
  }

  /** The letter is marked sent, or claimed within the last 15 minutes. */
  predicate IsTaken(row: Option<Row>, at: int) {
    row.Some? && (row.value.welcomedAt.Some?
      || (row.value.claimedAt.Some? && row.value.claimedAt.value >= Sec(at - 900_000)))
  }

  /** What a visit answers, case by case; it fails in every other. A visit makes a row where there is none. */
  lemma {:induction false} VisitAnswersExactly(row: Option<Row>, v: Visit)
    ensures var (after, answer) := Visited(row, v);
      && (answer == NoEmail <==> v.register == Done && !v.hasEmail)
      && (answer == Already <==> v.register == Done && v.hasEmail && v.claim == Done && IsTaken(row, v.claimAt))
      && (answer == SentLetter <==>
        && v.register == Done && v.hasEmail && v.claim == Done && !IsTaken(row, v.claimAt)
        && !v.sendThrows && v.mark == Done)
      && (answer == SentLetter ==> after.Some? && after.value.welcomedAt == Some(Sec(v.markAt)))
      && (row.Some? ==> after.Some? && after.value.source == row.value.source)
      && (row.None? && v.register != ThrewLost ==> after.Some? && after.value.source == v.source)
  {
    if v.register == Done { RecordedKeepsTheLetter(row, v); }
    hide WithCountry, Seen, IsCountryCode, Recorded;
  }

  lemma RecordedKeepsTheLetter(row: Option<Row>, v: Visit)
    requires v.register == Done
    ensures var r := Recorded(row, v);
      && r.claimedAt == (if row.Some? then row.value.claimedAt else None)
      && r.welcomedAt == (if row.Some? then row.value.welcomedAt else None)
      && r.source == (if row.Some? then row.value.source else v.source)
  {
  }

  predicate ClockAscends(v: Visit) { v.registerAt <= v.touchAt <= v.claimAt <= v.markAt }

  lemma {:induction false} RecordingIsARun(s: State, v: Visit) returns (trace: seq<Action>, end: State)
    requires s.now <= v.registerAt && ClockAscends(v) && v.register == Done
    ensures end == Exec(s, trace) && end.row == Some(Recorded(s.row, v))
    ensures end.now == v.touchAt && end.welcomes == s.welcomes
  {
    hide Next, Exec, Touched, NewRow;
    trace, end := RegisteringIsARun(s, v);
    trace, end := NotingIsARun(s, trace, end, v);
  }

  lemma {:induction false} NotingIsARun(start: State, trace: seq<Action>, s: State, v: Visit)
    returns (longer: seq<Action>, end: State)
    requires s == Exec(start, trace) && s.now == v.registerAt <= v.touchAt && s.row.Some?
    ensures end == Exec(start, longer) && end.now == v.touchAt && end.welcomes == s.welcomes
    ensures end.row == Some(Touched(s.row.value, v.country, v.touchAt, v.noteCountry, v.noteSeen))
  {
    hide WithCountry, Seen, SeenDue, IsCountryCode;
    longer, end := Then(start, trace, s, Tick(v.touchAt - v.registerAt));
    var code := Code(v.country);
    if code.Some? && Applied(v.noteCountry) { longer, end := Then(start, longer, end, NoteCountry(code.value)); }
    if (code.None? || v.noteCountry == Done) && Applied(v.noteSeen) {
      longer, end := Then(start, longer, end, NoteSeen);
    }
  }

  lemma {:induction false} RegisteringIsARun(s: State, v: Visit) returns (trace: seq<Action>, end: State)
    requires s.now <= v.registerAt
    ensures end == Exec(s, trace) && end.now == v.registerAt && end.welcomes == s.welcomes
    ensures end.row == if s.row.Some? then s.row else Some(NewRow(v.source, v.createdAt, v.vaultOpen, v.registerAt))
  {
    trace, end := Then(s, [], s, Tick(v.registerAt - s.now));
    trace, end := Then(s, trace, end, Register(v.source, v.createdAt, v.vaultOpen));
  }

  lemma {:induction false} ClaimIsTakenInARun(start: State, trace: seq<Action>, s: State, v: Visit)
    returns (longer: seq<Action>, end: State)
    requires s == Exec(start, trace) && s.row.Some? && s.now == v.touchAt && ClockAscends(v)
    ensures end == Exec(start, longer) && end.row.Some? && end.now == v.claimAt
    ensures
      if WelcomeClaimable(s.row.value, v.claimAt) && Applied(v.claim) then
        && end.row.value == s.row.value.(claimedAt := Some(Sec(v.claimAt)))
        && end.welcomes == s.welcomes +
          [Claim(v.claimAt, if v.claim == Done then Held else Finished, false, false, None)]
      else end.row == s.row && end.welcomes == s.welcomes
  {
    longer, end := Then(start, trace, s, Tick(v.claimAt - v.touchAt));
    longer, end := Then(start, longer, end, WelcomeClaim(v.claim));
  }

  /** One action on the last claim of the letter. */
  lemma LastWelcomeStep(start: State, trace: seq<Action>, s: State, a: Action, c: Claim, r: Row)
    returns (longer: seq<Action>, end: State)
    requires s == Exec(start, trace) && s.row.Some? && s.welcomes != []
    requires Next(s, a) == s.(welcomes := s.welcomes[|s.welcomes| - 1 := c], row := Some(r))
    ensures end == Exec(start, longer) && end == s.(welcomes := s.welcomes[|s.welcomes| - 1 := c], row := Some(r))
  {
    longer, end := Then(start, trace, s, a);
  }

  /** The last claim of `s` came to `end` with the row as `r` and is finished. */
  predicate EndsClaim(s: State, end: State, r: Row, v: Visit)
    requires s.welcomes != []
  {
    var i := |s.welcomes| - 1;
    && end.row == Some(r)
    && |end.welcomes| == |s.welcomes| && end.welcomes[..i] == s.welcomes[..i]
    && end.welcomes[i].phase == Finished && end.welcomes[i].at == s.welcomes[i].at
  }

  lemma {:induction false} ReleaseIsARun(start: State, trace: seq<Action>, s: State, v: Visit)
    returns (longer: seq<Action>, end: State)
    requires s == Exec(start, trace) && s.row.Some? && s.welcomes != []
    requires s.welcomes[|s.welcomes| - 1].phase == GivingBack
    ensures end == Exec(start, longer)
    ensures EndsClaim(s, end, if Applied(v.release) then WelcomeReleased(s.row.value) else s.row.value, v)
    ensures var i := |s.welcomes| - 1;
      end.welcomes[i].delivered == s.welcomes[i].delivered && end.welcomes[i].markedAt == s.welcomes[i].markedAt
  {
    var i := |s.welcomes| - 1;
    longer, end := LastWelcomeStep(start, trace, s, WelcomeRelease(i, v.release),
      s.welcomes[i].(phase := Finished, released := Applied(v.release)),
      if Applied(v.release) then WelcomeReleased(s.row.value) else s.row.value);
  }

  lemma {:induction false} SentLetterIsARun(start: State, trace: seq<Action>, s: State, v: Visit)
    returns (longer: seq<Action>, end: State)
    requires s == Exec(start, trace) && s.now == v.claimAt && v.claimAt <= v.markAt && s.welcomes != [] && s.row.Some?
    requires s.welcomes[|s.welcomes| - 1] == Claim(v.claimAt, Held, false, false, None) && !v.sendThrows
    ensures end == Exec(start, longer)
    ensures end.now == v.markAt
    ensures end.row == Some(if Applied(v.mark) then Welcomed(s.row.value, v.markAt, v.vaultOpen) else s.row.value)
    ensures end.welcomes == s.welcomes[|s.welcomes| - 1 :=
      Claim(v.claimAt, if v.mark == Done then Finished else GivingBack, true, false,
        if Applied(v.mark) then Some(v.markAt) else None)]
  {
    hide Next, Exec, Welcomed;
    var i := |s.welcomes| - 1;
    SendIsAStep(s, v);
    longer, end := Then(start, trace, s, WelcomeSend(i, false, v.mailWent));
    longer, end := WaitIsARun(start, longer, end, v.markAt);
    MarkIsAStep(end, v);
    longer, end := Then(start, longer, end, WelcomeMark(i, v.vaultOpen, v.mark));
  }

  lemma WaitIsARun(start: State, trace: seq<Action>, s: State, until: int) returns (longer: seq<Action>, end: State)
    requires s == Exec(start, trace) && s.now <= until
    ensures end == Exec(start, longer) && end == s.(now := until)
  {
    longer, end := Then(start, trace, s, Tick(until - s.now));
  }

  lemma SendIsAStep(s: State, v: Visit)
    requires s.row.Some? && s.welcomes != []
    requires s.welcomes[|s.welcomes| - 1] == Claim(v.claimAt, Held, false, false, None)
    ensures Next(s, WelcomeSend(|s.welcomes| - 1, false, v.mailWent)) ==
      s.(welcomes := s.welcomes[|s.welcomes| - 1 := Claim(v.claimAt, Sent(0), true, false, None)])
  {
  }

  lemma MarkIsAStep(s: State, v: Visit)
    requires s.row.Some? && s.welcomes != [] && s.now == v.markAt
    requires s.welcomes[|s.welcomes| - 1] == Claim(v.claimAt, Sent(0), true, false, None)
    ensures Next(s, WelcomeMark(|s.welcomes| - 1, v.vaultOpen, v.mark)) == s.(
      welcomes := s.welcomes[|s.welcomes| - 1 :=
        Claim(v.claimAt, if v.mark == Done then Finished else GivingBack, true, false,
          if Applied(v.mark) then Some(v.markAt) else None)],
      row := Some(if Applied(v.mark) then Welcomed(s.row.value, v.markAt, v.vaultOpen) else s.row.value))
  {
  }

  lemma {:induction false} LetterIsARun(start: State, trace: seq<Action>, s: State, v: Visit, r: Row)
    returns (longer: seq<Action>, end: State)
    requires s == Exec(start, trace) && s.now == v.claimAt && ClockAscends(v) && s.welcomes != []
    requires v.claim == Done && WelcomeClaimable(r, v.claimAt)
    requires s.row == Some(r.(claimedAt := Some(Sec(v.claimAt))))
    requires s.welcomes[|s.welcomes| - 1] == Claim(v.claimAt, Held, false, false, None)
    ensures end == Exec(start, longer) && EndsClaim(s, end, Lettered(r, v).0, v)
    ensures var i := |s.welcomes| - 1;
      && (end.welcomes[i].delivered <==> !v.sendThrows || v.mailWent)
      && end.welcomes[i].markedAt == (if !v.sendThrows && Applied(v.mark) then Some(v.markAt) else None)
  {
    hide Next, Exec;
    var i := |s.welcomes| - 1;
    if v.sendThrows {
      longer, end := ThrownSendIsARun(start, trace, s, v);
    } else {
      longer, end := SentLetterIsARun(start, trace, s, v);
    }
    if v.sendThrows || v.mark != Done { longer, end := ReleaseIsARun(start, longer, end, v); }
  }

  lemma ThrownSendIsARun(start: State, trace: seq<Action>, s: State, v: Visit)
    returns (longer: seq<Action>, end: State)
    requires s == Exec(start, trace) && s.welcomes != [] && s.row.Some?
    requires s.welcomes[|s.welcomes| - 1] == Claim(v.claimAt, Held, false, false, None)
    ensures end == Exec(start, longer) && end.row == s.row
    ensures end.welcomes == s.welcomes[|s.welcomes| - 1 := Claim(v.claimAt, GivingBack, v.mailWent, false, None)]
  {
    longer, end := LastWelcomeStep(start, trace, s, WelcomeSend(|s.welcomes| - 1, true, v.mailWent),
      Claim(v.claimAt, GivingBack, v.mailWent, false, None), s.row.value);
  }

  /** A visit whose register statement throws has at most made the row. */
  lemma {:induction false} UnrecordedVisitIsARun(s: State, v: Visit) returns (trace: seq<Action>)
    requires s.now <= v.registerAt && v.register != Done
    ensures Exec(s, trace).row == Visited(s.row, v).0 && Exec(s, trace).welcomes == s.welcomes
  {
    var end: State;
    if Applied(v.register) {
      trace, end := RegisteringIsARun(s, v);
    } else {
      trace := [];
    }
  }

  /**
   * An uninterrupted visit is a run of the protocol of OnceOnlyMail, and it answers `sent` only for a letter that
   * went out and was marked. When it answers `failed` after taking the claim, the letter may still have gone out:
   * exactly when the send went through and its mark threw, or the send threw with the mail on its way.
   */
  lemma {:induction false} VisitIsAProtocolRun(s: State, v: Visit) returns (trace: seq<Action>)
    requires s.now <= v.registerAt && ClockAscends(v)
    ensures var end := Exec(s, trace); var (row, outcome) := Visited(s.row, v);
      && end.row == row
      && |s.welcomes| <= |end.welcomes| <= |s.welcomes| + 1 && end.welcomes[..|s.welcomes|] == s.welcomes
      && (outcome == SentLetter ==>
           && |end.welcomes| > |s.welcomes|
           && end.welcomes[|s.welcomes|].delivered && end.welcomes[|s.welcomes|].markedAt == Some(v.markAt))
      && (outcome == Failed && |end.welcomes| > |s.welcomes| && v.claim == Done ==>
           (end.welcomes[|s.welcomes|].delivered <==> if v.sendThrows then v.mailWent else v.mark != Done))
  {
    if v.register != Done {
      trace := UnrecordedVisitIsARun(s, v);
      return;
    }
    var end: State;
    trace, end := RecordingIsARun(s, v);
    var r := end.row.value;
    if v.hasEmail {
      trace, end := ClaimIsTakenInARun(s, trace, end, v);
      if v.claim == Done && WelcomeClaimable(r, v.claimAt) {
        hide Next, Exec, Recorded;
        ghost var claimed := end;
        trace, end := LetterIsARun(s, trace, end, v, r);
        assert claimed.welcomes[..|s.welcomes|] == s.welcomes;
      }
    }
  }
}
