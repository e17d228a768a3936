/** The lifecycle of a finding in terms of its own events: which state it is in, until when, and by whose
    action; and exactly which events the journal accepts. */
module JournalStates {
  import opened Instants
  import opened Model
  import opened Journal
  import opened JournalRuns

  // ----- the latest action -----

  /** An action on the finding: any of its events but a sighting. */
  ghost predicate Acts(r: Record, id: string) { Own(r, id) && r.event.kind != OBSERVED }

  ghost predicate LastAct(log: seq<Record>, id: string, m: nat) {
    m < |log| && Acts(log[m], id) && forall j :: m < j < |log| ==> !Acts(log[j], id)
  }

  ghost predicate NoAct(log: seq<Record>, id: string) { forall j :: 0 <= j < |log| ==> !Acts(log[j], id) }

  /** What an action's payload says; the actor is named. */
  ghost predicate Carries(e: Event, t: Transition) {
    e.payload.Json? && e.payload.transition == Some(t) && !Blank(t.actor)
  }

  ghost predicate SightedAfter(log: seq<Record>, id: string, m: nat) {
    exists j :: m < j < |log| && Sighting(log[j], id)
  }

  /** A sighting was recorded at or after the end of the suppression. */
  ghost predicate EndedAfter(log: seq<Record>, id: string, m: nat, until: Option<Time>) {
    until.Some? && exists j :: m < j < |log| && Sighting(log[j], id) && until.value <= log[j].event.recordedAt
  }

  function ActionOf(e: Event, t: Transition): Action { Action(e.recordedAt, t.actor, t.note) }

  /** What the latest action, event `e`, has made of the finding. */
  ghost predicate Made(log: seq<Record>, id: string, m: nat, e: Event, t: Transition, f: Finding) {
    if e.kind == ACKNOWLEDGED then
      && f.state == Acknowledged && f.suppressedUntil.None? && f.resolution.None?
      && f.acknowledgement == Some(ActionOf(e, t))
    else if e.kind == SUPPRESSED then
      && f.resolution.None?
      && (if EndedAfter(log, id, m, t.until) then f.state == Open && f.suppressedUntil.None?
          else f.state == Suppressed && f.suppressedUntil == t.until)
    else if e.kind == UNSUPPRESSED then f.state == Open && f.suppressedUntil.None? && f.resolution.None?
    else
      && e.kind == RESOLVED && f.suppressedUntil.None?
      && (if SightedAfter(log, id, m) then f.state == Open && f.resolution.None?
          else f.state == Resolved && f.resolution == Some(ActionOf(e, t)))
  }

  /** Without an action the finding is open; otherwise its state is what the latest action and the
      sightings after it make of it. */
  ghost predicate StateFollows(log: seq<Record>, id: string, f: Finding) {
    if NoAct(log, id) then f.state == Open && f.suppressedUntil.None? && f.resolution.None?
    else exists m: nat, t :: LastAct(log, id, m) && Carries(log[m].event, t) && Made(log, id, m, log[m].event, t, f)
  }

  // ----- the latest acknowledgement -----

  ghost predicate Acknowledges(r: Record, id: string) { Own(r, id) && r.event.kind == ACKNOWLEDGED }

  /** After record `m` the finding was resolved and then seen again. */
  ghost predicate Reopened(log: seq<Record>, id: string, m: nat) {
    exists i, j :: m < i < j < |log| && Own(log[i], id) && log[i].event.kind == RESOLVED && Sighting(log[j], id)
  }

  ghost predicate LastAcknowledgement(log: seq<Record>, id: string, m: nat) {
    m < |log| && Acknowledges(log[m], id) && forall j :: m < j < |log| ==> !Acknowledges(log[j], id)
  }

  /** The acknowledgement is the latest one, unless the finding was resolved and seen again since. */
  ghost predicate AcknowledgementFollows(log: seq<Record>, id: string, f: Finding) {
    if f.acknowledgement.None? then forall m: nat :: LastAcknowledgement(log, id, m) ==> Reopened(log, id, m)
    else exists m: nat, t ::
      && LastAcknowledgement(log, id, m) && Carries(log[m].event, t) && !Reopened(log, id, m)
      && f.acknowledgement == Some(ActionOf(log[m].event, t))
  }

  // ----- one more record -----

  lemma ActsSnoc(log: seq<Record>, r: Record, id: string)
    ensures Acts(r, id) ==> LastAct(log + [r], id, |log|) && !NoAct(log + [r], id)
    ensures !Acts(r, id) ==> (NoAct(log + [r], id) <==> NoAct(log, id))
    ensures !Acts(r, id) ==> forall m: nat :: LastAct(log + [r], id, m) <==> LastAct(log, id, m)
  {
    hide Acts;
    var log' := log + [r];
    assert log'[|log|] == r && forall i :: 0 <= i < |log| ==> log'[i] == log[i];
    if NoAct(log', id) {
      forall j | 0 <= j < |log| ensures !Acts(log[j], id) { assert log'[j] == log[j]; }
    }
    forall m: nat | LastAct(log', id, m) && !Acts(r, id) ensures LastAct(log, id, m) {
      forall j | m < j < |log| ensures !Acts(log[j], id) { assert log'[j] == log[j]; }
    }
  }

  lemma SightedSnoc(log: seq<Record>, r: Record, id: string, m: nat, until: Option<Time>)
    requires m < |log|
    ensures SightedAfter(log + [r], id, m) <==> SightedAfter(log, id, m) || Sighting(r, id)
    ensures EndedAfter(log + [r], id, m, until) <==>
      EndedAfter(log, id, m, until) || (until.Some? && Sighting(r, id) && until.value <= r.event.recordedAt)
  {
    hide Sighting;
    var log' := log + [r];
    assert log'[|log|] == r && forall i :: 0 <= i < |log| ==> log'[i] == log[i];
    if SightedAfter(log, id, m) {
      var j :| m < j < |log| && Sighting(log[j], id);
      assert Sighting(log'[j], id);
    }
    if EndedAfter(log, id, m, until) {
      var j :| m < j < |log| && Sighting(log[j], id) && until.value <= log[j].event.recordedAt;
      assert Sighting(log'[j], id);
    }
  }

  lemma ReopenedSnoc(log: seq<Record>, r: Record, id: string, m: nat)
    requires m < |log|
    ensures Reopened(log + [r], id, m) <==> Reopened(log, id, m) || (Sighting(r, id) && ResolvedAfter(log, id, m))
  {
    hide Sighting, Own;
    var log' := log + [r];
    assert log'[|log|] == r && forall i :: 0 <= i < |log| ==> log'[i] == log[i];
    if Reopened(log, id, m) {
      var i, j :| m < i < j < |log| && Own(log[i], id) && log[i].event.kind == RESOLVED && Sighting(log[j], id);
      assert Own(log'[i], id) && Sighting(log'[j], id);
    }
    if Sighting(r, id) && ResolvedAfter(log, id, m) {
      var i :| m < i < |log| && Own(log[i], id) && log[i].event.kind == RESOLVED;
      assert Own(log'[i], id) && Sighting(log'[|log|], id);
    }
  }

  ghost predicate ResolvedAfter(log: seq<Record>, id: string, m: nat) {
    exists i :: m < i < |log| && Own(log[i], id) && log[i].event.kind == RESOLVED
  }

  lemma AcknowledgementSnoc(log: seq<Record>, r: Record, id: string)
    ensures Acknowledges(r, id) ==> LastAcknowledgement(log + [r], id, |log|)
    ensures Acknowledges(r, id) ==> forall m: nat :: LastAcknowledgement(log + [r], id, m) ==> m == |log|
    ensures !Acknowledges(r, id) ==>
      forall m: nat :: LastAcknowledgement(log + [r], id, m) <==> LastAcknowledgement(log, id, m)
  {
    hide Acknowledges;
    var log' := log + [r];
    assert log'[|log|] == r && forall i :: 0 <= i < |log| ==> log'[i] == log[i];
    forall m: nat | LastAcknowledgement(log', id, m) && !Acknowledges(r, id) ensures LastAcknowledgement(log, id, m) {
      forall j | m < j < |log| ensures !Acknowledges(log[j], id) { assert log'[j] == log[j]; }
    }
  }

  /** What an action makes of a finding, at once. */
  ghost predicate ActMade(f: Finding, next: Finding, e: Event, t: Transition) {
    if e.kind == ACKNOWLEDGED then
      && next.state == Acknowledged && next.suppressedUntil.None? && next.resolution.None?
      && next.acknowledgement == Some(ActionOf(e, t))
    else if e.kind == SUPPRESSED then
      && next.state == Suppressed && next.suppressedUntil == t.until && next.resolution.None?
      && next.acknowledgement == f.acknowledgement
    else if e.kind == UNSUPPRESSED then
      && next.state == Open && next.suppressedUntil.None? && next.resolution == f.resolution
      && next.acknowledgement == f.acknowledgement
    else
      && e.kind == RESOLVED && next.state == Resolved && next.suppressedUntil.None?
      && next.resolution == Some(ActionOf(e, t)) && next.acknowledgement == f.acknowledgement
  }

  lemma ActMakes(f: Finding, r: Record)
    requires r.event.kind != OBSERVED && NextFinding(Some(f), r).Ok?
    ensures f.state != Resolved && (LifecycleFields(f) ==> f.resolution.None?)
    ensures exists t :: Carries(r.event, t) && ActMade(f, NextFinding(Some(f), r).value, r.event, t)
  {
    hide Blank;
    assert ReadTransition(r.event).Ok?;
    var t := ReadTransition(r.event).value;
    assert Carries(r.event, t) && ActMade(f, NextFinding(Some(f), r).value, r.event, t);
  }

  /** A sighting reopens a resolved finding and ends a suppression whose time has come; it changes no
      other state. */
  ghost predicate SightingMade(f: Finding, next: Finding, at: Time) {
    if f.state == Resolved then
      && next.state == Open && next.resolution.None? && next.acknowledgement.None? && next.suppressedUntil.None?
    else if f.state == Suppressed && f.suppressedUntil.Some? && f.suppressedUntil.value <= at then
      && next.state == Open && next.suppressedUntil.None? && next.resolution.None?
      && next.acknowledgement == f.acknowledgement
    else
      && next.state == f.state && next.suppressedUntil == f.suppressedUntil && next.resolution == f.resolution
      && next.acknowledgement == f.acknowledgement
  }

  lemma SightingMakes(f: Finding, r: Record)
    requires r.event.kind == OBSERVED && NextFinding(Some(f), r).Ok? && LifecycleFields(f)
    ensures SightingMade(f, NextFinding(Some(f), r).value, r.event.recordedAt)
  {
    hide Blank, ValidObservation;
  }

  /** A resolution that no sighting has followed is the latest action. */
  ghost predicate ResolutionsEnd(log: seq<Record>, id: string) {
    forall i: nat :: i < |log| && Own(log[i], id) && log[i].event.kind == RESOLVED && !SightedAfter(log, id, i) ==>
      LastAct(log, id, i)
  }

  ghost predicate Follows(log: seq<Record>, id: string, f: Finding) {
    StateFollows(log, id, f) && AcknowledgementFollows(log, id, f) && ResolutionsEnd(log, id)
  }

  lemma OneLastAct(log: seq<Record>, id: string, m: nat, n: nat)
    requires LastAct(log, id, m) && LastAct(log, id, n)
    ensures m == n
  {
    hide Acts;
  }

  lemma ResolvedIsLastAct(log: seq<Record>, id: string, f: Finding, i: nat)
    requires StateFollows(log, id, f) && ResolutionsEnd(log, id)
    requires i < |log| && Own(log[i], id) && log[i].event.kind == RESOLVED && !SightedAfter(log, id, i)
    ensures f.state == Resolved
  {
    hide Carries;
    assert LastAct(log, id, i);
    assert Acts(log[i], id);
    var m: nat, t :| LastAct(log, id, m) && Carries(log[m].event, t) && Made(log, id, m, log[m].event, t, f);
    OneLastAct(log, id, m, i);
  }

  lemma ActFollows(log: seq<Record>, id: string, f: Finding, r: Record)
    requires Acts(r, id) && LifecycleFields(f) && NextFinding(Some(f), r).Ok?
    ensures StateFollows(log + [r], id, NextFinding(Some(f), r).value)
  {
    hide NextFinding, LifecycleFields, Carries;
    ActMakes(f, r);
    ActsSnoc(log, r, id);
    var log', m: nat := log + [r], |log|;
    assert log'[m] == r;
    var t :| Carries(r.event, t) && ActMade(f, NextFinding(Some(f), r).value, r.event, t);
    assert !SightedAfter(log', id, m) && !EndedAfter(log', id, m, t.until);
    assert Made(log', id, m, log'[m].event, t, NextFinding(Some(f), r).value);
  }

  lemma TheLastAct(log: seq<Record>, id: string, f: Finding) returns (m: nat, t: Transition)
    requires StateFollows(log, id, f) && !NoAct(log, id)
    ensures m < |log| && LastAct(log, id, m) && Carries(log[m].event, t) && Made(log, id, m, log[m].event, t, f)
  {
    hide Carries, Made;
    m, t :| LastAct(log, id, m) && Carries(log[m].event, t) && Made(log, id, m, log[m].event, t, f);
  }

  lemma TheAcknowledgement(log: seq<Record>, id: string, f: Finding) returns (m: nat, t: Transition)
    requires AcknowledgementFollows(log, id, f) && f.acknowledgement.Some?
    ensures m < |log| && LastAcknowledgement(log, id, m) && Carries(log[m].event, t) && !Reopened(log, id, m)
    ensures f.acknowledgement == Some(ActionOf(log[m].event, t))
  {
    hide Carries, Reopened;
    m, t :| LastAcknowledgement(log, id, m) && Carries(log[m].event, t) && !Reopened(log, id, m)
      && f.acknowledgement == Some(ActionOf(log[m].event, t));
  }

  lemma SightingFollows(log: seq<Record>, id: string, f: Finding, r: Record)
    requires Sighting(r, id) && LifecycleFields(f) && NextFinding(Some(f), r).Ok? && StateFollows(log, id, f)
    ensures StateFollows(log + [r], id, NextFinding(Some(f), r).value)
  {
    hide NextFinding, LastAct, NoAct, SightedAfter, EndedAfter, Carries, LifecycleFields;
    SightingMakes(f, r);
    ActsSnoc(log, r, id);
    assert !Acts(r, id);
    var log' := log + [r];
    if !NoAct(log, id) {
      var m, t := TheLastAct(log, id, f);
      SightedSnoc(log, r, id, m, t.until);
      assert log'[m] == log[m];
      assert Made(log', id, m, log'[m].event, t, NextFinding(Some(f), r).value);
    }
  }

  lemma LastActInLog(log: seq<Record>, id: string, m: nat)
    requires LastAct(log, id, m)
    ensures m < |log|
  {
  }

  lemma ResolutionsEndNext(log: seq<Record>, id: string, f: Finding, r: Record)
    requires Own(r, id) && LifecycleFields(f) && NextFinding(Some(f), r).Ok?
    requires StateFollows(log, id, f) && ResolutionsEnd(log, id)
    ensures ResolutionsEnd(log + [r], id)
  {
    hide NextFinding, StateFollows, LastAct, SightedAfter;
    var log' := log + [r];
    ActsSnoc(log, r, id);
    forall i: nat | i < |log'| && Own(log'[i], id) && log'[i].event.kind == RESOLVED && !SightedAfter(log', id, i)
      ensures LastAct(log', id, i)
    {
      if i < |log| {
        assert log'[i] == log[i];
        SightedSnoc(log, r, id, i, None);
        ResolvedIsLastAct(log, id, f, i);
        if r.event.kind != OBSERVED { ActMakes(f, r); }
      }
    }
  }

  // ----- the acknowledgement -----

  lemma SightingAfterResolution(log: seq<Record>, id: string, f: Finding, m: nat)
    requires StateFollows(log, id, f) && ResolutionsEnd(log, id) && LastAcknowledgement(log, id, m)
    requires !Reopened(log, id, m)
    ensures f.state == Resolved <==> ResolvedAfter(log, id, m)
  {
    hide Carries, EndedAfter;
    if ResolvedAfter(log, id, m) {
      var i: nat :| m < i < |log| && Own(log[i], id) && log[i].event.kind == RESOLVED;
      assert !SightedAfter(log, id, i);
      ResolvedIsLastAct(log, id, f, i);
    }
    if f.state == Resolved {
      var n: nat, t :| LastAct(log, id, n) && Carries(log[n].event, t) && Made(log, id, n, log[n].event, t, f);
      assert Acts(log[m], id);
      assert log[n].event.kind == RESOLVED;
    }
  }

  lemma AcknowledgementKept(log: seq<Record>, id: string, f: Finding, r: Record)
    requires Follows(log, id, f) && Sighting(r, id) && LifecycleFields(f) && NextFinding(Some(f), r).Ok?
    ensures AcknowledgementFollows(log + [r], id, NextFinding(Some(f), r).value)
  {
    hide NextFinding, StateFollows, LastAcknowledgement, Reopened, ResolvedAfter, Carries, ResolutionsEnd, LifecycleFields;
    SightingMakes(f, r);
    AcknowledgementSnoc(log, r, id);
    var log', next := log + [r], NextFinding(Some(f), r).value;
    if f.acknowledgement.None? {
      forall m: nat | LastAcknowledgement(log', id, m) ensures Reopened(log', id, m) {
        AcknowledgementInLog(log, id, m);
        ReopenedSnoc(log, r, id, m);
      }
    } else {
      var m, t := TheAcknowledgement(log, id, f);
      ReopenedSnoc(log, r, id, m);
      SightingAfterResolution(log, id, f, m);
      assert log'[m] == log[m];
      if f.state == Resolved {
        forall n: nat | LastAcknowledgement(log', id, n) ensures Reopened(log', id, n) {
          OneLastAcknowledgement(log, id, m, n);
        }
      }
    }
  }

  lemma AcknowledgementInLog(log: seq<Record>, id: string, m: nat)
    requires LastAcknowledgement(log, id, m)
    ensures m < |log|
  {
  }

  lemma OneLastAcknowledgement(log: seq<Record>, id: string, m: nat, n: nat)
    requires LastAcknowledgement(log, id, m) && LastAcknowledgement(log, id, n)
    ensures m == n
  {
    hide Acknowledges;
  }

  lemma AcknowledgementActs(log: seq<Record>, id: string, f: Finding, r: Record)
    requires AcknowledgementFollows(log, id, f) && Acts(r, id) && LifecycleFields(f) && NextFinding(Some(f), r).Ok?
    ensures AcknowledgementFollows(log + [r], id, NextFinding(Some(f), r).value)
  {
    hide NextFinding, LastAcknowledgement, Reopened, ResolvedAfter, Carries, LifecycleFields;
    ActMakes(f, r);
    AcknowledgementSnoc(log, r, id);
    var log', next := log + [r], NextFinding(Some(f), r).value;
    var t :| Carries(r.event, t) && ActMade(f, next, r.event, t);
    assert log'[|log|] == r;
    if r.event.kind == ACKNOWLEDGED {
      NothingAfterLast(log', id, |log|);
    } else if f.acknowledgement.None? {
      forall m: nat | LastAcknowledgement(log', id, m) ensures Reopened(log', id, m) {
        AcknowledgementInLog(log, id, m);
        ReopenedSnoc(log, r, id, m);
      }
    } else {
      var m, u := TheAcknowledgement(log, id, f);
      ReopenedSnoc(log, r, id, m);
      assert log'[m] == log[m];
    }
  }

  lemma NothingAfterLast(log: seq<Record>, id: string, m: nat)
    requires m + 1 == |log|
    ensures !Reopened(log, id, m)
  {
  }

  // ----- whole logs -----

  lemma OwnFollows(log: seq<Record>, id: string, f: Finding, r: Record)
    requires Follows(log, id, f) && Own(r, id) && LifecycleFields(f) && NextFinding(Some(f), r).Ok?
    ensures Follows(log + [r], id, NextFinding(Some(f), r).value)
  {
    hide NextFinding, StateFollows, AcknowledgementFollows, ResolutionsEnd, LifecycleFields;
    ResolutionsEndNext(log, id, f, r);
    if r.event.kind == OBSERVED {
      SightingFollows(log, id, f, r);
      AcknowledgementKept(log, id, f, r);
    } else {
      ActFollows(log, id, f, r);
      AcknowledgementActs(log, id, f, r);
    }
  }

  lemma OthersFollow(log: seq<Record>, id: string, f: Finding, r: Record)
    requires Follows(log, id, f) && !Own(r, id)
    ensures Follows(log + [r], id, f)
  {
    hide LastAct, NoAct, SightedAfter, EndedAfter, Carries, LastAcknowledgement, Reopened, ResolvedAfter, IsLifecycle;
    ObservedIsLifecycle();
    ActsSnoc(log, r, id);
    AcknowledgementSnoc(log, r, id);
    var log' := log + [r];
    assert log'[|log|] == r && forall i :: 0 <= i < |log| ==> log'[i] == log[i];
    forall m: nat, until | m < |log| ensures EndedAfter(log', id, m, until) == EndedAfter(log, id, m, until) {
      SightedSnoc(log, r, id, m, until);
    }
    forall m: nat | m < |log| ensures SightedAfter(log', id, m) == SightedAfter(log, id, m) {
      SightedSnoc(log, r, id, m, None);
    }
    forall m: nat | m < |log| ensures Reopened(log', id, m) == Reopened(log, id, m) { ReopenedSnoc(log, r, id, m); }
    forall m: nat ensures (LastAct(log, id, m) ==> m < |log|) && (LastAcknowledgement(log, id, m) ==> m < |log|) {
      if LastAct(log, id, m) { LastActInLog(log, id, m); }
      if LastAcknowledgement(log, id, m) { AcknowledgementInLog(log, id, m); }
    }
    StateStays(log, log', id, f);
    AcknowledgementStays(log, log', id, f);
  }

  lemma StateStays(log: seq<Record>, log': seq<Record>, id: string, f: Finding)
    requires StateFollows(log, id, f) && |log| <= |log'| && forall i :: 0 <= i < |log| ==> log'[i] == log[i]
    requires NoAct(log', id) <==> NoAct(log, id)
    requires forall m: nat :: LastAct(log', id, m) <==> LastAct(log, id, m)
    requires forall m: nat :: m < |log| ==> SightedAfter(log', id, m) == SightedAfter(log, id, m)
    requires forall m: nat, until :: m < |log| ==> EndedAfter(log', id, m, until) == EndedAfter(log, id, m, until)
    ensures StateFollows(log', id, f)
  {
    hide LastAct, NoAct, SightedAfter, EndedAfter, Carries;
    if !NoAct(log, id) {
      var m, t := TheLastAct(log, id, f);
      assert Made(log', id, m, log'[m].event, t, f);
    }
  }

  lemma AcknowledgementStays(log: seq<Record>, log': seq<Record>, id: string, f: Finding)
    requires AcknowledgementFollows(log, id, f) && |log| <= |log'| && forall i :: 0 <= i < |log| ==> log'[i] == log[i]
    requires forall m: nat :: LastAcknowledgement(log', id, m) <==> LastAcknowledgement(log, id, m)
    requires forall m: nat :: m < |log| ==> Reopened(log', id, m) == Reopened(log, id, m)
    ensures AcknowledgementFollows(log', id, f)
  {
    hide LastAcknowledgement, Reopened, Carries;
    forall m: nat | LastAcknowledgement(log, id, m) ensures m < |log| { AcknowledgementInLog(log, id, m); }
    if f.acknowledgement.Some? {
      var m, t := TheAcknowledgement(log, id, f);
      assert log'[m] == log[m];
    }
  }

  lemma FirstFollows(log: seq<Record>, id: string, r: Record, o: Observation)
    requires Sighting(r, id) && forall i :: 0 <= i < |log| ==> !Own(log[i], id)
    ensures Follows(log + [r], id, NewFinding(r, o))
  {
    var log' := log + [r];
    assert log'[|log|] == r && forall i :: 0 <= i < |log| ==> log'[i] == log[i];
    assert NoAct(log', id);
  }

  ghost predicate AllFollow(log: seq<Record>, findings: map<string, Finding>) {
    forall id :: id in findings ==> Follows(log, id, findings[id])
  }

  lemma FieldsOfAll(log: seq<Record>, findings: map<string, Finding>)
    requires ClosedForm(log, findings)
    ensures forall id :: id in findings ==> LifecycleFields(findings[id]) && findings[id].id == id
    ensures forall id, i :: id !in findings && 0 <= i < |log| ==> !Own(log[i], id)
  {
    hide FirstSeenAt, LastSeenAt, UpdatedAt, Latest, LatestReport, IsLifecycle;
  }

  lemma ProjectionFollows(log: seq<Record>, findings: map<string, Finding>, r: Record)
    requires ClosedForm(log, findings) && AllFollow(log, findings) && ProjectFinding(findings, r).Ok?
    ensures AllFollow(log + [r], ProjectFinding(findings, r).value)
  {
    hide ProjectFinding, NextFinding, Follows, ClosedForm, LifecycleFields, Own, IsLifecycle;
    FieldsOfAll(log, findings);
    ProjectionShape(findings, r);
    var id, after := r.event.findingID, ProjectFinding(findings, r).value;
    assert Own(r, id) by { OwnsItsFinding(r); }
    forall x | x in after ensures Follows(log + [r], x, after[x]) {
      if x != id {
        assert !Own(r, x) by { OwnsOnlyIts(r, x); }
        OthersFollow(log, x, findings[x], r);
      } else if id in findings {
        OwnFollows(log, id, findings[id], r);
      } else {
        FirstFollows(log, id, r, DecodeObservation(r.event).value);
      }
    }
  }

  lemma OwnsItsFinding(r: Record)
    requires IsLifecycle(r.event.kind)
    ensures Own(r, r.event.findingID)
  {
  }

  lemma OwnsOnlyIts(r: Record, id: string)
    requires r.event.findingID != id || !IsLifecycle(r.event.kind)
    ensures !Own(r, id)
  {
  }

  /** In every log whose replay succeeds, state, end of suppression, resolution and acknowledgement of
      each finding are those its own events call for. */
  lemma {:induction false} ViewHasStates(log: seq<Record>)
    requires |log| <= MAX_SEQUENCE && View(log).Ok?
    ensures AllFollow(log, View(log).value)
  {
    hide ProjectFinding, ClosedForm, IsLifecycle, Follows, Own;
    if log == [] {
    } else {
      var front, r := log[..|log| - 1], log[|log| - 1];
      assert log == front + [r];
      SelectSnoc(front, r, LIFECYCLE);
      ViewSnoc(front, r);
      var rows := Select(front, LIFECYCLE);
      assert (rows + [r])[..|rows|] == rows && rows + [] == rows;
      ViewHasStates(front);
      ViewHasClosedForm(front);
      if IsLifecycle(r.event.kind) {
        ProjectionFollows(front, View(front).value, r);
      } else {
        forall id | id in View(front).value ensures Follows(log, id, View(front).value[id]) {
          assert !Own(r, id) by { OwnsOnlyIts(r, id); }
          OthersFollow(front, id, View(front).value[id], r);
        }
      }
    }
  }

  /** The same in every reachable state. */
  lemma LifecycleClosedForm(ops: seq<Op>)
    ensures forall id :: id in Run(ops).findings ==>
      StateFollows(Run(ops).log, id, Run(ops).findings[id])
      && AcknowledgementFollows(Run(ops).log, id, Run(ops).findings[id])
  {
    hide StateFollows, AcknowledgementFollows, ResolutionsEnd, Run;
    ViewEqualsReplay(ops);
    ViewHasStates(Run(ops).log);
  }

  // ----- which events are accepted -----

  /** The state an action asks for. */
  function Asked(kind: string): FindingState {
    if kind == ACKNOWLEDGED then Acknowledged
    else if kind == SUPPRESSED then Suppressed
    else if kind == UNSUPPRESSED then Open
    else Resolved
  }

  /** The states from which it may be asked for. */
  predicate MayAsk(kind: string, state: FindingState) {
    if kind == ACKNOWLEDGED then state == Open
    else if kind == UNSUPPRESSED then state == Suppressed
    else state != Resolved
  }

  /** The journal takes a sighting with a valid observation, and an action with a named actor on a finding
      whose state allows it; a suppression ends later than it is recorded. */
  ghost predicate Acceptable(current: Option<Finding>, e: Event) {
    if e.kind == OBSERVED then
      e.payload.Json? && e.payload.observation.Some? && ValidObservation(e.payload.observation.value)
    else
      && current.Some? && MayAsk(e.kind, current.value.state)
      && exists t :: Carries(e, t) && (e.kind == SUPPRESSED && t.until.Some? ==> e.recordedAt < t.until.value)
  }

  lemma NextExactly(current: Option<Finding>, r: Record)
    requires IsLifecycle(r.event.kind)
    ensures NextFinding(current, r).Ok? <==> Acceptable(current, r.event)
    ensures r.event.kind != OBSERVED && current.None? ==> NextFinding(current, r) == Err(FindingNotFound)
    ensures r.event.kind != OBSERVED && current.Some? && !MayAsk(r.event.kind, current.value.state) ==>
      NextFinding(current, r) == Err(InvalidTransition(current.value.state, Asked(r.event.kind)))
  {
    hide Blank, ValidObservation, NewFinding, ObserveAgain, Advance;
    if r.event.kind != OBSERVED && ReadTransition(r.event).Ok? {
      assert Carries(r.event, ReadTransition(r.event).value);
    }
  }

  lemma NextIsValid(current: Option<Finding>, r: Record)
    requires ValidateEvent(r.event).None? && !Blank(r.event.findingID) && r.sequence > 0
    requires current.Some? ==> ValidFinding(current.value) && current.value.occurrences < MAX_SEQUENCE
    requires NextFinding(current, r).Ok?
    ensures ValidFinding(NextFinding(current, r).value)
  {
    hide Blank;
  }

  /** A new, well-formed lifecycle event is stored exactly when it is acceptable in the finding's present
      state: validation of the finding it leaves never fails. */
  lemma AppendAcceptsExactly(t: Tables, e: Event)
    requires Consistent(t) && |t.log| < MAX_SEQUENCE && FindEvent(t.log, e.id).None?
    requires ValidateEvent(e).None? && IsLifecycle(e.kind) && !Blank(e.findingID)
    ensures AppendEvent(t, e).1.Ok? <==> Acceptable(Lookup(t.findings, e.findingID), e)
    ensures AppendEvent(t, e).1 != Err(InvalidFinding)
  {
    hide NextFinding, ValidFinding, ValidateEvent, Acceptable, Blank, IsLifecycle, FindEvent, ClosedForm;
    var r := Record(|t.log| + 1, e);
    NextExactly(Lookup(t.findings, e.findingID), r);
    StoredFindingsAreValid(Select(t.log, LIFECYCLE));
    ViewHasClosedForm(t.log);
    CountsAreBounded(t.log, t.findings);
    if NextFinding(Lookup(t.findings, e.findingID), r).Ok? {
      NextIsValid(Lookup(t.findings, e.findingID), r);
    } else {
      NextErrors(Lookup(t.findings, e.findingID), r);
    }
  }

  lemma NextErrors(current: Option<Finding>, r: Record)
    ensures NextFinding(current, r) != Err(InvalidFinding)
  {
    hide Blank, ValidObservation;
  }

  lemma CountsAreBounded(log: seq<Record>, findings: map<string, Finding>)
    requires ClosedForm(log, findings)
    ensures forall id :: id in findings ==> findings[id].occurrences <= |log|
  {
    hide FirstSeenAt, LastSeenAt, UpdatedAt, Latest, LatestReport, IsLifecycle;
    forall id | id in findings ensures findings[id].occurrences <= |log| { SightingsBounded(log, id); }
  }

  /** How an append fails before the finding is looked at, and what it returns for a known event. */
  lemma AppendAnswers(t: Tables, e: Event)
    requires Consistent(t)
    ensures ValidateEvent(e).Some? ==> AppendEvent(t, e) == (t, Err(InvalidEvent(ValidateEvent(e).value)))
    ensures ValidateEvent(e).None? && IsLifecycle(e.kind) && Blank(e.findingID) ==>
      AppendEvent(t, e) == (t, Err(FindingIDRequired))
    ensures ValidateEvent(e).None? && (IsLifecycle(e.kind) ==> !Blank(e.findingID)) ==>
      && (forall k :: 0 <= k < |t.log| && t.log[k].event.id == e.id ==>
            AppendEvent(t, e) == (t, if t.log[k].event == e then Ok(t.log[k]) else Err(EventIDConflict)))
      && ((forall k :: 0 <= k < |t.log| ==> t.log[k].event.id != e.id) ==>
            && (|t.log| == MAX_SEQUENCE ==> AppendEvent(t, e) == (t, Err(JournalFull)))
            && (|t.log| < MAX_SEQUENCE && !IsLifecycle(e.kind) ==>
                  AppendEvent(t, e) == (t.(log := t.log + [Record(|t.log| + 1, e)]), Ok(Record(|t.log| + 1, e)))))
  {
    hide ValidateEvent, Blank, IsLifecycle, ProjectFinding, View;
    if FindEvent(t.log, e.id).Some? {
      var found := FindEvent(t.log, e.id).value;
      var m :| 0 <= m < |t.log| && t.log[m] == found;
    }
  }
}
