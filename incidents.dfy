/** The incident state machine as values: how one frame's status label and
    the current time move the incident state {status, start, alert stage}
    and which effects (log records, beeps, notifications, evidence
    snapshots) that step produces. The application class in MainWindow
    implements these functions with mutable fields. */
module Incidents {
  import Config
  import opened Detector

  datatype Severity = Good | Low | High | Critical

  /** The severity column as written to the audit log. */
  function SeverityLabel(s: Severity): string
  {
    match s
    case Good => "GOOD"
    case Low => "LOW"
    case High => "HIGH"
    case Critical => "CRITICAL"
  }

  /** The evidence column of a record that has no snapshot. */
  const NoEvidence: string := "N/A"

  /** An audit-log row, without its wall-clock timestamp. */
  datatype Incident = Incident(studentId: string, event: Status, duration: real,
                               severity: Severity, evidence: string)

  /** What one step asks of the outside world; delivery is best effort and
      its result is ignored, except the snapshot name, which is an input. */
  datatype Effect =
    | Log(incident: Incident)
    | Beep
    | Notify(duration: real)
    | SaveEvidence(studentId: string, event: Status, name: string)

  /** The incident state of one session. */
  datatype Machine = Machine(status: Status, start: real, stage: int)

  predicate ValidMachine(m: Machine)
  {
    0 <= m.stage <= 2
  }

  datatype Outcome = Outcome(next: Machine, effects: seq<Effect>)

  /** A status change after at most this many seconds is a flicker and
      is not logged. */
  const DebounceSeconds: real := 1.0
  /** A logged bad episode longer than this is HIGH rather than LOW. */
  const HighSeverityAfter: real := 10.0
  /** An ongoing bad episode longer than this gets a CRITICAL record. This
      is a separate comparison from HighSeverityAfter. */
  const CriticalAfter: real := 10.0

  predicate IsNotify(e: Effect) { e.Notify? }
  predicate IsBeep(e: Effect) { e.Beep? }
  predicate IsSaveEvidence(e: Effect) { e.SaveEvidence? }
  predicate IsCritical(e: Effect) { e.Log? && e.incident.severity == Critical }

  /** Number of effects satisfying p. */
  function CountWhere(effects: seq<Effect>, p: Effect -> bool): nat
  {
    if effects == [] then 0
    else (if p(effects[0]) then 1 else 0) + CountWhere(effects[1..], p)
  }

  /** The log records among the effects, in order. */
  function Records(effects: seq<Effect>): seq<Incident>
  {
    if effects == [] then []
    else (if effects[0].Log? then [effects[0].incident] else []) + Records(effects[1..])
  }

  /** Every CRITICAL record directly follows the snapshot whose name it carries. */
  predicate EvidenceBacked(effects: seq<Effect>)
  {
    forall i :: 0 <= i < |effects| && IsCritical(effects[i]) ==>
      0 < i && effects[i - 1].SaveEvidence? && effects[i - 1].name == effects[i].incident.evidence
  }

  /** Severity of the record for an outgoing episode. */
  function OutgoingSeverity(outgoing: Status, elapsed: real): (sev: Severity)
    ensures sev == Good <==> outgoing == Normal
    ensures sev == High <==> outgoing != Normal && elapsed > HighSeverityAfter
    ensures sev == Low <==> outgoing != Normal && elapsed <= HighSeverityAfter
    ensures sev != Critical
  {
    if outgoing == Normal then Good
    else if elapsed > HighSeverityAfter then High
    else Low
  }

  /** The status-change half of a step. */
  function Transition(m: Machine, newStatus: Status, now: real, studentId: string): (r: Outcome)
    ensures newStatus == m.status ==> r == Outcome(m, [])
    ensures newStatus != m.status ==> r.next == Machine(newStatus, now, 0)
    // a change only ever logs the outgoing episode and beeps, at most once each
    ensures |r.effects| <= 2
    ensures forall i :: 0 <= i < |r.effects| ==>
              (r.effects[i].Log? && r.effects[i].incident.event == m.status &&
               r.effects[i].incident.severity != Critical) || r.effects[i].Beep?
    // the outgoing episode is recorded only when it outlasted the debounce
    ensures newStatus != m.status ==>
              Records(r.effects) ==
                (if now - m.start > DebounceSeconds
                 then [Incident(studentId, m.status, now - m.start, OutgoingSeverity(m.status, now - m.start), NoEvidence)]
                 else [])
    // and the beep sounds exactly on entering a bad status
    ensures CountWhere(r.effects, IsBeep) == (if newStatus != m.status && newStatus != Normal then 1 else 0)
  {
    if newStatus == m.status then Outcome(m, [])
    else
      var elapsed := now - m.start;
      var logged := if elapsed > DebounceSeconds
                    then [Log(Incident(studentId, m.status, elapsed, OutgoingSeverity(m.status, elapsed), NoEvidence))]
                    else [];
      var beep := if newStatus != Normal then [Beep] else [];
      RecordsAppend(logged, beep);
      CountWhereAppend(logged, beep, IsBeep);
      Outcome(Machine(newStatus, now, 0), logged + beep)
  }

  /** The time-based escalation half of a step: warn once, then record
      the episode as CRITICAL with evidence once. */
  function Escalate(m: Machine, now: real, studentId: string, evidenceName: string): (r: Outcome)
    // the episode itself is untouched; only the stage moves, by one step at most
    ensures r.next.status == m.status && r.next.start == m.start
    ensures r.next.stage == m.stage || r.next.stage == m.stage + 1
    ensures r.effects == [] <==> r.next.stage == m.stage
    ensures m.status == Normal ==> r == Outcome(m, [])
    ensures r.next.stage == m.stage + 1 ==> m.stage <= 1 && now - m.start > Config.WarningThreshold
  {
    var elapsed := now - m.start;
    if m.status == Normal then Outcome(m, [])
    else if elapsed > Config.WarningThreshold && m.stage == 0 then
      Outcome(m.(stage := 1), [Notify(elapsed)])
    else if elapsed > CriticalAfter && m.stage == 1 then
      Outcome(m.(stage := 2),
              [SaveEvidence(studentId, m.status, evidenceName),
               Log(Incident(studentId, m.status, elapsed, Critical, evidenceName))])
    else Outcome(m, [])
  }

  /** One frame: the status change, then the ongoing-alert check measured on
      the (possibly new) episode, both at the same instant `now`. */
  function Step(m: Machine, newStatus: Status, now: real, studentId: string, evidenceName: string): (r: Outcome)
    ensures r.next.status == newStatus
    ensures ValidMachine(m) ==> ValidMachine(r.next)
  {
    var t := Transition(m, newStatus, now, studentId);
    var e := Escalate(t.next, now, studentId, evidenceName);
    Outcome(e.next, t.effects + e.effects)
  }

  lemma {:induction false} CountWhereAppend(a: seq<Effect>, b: seq<Effect>, p: Effect -> bool)
    ensures CountWhere(a + b, p) == CountWhere(a, p) + CountWhere(b, p)
    decreases |a|
  {
    if a == [] {
      assert a + b == b;
    } else {
      assert (a + b)[0] == a[0];
      assert (a + b)[1..] == a[1..] + b;
      CountWhereAppend(a[1..], b, p);
    }
  }

  lemma {:induction false} RecordsAppend(a: seq<Effect>, b: seq<Effect>)
    ensures Records(a + b) == Records(a) + Records(b)
    decreases |a|
  {
    if a == [] {
      assert a + b == b;
    } else {
      var head := if a[0].Log? then [a[0].incident] else [];
      assert (a + b)[0] == a[0];
      assert (a + b)[1..] == a[1..] + b;
      RecordsAppend(a[1..], b);
      assert Records(a + b) == head + Records(a[1..] + b);
      assert head + (Records(a[1..]) + Records(b)) == (head + Records(a[1..])) + Records(b);
    }
  }

  lemma EvidenceBackedAppend(a: seq<Effect>, b: seq<Effect>)
    requires EvidenceBacked(a) && EvidenceBacked(b)
    ensures EvidenceBacked(a + b)
  {
    forall i | 0 <= i < |a + b| && IsCritical((a + b)[i])
      ensures 0 < i && (a + b)[i - 1].SaveEvidence? && (a + b)[i - 1].name == (a + b)[i].incident.evidence
    {
      if i >= |a| {
        assert (a + b)[i] == b[i - |a|];
        assert (a + b)[i - 1] == b[i - 1 - |a|];
      }
    }
  }

  /** A status change always happens; the outgoing episode is logged, with its
      own status and elapsed time, exactly when it outlasted the debounce; and
      the change escalates nothing, since the new episode is zero seconds old. */
  lemma StepOnChange(m: Machine, newStatus: Status, now: real, studentId: string, evidenceName: string)
    requires newStatus != m.status
    ensures var r := Step(m, newStatus, now, studentId, evidenceName);
      r.next == Machine(newStatus, now, 0) &&
      (now - m.start > DebounceSeconds ==>
         Records(r.effects) == [Incident(studentId, m.status, now - m.start,
                                         OutgoingSeverity(m.status, now - m.start), NoEvidence)]) &&
      (now - m.start <= DebounceSeconds ==> Records(r.effects) == []) &&
      CountWhere(r.effects, IsNotify) == 0 && CountWhere(r.effects, IsSaveEvidence) == 0 &&
      CountWhere(r.effects, IsCritical) == 0
  {
    var t := Transition(m, newStatus, now, studentId);
    var e := Escalate(t.next, now, studentId, evidenceName);
    assert e.effects == [];
    assert t.effects + e.effects == t.effects;
    var elapsed := now - m.start;
    var logged := if elapsed > DebounceSeconds
                  then [Log(Incident(studentId, m.status, elapsed, OutgoingSeverity(m.status, elapsed), NoEvidence))]
                  else [];
    var beep := if newStatus != Normal then [Beep] else [];
    assert t.effects == logged + beep;
    RecordsAppend(logged, beep);
    CountWhereAppend(logged, beep, IsNotify);
    CountWhereAppend(logged, beep, IsSaveEvidence);
    CountWhereAppend(logged, beep, IsCritical);
  }

  /** A beep is emitted exactly on a change into a status other than NORMAL. */
  lemma StepBeep(m: Machine, newStatus: Status, now: real, studentId: string, evidenceName: string)
    ensures CountWhere(Step(m, newStatus, now, studentId, evidenceName).effects, IsBeep) ==
              (if newStatus != m.status && newStatus != Normal then 1 else 0)
  {
    var t := Transition(m, newStatus, now, studentId);
    var e := Escalate(t.next, now, studentId, evidenceName);
    CountWhereAppend(t.effects, e.effects, IsBeep);
    if newStatus != m.status {
      var elapsed := now - m.start;
      var logged := if elapsed > DebounceSeconds
                    then [Log(Incident(studentId, m.status, elapsed, OutgoingSeverity(m.status, elapsed), NoEvidence))]
                    else [];
      var beep := if newStatus != Normal then [Beep] else [];
      assert t.effects == logged + beep;
      CountWhereAppend(logged, beep, IsBeep);
      assert e.effects == [];
    } else {
      StepWithinEpisode(m, now, studentId, evidenceName);
    }
  }

  /** Within an episode (no status change) the start time is kept, the stage
      only grows, the warning fires exactly from stage 0 past the warning
      threshold and the CRITICAL record with its snapshot exactly from stage 1
      past CriticalAfter; never both in one step, and never while NORMAL. */
  lemma StepWithinEpisode(m: Machine, now: real, studentId: string, evidenceName: string)
    ensures var r := Step(m, m.status, now, studentId, evidenceName);
      var elapsed := now - m.start;
      r.next.start == m.start && r.next.stage >= m.stage &&
      CountWhere(r.effects, IsBeep) == 0 && CountWhere(r.effects, IsSaveEvidence) == CountWhere(r.effects, IsCritical) &&
      CountWhere(r.effects, IsNotify) ==
        (if m.status != Normal && m.stage == 0 && elapsed > Config.WarningThreshold then 1 else 0) &&
      CountWhere(r.effects, IsCritical) ==
        (if m.status != Normal && m.stage == 1 && elapsed > CriticalAfter then 1 else 0) &&
      (CountWhere(r.effects, IsNotify) == 1 ==> r.next.stage == 1 && r.effects == [Notify(elapsed)]) &&
      (CountWhere(r.effects, IsCritical) == 1 ==>
         r.next.stage == 2 &&
         r.effects == [SaveEvidence(studentId, m.status, evidenceName),
                       Log(Incident(studentId, m.status, elapsed, Critical, evidenceName))]) &&
      (CountWhere(r.effects, IsNotify) == 0 && CountWhere(r.effects, IsCritical) == 0 ==> r == Outcome(m, [])) &&
      CountWhere(r.effects, IsNotify) + CountWhere(r.effects, IsCritical) <= 1
  {
    var e := Escalate(m, now, studentId, evidenceName);
    var elapsed := now - m.start;
    assert Step(m, m.status, now, studentId, evidenceName) == Outcome(e.next, [] + e.effects);
    assert [] + e.effects == e.effects;
    if m.status != Normal && elapsed > Config.WarningThreshold && m.stage == 0 {
      assert e == Outcome(m.(stage := 1), [Notify(elapsed)]);
    } else if m.status != Normal && elapsed > CriticalAfter && m.stage == 1 {
      var x := SaveEvidence(studentId, m.status, evidenceName);
      var y := Log(Incident(studentId, m.status, elapsed, Critical, evidenceName));
      assert e == Outcome(m.(stage := 2), [x, y]);
      assert [x, y] == [x] + [y];
      CountWhereAppend([x], [y], IsNotify);
      CountWhereAppend([x], [y], IsBeep);
      CountWhereAppend([x], [y], IsCritical);
      CountWhereAppend([x], [y], IsSaveEvidence);
    } else {
      assert e == Outcome(m, []);
    }
  }

  /** While the status is, or becomes, NORMAL, a step produces no warning,
      no snapshot and no CRITICAL record. */
  lemma StepNormalNeverEscalates(m: Machine, now: real, studentId: string, evidenceName: string)
    ensures var r := Step(m, Normal, now, studentId, evidenceName);
      CountWhere(r.effects, IsNotify) == 0 && CountWhere(r.effects, IsSaveEvidence) == 0 &&
      CountWhere(r.effects, IsCritical) == 0
  {
    if m.status == Normal {
      StepWithinEpisode(m, now, studentId, evidenceName);
    } else {
      StepOnChange(m, Normal, now, studentId, evidenceName);
    }
  }

  /** Every CRITICAL record a step logs carries the name of the snapshot saved
      just before it. */
  lemma StepEvidenceBacked(m: Machine, newStatus: Status, now: real, studentId: string, evidenceName: string)
    ensures EvidenceBacked(Step(m, newStatus, now, studentId, evidenceName).effects)
  {
    var t := Transition(m, newStatus, now, studentId);
    var e := Escalate(t.next, now, studentId, evidenceName);
    EvidenceBackedAppend(t.effects, e.effects);
  }

  /** One frame handed to the state machine, with the time it is handled at,
      the student id read at that moment, and the name the audit sink would
      give a snapshot. */
  datatype Frame = Frame(status: Status, now: real, studentId: string, evidenceName: string)

  /** A sequence of frames handled one after another. */
  function Run(m: Machine, frames: seq<Frame>): (r: Outcome)
    ensures frames == [] ==> r == Outcome(m, [])
    ensures frames != [] ==> r.next.status == frames[|frames| - 1].status
    ensures ValidMachine(m) ==> ValidMachine(r.next)
    decreases |frames|
  {
    if frames == [] then Outcome(m, [])
    else
      var o := Step(m, frames[0].status, frames[0].now, frames[0].studentId, frames[0].evidenceName);
      var rest := Run(o.next, frames[1..]);
      Outcome(rest.next, o.effects + rest.effects)
  }

  /** All frames carry the status of the episode in progress. */
  predicate InEpisode(m: Machine, frames: seq<Frame>)
  {
    forall i :: 0 <= i < |frames| ==> frames[i].status == m.status
  }

  lemma InEpisodeSuffix(m: Machine, m': Machine, frames: seq<Frame>, k: nat)
    requires InEpisode(m, frames) && m'.status == m.status && k <= |frames|
    ensures InEpisode(m', frames[k..])
  {
    forall i | 0 <= i < |frames[k..]| ensures frames[k..][i].status == m'.status {
      assert frames[k..][i] == frames[k + i];
    }
  }

  /** However many frames an episode lasts, its warnings and CRITICAL records
      are exactly its stage advances past 1 and past 2: the start is kept, the
      stage stays in 0..2 and never decreases, and nothing beeps. */
  lemma {:induction false} EpisodeAccounting(m: Machine, frames: seq<Frame>)
    requires ValidMachine(m) && InEpisode(m, frames)
    ensures var r := Run(m, frames);
      r.next.status == m.status && r.next.start == m.start &&
      m.stage <= r.next.stage <= 2 &&
      CountWhere(r.effects, IsBeep) == 0 &&
      CountWhere(r.effects, IsNotify) == (if m.stage < 1 <= r.next.stage then 1 else 0) &&
      CountWhere(r.effects, IsCritical) == (if m.stage < 2 <= r.next.stage then 1 else 0)
    decreases |frames|
  {
    if frames != [] {
      var f := frames[0];
      var o := Step(m, f.status, f.now, f.studentId, f.evidenceName);
      StepWithinEpisode(m, f.now, f.studentId, f.evidenceName);
      InEpisodeSuffix(m, o.next, frames, 1);
      EpisodeAccounting(o.next, frames[1..]);
      var rest := Run(o.next, frames[1..]);
      CountWhereAppend(o.effects, rest.effects, IsBeep);
      CountWhereAppend(o.effects, rest.effects, IsNotify);
      CountWhereAppend(o.effects, rest.effects, IsCritical);
    }
  }

  /** A bad episode warns at most once and records CRITICAL at most once. */
  lemma AtMostOneAlertPerEpisode(m: Machine, frames: seq<Frame>)
    requires ValidMachine(m) && InEpisode(m, frames)
    ensures CountWhere(Run(m, frames).effects, IsNotify) <= 1
    ensures CountWhere(Run(m, frames).effects, IsCritical) <= 1
  {
    EpisodeAccounting(m, frames);
  }

  /** A NORMAL episode produces no effect at all, whatever its length. */
  lemma {:induction false} NormalEpisodeIsSilent(m: Machine, frames: seq<Frame>)
    requires m.status == Normal && InEpisode(m, frames)
    ensures Run(m, frames) == Outcome(m, [])
    decreases |frames|
  {
    if frames != [] {
      var f := frames[0];
      StepWithinEpisode(m, f.now, f.studentId, f.evidenceName);
      InEpisodeSuffix(m, m, frames, 1);
      NormalEpisodeIsSilent(m, frames[1..]);
    }
  }

  /** In a bad episode, any frame handled past the warning threshold leaves
      the stage at 1 or more. */
  lemma {:induction false} ReachesWarning(m: Machine, frames: seq<Frame>, i: nat)
    requires ValidMachine(m) && InEpisode(m, frames) && m.status != Normal
    requires i < |frames| && frames[i].now - m.start > Config.WarningThreshold
    ensures Run(m, frames).next.stage >= 1
    decreases |frames|
  {
    var f := frames[0];
    var o := Step(m, f.status, f.now, f.studentId, f.evidenceName);
    StepWithinEpisode(m, f.now, f.studentId, f.evidenceName);
    InEpisodeSuffix(m, o.next, frames, 1);
    if o.next.stage >= 1 {
      EpisodeAccounting(o.next, frames[1..]);
    } else {
      assert i != 0;
      assert frames[1..][i - 1] == frames[i];
      ReachesWarning(o.next, frames[1..], i - 1);
    }
  }

  /** In a bad episode, once the stage is 1 or more, any frame handled past
      CriticalAfter leaves the stage at 2. */
  lemma {:induction false} ReachesCriticalFromWarned(m: Machine, frames: seq<Frame>, j: nat)
    requires ValidMachine(m) && InEpisode(m, frames) && m.status != Normal && m.stage >= 1
    requires j < |frames| && frames[j].now - m.start > CriticalAfter
    ensures Run(m, frames).next.stage == 2
    decreases |frames|
  {
    var f := frames[0];
    var o := Step(m, f.status, f.now, f.studentId, f.evidenceName);
    StepWithinEpisode(m, f.now, f.studentId, f.evidenceName);
    InEpisodeSuffix(m, o.next, frames, 1);
    if o.next.stage == 2 {
      EpisodeAccounting(o.next, frames[1..]);
    } else {
      assert j != 0;
      assert frames[1..][j - 1] == frames[j];
      ReachesCriticalFromWarned(o.next, frames[1..], j - 1);
    }
  }

  /** A bad episode with a frame past the warning threshold warns exactly
      once, whatever the frame rate. */
  lemma WarningFiresOnce(m: Machine, frames: seq<Frame>, i: nat)
    requires ValidMachine(m) && InEpisode(m, frames) && m.status != Normal && m.stage == 0
    requires i < |frames| && frames[i].now - m.start > Config.WarningThreshold
    ensures CountWhere(Run(m, frames).effects, IsNotify) == 1
  {
    ReachesWarning(m, frames, i);
    EpisodeAccounting(m, frames);
  }

  /** In a bad episode, a frame past the warning threshold followed by a
      frame past CriticalAfter leaves the stage at 2. */
  lemma {:induction false} ReachesCritical(m: Machine, frames: seq<Frame>, i: nat, j: nat)
    requires ValidMachine(m) && InEpisode(m, frames) && m.status != Normal
    requires i < j < |frames|
    requires frames[i].now - m.start > Config.WarningThreshold
    requires frames[j].now - m.start > CriticalAfter
    ensures Run(m, frames).next.stage == 2
    decreases |frames|
  {
    var f := frames[0];
    var o := Step(m, f.status, f.now, f.studentId, f.evidenceName);
    StepWithinEpisode(m, f.now, f.studentId, f.evidenceName);
    InEpisodeSuffix(m, o.next, frames, 1);
    assert frames[1..][j - 1] == frames[j];
    if o.next.stage == 2 {
      EpisodeAccounting(o.next, frames[1..]);
    } else if i == 0 {
      ReachesCriticalFromWarned(o.next, frames[1..], j - 1);
    } else {
      assert frames[1..][i - 1] == frames[i];
      ReachesCritical(o.next, frames[1..], i - 1, j - 1);
    }
  }

  /** A bad episode with a frame past the warning threshold followed by a
      frame past CriticalAfter records CRITICAL exactly once. */
  lemma CriticalFiresOnce(m: Machine, frames: seq<Frame>, i: nat, j: nat)
    requires ValidMachine(m) && InEpisode(m, frames) && m.status != Normal && m.stage <= 1
    requires i < j < |frames|
    requires frames[i].now - m.start > Config.WarningThreshold
    requires frames[j].now - m.start > CriticalAfter
    ensures CountWhere(Run(m, frames).effects, IsCritical) == 1
  {
    ReachesCritical(m, frames, i, j);
    EpisodeAccounting(m, frames);
  }

  /** Across any run, every CRITICAL record carries the name of the snapshot
      saved just before it. */
  lemma {:induction false} RunEvidenceBacked(m: Machine, frames: seq<Frame>)
    ensures EvidenceBacked(Run(m, frames).effects)
    decreases |frames|
  {
    if frames != [] {
      var f := frames[0];
      var o := Step(m, f.status, f.now, f.studentId, f.evidenceName);
      StepEvidenceBacked(m, f.status, f.now, f.studentId, f.evidenceName);
      RunEvidenceBacked(o.next, frames[1..]);
      EvidenceBackedAppend(o.effects, Run(o.next, frames[1..]).effects);
    }
  }
}
