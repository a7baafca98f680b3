/** The proctoring application's session logic: the exam flags, table
    registration, the per-frame poll step and the incident state machine as
    mutable fields, plus the colour tag given to a log row by its severity. */
module MainWindow {
  import Config
  import opened Detector
  import opened Incidents

  /** Why starting an exam did or did not succeed. */
  datatype StartResult = Started | MissingStudentId | CameraUnavailable

  class ProctorApp {
    var running: bool
    var registered: bool
    var currentStatus: Status
    var statusStart: real
    var alertStage: int
    /** The last captured frame, or null before the first one. */
    var frameCache: array?<Pixel>
    const detector: DetectionService

    ghost predicate Valid()
      reads this, detector
    {
      0 <= alertStage <= 2 &&
      (registered ==> detector.tableRef != null) &&
      (frameCache != null ==> frameCache.Length == FramePixels) &&
      (detector.tableRef != null ==> detector.tableRef.Length == FramePixels)
    }

    /** The incident state held in the three fields. */
    function State(): Machine
      reads this
    {
      Machine(currentStatus, statusStart, alertStage)
    }

    /** A new application window, idle, at time `now`. */
    constructor (now: real)
      ensures Valid() && fresh(detector)
      ensures !running && !registered && frameCache == null && detector.tableRef == null
      ensures State() == Machine(Normal, now, 0)
    {
      detector := new DetectionService();
      running := false;
      registered := false;
      currentStatus := Normal;
      statusStart := now;
      alertStage := 0;
      frameCache := null;
    }

    /** Start button: refuses an empty student id, then opens the camera
        (whose success is an input) and enters setup mode, unregistered.
        The incident state is not reset here. */
    method StartExam(studentId: string, cameraOpens: bool) returns (r: StartResult)
      requires Valid()
      modifies this
      ensures Valid()
      ensures r == (if studentId == "" then MissingStudentId
                    else if !cameraOpens then CameraUnavailable else Started)
      ensures r == Started ==> running && !registered
      ensures r != Started ==> running == old(running) && registered == old(registered)
      ensures State() == old(State()) && frameCache == old(frameCache)
    {
      if studentId == "" {
        return MissingStudentId;
      }
      if !cameraOpens {
        return CameraUnavailable;
      }
      running := true;
      registered := false;
      r := Started;
    }

    /** Register button: with a cached frame, store it as the reference and
        restart the incident clock in NORMAL, leaving the alert stage as it
        was; without one, do nothing. */
    method RegisterTable(now: real)
      requires Valid()
      modifies this, detector
      ensures Valid()
      ensures old(frameCache) == null ==>
                registered == old(registered) && State() == old(State()) &&
                detector.tableRef == old(detector.tableRef)
      ensures old(frameCache) != null ==>
                registered && currentStatus == Normal && statusStart == now &&
                alertStage == old(alertStage) &&
                detector.tableRef != null && fresh(detector.tableRef) &&
                frameCache != null && detector.tableRef[..] == frameCache[..]
      ensures running == old(running) && frameCache == old(frameCache)
    {
      if frameCache != null {
        detector.SetReferenceFrame(frameCache);
        registered := true;
        statusStart := now;
        currentStatus := Normal;
      }
    }

    /** Stop button: the poll loop ends at its next tick; nothing else of the
        session changes. */
    method StopExam()
      requires Valid()
      modifies this
      ensures Valid()
      ensures !running
      ensures registered == old(registered) && State() == old(State()) && frameCache == old(frameCache)
    {
      running := false;
    }

    /** The incident state machine for one frame. The source reads the clock
        three times in one call; here a single `now` stands for all three. */
    method HandleStatusChange(newStatus: Status, now: real, studentId: string, evidenceName: string)
      returns (effects: seq<Effect>)
      requires Valid()
      modifies this
      ensures Valid()
      ensures State() == Step(old(State()), newStatus, now, studentId, evidenceName).next
      ensures effects == Step(old(State()), newStatus, now, studentId, evidenceName).effects
      ensures running == old(running) && registered == old(registered) && frameCache == old(frameCache)
    {
      effects := [];
      if newStatus != currentStatus {
        var oldDuration := now - statusStart;
        if oldDuration > DebounceSeconds {
          var sev := OutgoingSeverity(currentStatus, oldDuration);
          effects := effects + [Log(Incident(studentId, currentStatus, oldDuration, sev, NoEvidence))];
        }
        if newStatus != Normal {
          effects := effects + [Beep];
        }
        currentStatus := newStatus;
        statusStart := now;
        alertStage := 0;
      }
      var currentDuration := now - statusStart;
      if currentStatus != Normal {
        if currentDuration > Config.WarningThreshold && alertStage == 0 {
          effects := effects + [Notify(currentDuration)];
          alertStage := 1;
        } else if currentDuration > CriticalAfter && alertStage == 1 {
          effects := effects + [SaveEvidence(studentId, currentStatus, evidenceName)];
          effects := effects + [Log(Incident(studentId, currentStatus, currentDuration, Critical, evidenceName))];
          alertStage := 2;
        }
      }
    }

    /** One tick of the poll loop: nothing once stopped or when no frame was
        captured; otherwise cache the frame, classify it (monitoring only once
        the table is registered) and feed the label to the state machine. */
    method VideoTick(captured: array?<Pixel>, handsVisible: bool, now: real,
                     studentId: string, evidenceName: string)
      returns (effects: seq<Effect>)
      requires Valid()
      requires captured != null ==> captured.Length == FramePixels
      modifies this
      ensures Valid()
      ensures !old(running) || captured == null ==>
                effects == [] && State() == old(State()) && frameCache == old(frameCache)
      ensures old(running) && captured != null ==>
                frameCache == captured &&
                var observed := detector.FrameStatus(captured, handsVisible, registered);
                State() == Step(old(State()), observed, now, studentId, evidenceName).next &&
                effects == Step(old(State()), observed, now, studentId, evidenceName).effects
      ensures running == old(running) && registered == old(registered)
    {
      effects := [];
      if !running {
        return;
      }
      if captured != null {
        frameCache := captured;
        var observed := detector.ProcessFrame(captured, handsVisible, registered);
        effects := HandleStatusChange(observed, now, studentId, evidenceName);
      }
    }
  }

  /** Registration leaves a stale alert stage behind, but it never matters:
      from NORMAL, the effects of a step do not depend on the stage, and a
      change to another status resets it. */
  lemma StaleStageIsHarmless(start: real, k1: int, k2: int, newStatus: Status, now: real,
                             studentId: string, evidenceName: string)
    ensures Step(Machine(Normal, start, k1), newStatus, now, studentId, evidenceName).effects ==
            Step(Machine(Normal, start, k2), newStatus, now, studentId, evidenceName).effects
    ensures newStatus != Normal ==>
              Step(Machine(Normal, start, k1), newStatus, now, studentId, evidenceName) ==
              Step(Machine(Normal, start, k2), newStatus, now, studentId, evidenceName)
  {
  }

  /** The same over any number of frames: from NORMAL, the whole sequence of
      effects does not depend on the stage left over from registration. */
  lemma {:induction false} StaleStageIsHarmlessOverRun(start: real, k1: int, k2: int, frames: seq<Frame>)
    ensures Run(Machine(Normal, start, k1), frames).effects == Run(Machine(Normal, start, k2), frames).effects
    decreases |frames|
  {
    if frames != [] {
      var f := frames[0];
      var o1 := Step(Machine(Normal, start, k1), f.status, f.now, f.studentId, f.evidenceName);
      var o2 := Step(Machine(Normal, start, k2), f.status, f.now, f.studentId, f.evidenceName);
      StaleStageIsHarmless(start, k1, k2, f.status, f.now, f.studentId, f.evidenceName);
      if f.status == Normal {
        assert o1.next == Machine(Normal, start, k1) && o2.next == Machine(Normal, start, k2);
        StaleStageIsHarmlessOverRun(start, k1, k2, frames[1..]);
      }
    }
  }

  /** The highlight of a row in the recent-incidents list. */
  datatype RowTag = Danger | Safe | Plain

  /** ASCII upper-casing of one character. */
  function UpperChar(c: char): char
  {
    if 'a' <= c <= 'z' then (c as int - 32) as char else c
  }

  function Upper(s: string): (r: string)
    ensures |r| == |s|
    ensures forall i :: 0 <= i < |s| ==> r[i] == UpperChar(s[i])
  {
    if s == [] then [] else [UpperChar(s[0])] + Upper(s[1..])
  }

  /** Red for HIGH and CRITICAL, green for GOOD, none otherwise, compared
      after upper-casing the stored severity. */
  function Tag(severity: string): (t: RowTag)
    ensures t == Danger <==> Upper(severity) == "HIGH" || Upper(severity) == "CRITICAL"
    ensures t == Safe <==> Upper(severity) == "GOOD"
  {
    var u := Upper(severity);
    if u == "HIGH" || u == "CRITICAL" then Danger
    else if u == "GOOD" then Safe
    else Plain
  }

  /** The tag does not depend on the case the severity was stored in. */
  lemma TagIgnoresCase(severity: string)
    ensures Tag(Upper(severity)) == Tag(severity)
  {
    assert Upper(Upper(severity)) == Upper(severity);
  }

  /** The rows this application writes are tagged by their severity. */
  lemma TagOfSeverity(s: Severity)
    ensures Tag(SeverityLabel(s)) ==
              (if s == High || s == Critical then Danger else if s == Good then Safe else Plain)
  {
    UpperKeepsCapitals(SeverityLabel(s));
  }

  /** A string without lower-case ASCII letters is its own upper-casing. */
  lemma UpperKeepsCapitals(s: string)
    requires forall i :: 0 <= i < |s| ==> !('a' <= s[i] <= 'z')
    ensures Upper(s) == s
  {
  }

  /** A flicker NORMAL -> CAMERA_BLOCKED -> NORMAL within 0.4 s of
      registration logs nothing, yet beeps on entering CAMERA_BLOCKED. */
  lemma FlickerScenario()
    ensures var r := Run(Machine(Normal, 0.0, 0),
                         [Frame(CameraBlocked, 0.2, "S1", "e"), Frame(Normal, 0.4, "S1", "e")]);
      Records(r.effects) == [] && r.effects == [Beep] && r.next == Machine(Normal, 0.4, 0)
  {
  }

  /** Registered at 0 s, hands leave at 2 s and return at 14 s: the NORMAL
      stretch is logged GOOD, the warning fires at 7.5 s, the snapshot and
      CRITICAL record at 12.5 s, and the 12-second absence is logged HIGH. */
  lemma EscalationScenario()
    ensures var r := Run(Machine(Normal, 0.0, 0),
                         [Frame(Normal, 1.0, "S1", "e"), Frame(HandsOffTable, 2.0, "S1", "e"),
                          Frame(HandsOffTable, 7.5, "S1", "e"), Frame(HandsOffTable, 12.5, "S1", "e"),
                          Frame(Normal, 14.0, "S1", "e")]);
      r.effects == [Log(Incident("S1", Normal, 2.0, Good, NoEvidence)), Beep,
                    Notify(5.5),
                    SaveEvidence("S1", HandsOffTable, "e"),
                    Log(Incident("S1", HandsOffTable, 10.5, Critical, "e")),
                    Log(Incident("S1", HandsOffTable, 12.0, High, NoEvidence))] &&
      r.next == Machine(Normal, 14.0, 0)
  {
  }
}
