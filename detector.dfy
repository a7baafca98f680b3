/** The presence classifier: a per-frame status label computed from the
    hands-visible signal and the dissimilarity between the current
    grayscale frame and the registered empty-table reference. */
module Detector {
  import Config

  /** One grayscale pixel, as an 8-bit intensity. */
  type Pixel = x: int | 0 <= x <= 255

  /** Every captured frame is resized to 720 x 540 before it is used. */
  const FrameWidth: nat := 720
  const FrameHeight: nat := 540
  const FramePixels: nat := FrameWidth * FrameHeight

  /** The three mutually exclusive per-frame labels. */
  datatype Status = Normal | HandsOffTable | CameraBlocked

  /** The label string the application stores and compares. */
  function Label(s: Status): string
  {
    match s
    case Normal => "NORMAL"
    case HandsOffTable => "HANDS_OFF_TABLE"
    case CameraBlocked => "CAMERA_BLOCKED"
  }

  /** Comparing labels as strings is the same as comparing statuses. */
  lemma LabelInjective(a: Status, b: Status)
    ensures Label(a) == Label(b) <==> a == b
  {
  }

  function Abs(x: int): (r: int)
    ensures r >= 0 && (r == x || r == -x)
  {
    if x < 0 then -x else x
  }

  /** Sum over all pixels of |a[i] - b[i]|, accumulated from the front. */
  function SumAbsDiff(a: seq<Pixel>, b: seq<Pixel>): (r: int)
    requires |a| == |b|
    ensures 0 <= r <= 255 * |a|
    decreases |a|
  {
    if |a| == 0 then 0
    else SumAbsDiff(a[..|a| - 1], b[..|b| - 1]) + Abs(a[|a| - 1] as int - b[|b| - 1] as int)
  }

  lemma {:induction false} SumAbsDiffSymmetric(a: seq<Pixel>, b: seq<Pixel>)
    requires |a| == |b|
    ensures SumAbsDiff(a, b) == SumAbsDiff(b, a)
    decreases |a|
  {
    if |a| > 0 {
      SumAbsDiffSymmetric(a[..|a| - 1], b[..|b| - 1]);
    }
  }

  /** The score is zero exactly when the two images are identical. */
  lemma {:induction false} SumAbsDiffZeroIff(a: seq<Pixel>, b: seq<Pixel>)
    requires |a| == |b|
    ensures SumAbsDiff(a, b) == 0 <==> a == b
    decreases |a|
  {
    if |a| > 0 {
      var n := |a| - 1;
      SumAbsDiffZeroIff(a[..n], b[..n]);
      assert a == a[..n] + [a[n]];
      assert b == b[..n] + [b[n]];
      if a == b {
        assert a[..n] == b[..n];
      }
    }
  }

  /** The status decision: NORMAL unless monitoring with a registered
      reference and no hands in view; then the score splits the table-is-empty
      case from the view-is-changed case. */
  function Classify(isMonitoring: bool, hasReference: bool, handsVisible: bool, diff: int): (s: Status)
    ensures !isMonitoring || !hasReference ==> s == Normal
    ensures handsVisible ==> s == Normal
    ensures isMonitoring && hasReference && !handsVisible ==>
              (s == HandsOffTable <==> diff < Config.TableSimilarityThreshold) &&
              (s == CameraBlocked <==> diff >= Config.TableSimilarityThreshold)
  {
    if isMonitoring && hasReference && !handsVisible then
      (if diff < Config.TableSimilarityThreshold then HandsOffTable else CameraBlocked)
    else
      Normal
  }

  /** A frame that equals the reference, seen without hands while
      monitoring, is read as "hands off the table". */
  lemma IdenticalFrameIsHandsOff(frame: seq<Pixel>)
    ensures Classify(true, true, false, SumAbsDiff(frame, frame)) == HandsOffTable
  {
    SumAbsDiffZeroIff(frame, frame);
  }

  /** The summed absolute difference, computed by one pass over the pixels. */
  method AbsDiffSum(a: array<Pixel>, b: array<Pixel>) returns (d: int)
    requires a.Length == b.Length
    ensures d == SumAbsDiff(a[..], b[..])
  {
    d := 0;
    var i := 0;
    while i < a.Length
      invariant 0 <= i <= a.Length
      invariant d == SumAbsDiff(a[..i], b[..i])
    {
      assert a[..i + 1][..i] == a[..i];
      assert b[..i + 1][..i] == b[..i];
      d := d + Abs(a[i] as int - b[i] as int);
      i := i + 1;
    }
    assert a[..] == a[..a.Length];
    assert b[..] == b[..b.Length];
  }

  class DetectionService {
    /** The registered empty-table image, or null before registration. */
    var tableRef: array?<Pixel>

    constructor ()
      ensures tableRef == null
    {
      tableRef := null;
    }

    /** Registers the empty table by storing a private copy of the frame. */
    method SetReferenceFrame(frame: array<Pixel>)
      modifies this
      ensures tableRef != null && fresh(tableRef)
      ensures tableRef[..] == frame[..]
    {
      var copy := new Pixel[frame.Length];
      forall i | 0 <= i < frame.Length {
        copy[i] := frame[i];
      }
      tableRef := copy;
    }

    /** The status ProcessFrame reports for a frame: the score is only
        taken when the decision depends on it. */
    function FrameStatus(frame: array<Pixel>, handsVisible: bool, isMonitoring: bool): (s: Status)
      requires isMonitoring && tableRef != null && !handsVisible ==> tableRef.Length == frame.Length
      reads this, tableRef, frame
      ensures !isMonitoring || tableRef == null || handsVisible ==> s == Normal
      ensures isMonitoring && tableRef != null && !handsVisible ==>
                (s == HandsOffTable <==> SumAbsDiff(tableRef[..], frame[..]) < Config.TableSimilarityThreshold) &&
                (s == CameraBlocked <==> SumAbsDiff(tableRef[..], frame[..]) >= Config.TableSimilarityThreshold)
      // an unchanged scene, seen without hands while monitoring, is "hands off"
      ensures isMonitoring && tableRef != null && !handsVisible && frame[..] == tableRef[..] ==>
                s == HandsOffTable
    {
      if isMonitoring && tableRef != null && !handsVisible then
        SumAbsDiffZeroIff(tableRef[..], frame[..]);
        Classify(true, true, false, SumAbsDiff(tableRef[..], frame[..]))
      else
        // the score is not looked at on this path
        Classify(isMonitoring, tableRef != null, handsVisible, 0)
    }

    /** The decision part of frame processing; hand detection is an input. */
    method ProcessFrame(frame: array<Pixel>, handsVisible: bool, isMonitoring: bool) returns (status: Status)
      requires isMonitoring && tableRef != null && !handsVisible ==> tableRef.Length == frame.Length
      ensures status == FrameStatus(frame, handsVisible, isMonitoring)
    {
      status := Normal;
      if isMonitoring && tableRef != null {
        if !handsVisible {
          var diff := AbsDiffSum(tableRef, frame);
          status := if diff < Config.TableSimilarityThreshold then HandsOffTable else CameraBlocked;
        }
      }
    }
  }

  /** After registration the caller may overwrite its frame buffer without
      disturbing the stored reference. */
  method ReferenceSurvivesFrameReuse(detector: DetectionService, frame: array<Pixel>)
    modifies detector, frame
    ensures detector.tableRef != null
    ensures detector.tableRef[..] == old(frame[..])
  {
    detector.SetReferenceFrame(frame);
    forall i | 0 <= i < frame.Length {
      frame[i] := 0;
    }
  }
}
