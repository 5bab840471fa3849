/**
 * What the slacking detector makes of one webcam frame (test_trained_model.py):
 * in each detector result that has boxes, the box with the highest confidence
 * is selected, and the selection of the last such result decides the frame.
 * A box is reduced to its class id and its confidence; its coordinates only
 * serve drawing.
 */
module Detection {
  /** The class names, indexed by class id. */
  const ClassNames: seq<string> := ["Slacking off", "Working"]

  /** The status shown when no result of the frame has a box. */
  const NoDetection: string := "No Detection"

  /** The class id of "Slacking off". */
  const SlackingClass: nat := 0

  datatype Box = Box(cls: nat, score: real)


  /**
   * `max(boxes, key=conf)`: the position of the selected box. Python's `max`
   * replaces its candidate only on a strictly greater key, so on a tie the
   * first box with the top confidence is selected.
   */
  function Top(boxes: seq<Box>): (t: nat)
    requires |boxes| > 0
    ensures t < |boxes|
    ensures forall i :: 0 <= i < |boxes| ==> boxes[i].score <= boxes[t].score
    ensures forall i :: 0 <= i < t ==> boxes[i].score < boxes[t].score
  {
    if |boxes| == 1 then 0
    else
      var t := Top(boxes[..|boxes| - 1]);
      if boxes[|boxes| - 1].score > boxes[t].score then |boxes| - 1 else t
  }

  /** Only one position is a first maximum, so the selection is determined by the scores alone. */
  lemma TopIsTheFirstMaximum(boxes: seq<Box>, j: nat)
    requires j < |boxes|
    requires forall i :: 0 <= i < |boxes| ==> boxes[i].score <= boxes[j].score
    requires forall i :: 0 <= i < j ==> boxes[i].score < boxes[j].score
    ensures Top(boxes) == j
  {
  }

  /**
   * The box selected in each result that has boxes has a class id that names
   * a class: `class_names[cls]` is looked up for the selected box only, and
   * any other id makes it fail.
   */
  predicate KnownClasses(results: seq<seq<Box>>)
  {
    forall i :: 0 <= i < |results| && results[i] != [] ==> results[i][Top(results[i])].cls < |ClassNames|
  }

  /** What a frame shows: whether it counts as slacking, and the status text. */
  datatype Verdict = Verdict(slacking: bool, status: string)

  /**
   * The verdict of a selected box of class `cls`. The flag is set from the
   * class id and the text from the class names, yet they agree: the frame is
   * slacking exactly when the status shown is "Slacking off".
   */
  function Classify(cls: nat): (v: Verdict)
    requires cls < |ClassNames|
    ensures v.slacking <==> cls == SlackingClass
    ensures v.status == ClassNames[cls]
    ensures v.slacking <==> v.status == ClassNames[SlackingClass]
    ensures v.status in ClassNames && v.status != NoDetection
  {
    Verdict(cls == SlackingClass, ClassNames[cls])
  }

  /** The verdict of the results before any box is seen. */
  const Undetected: Verdict := Verdict(false, NoDetection)

  /**
   * The frame's verdict: results without boxes are skipped, each other result
   * overwrites the verdict with its selected box's. A frame is slacking iff
   * its status is "Slacking off".
   */
  function FrameVerdict(results: seq<seq<Box>>): (v: Verdict)
    requires KnownClasses(results)
    ensures v.slacking <==> v.status == ClassNames[SlackingClass]
    ensures v == Undetected || v.status in ClassNames
  {
    if results == [] then Undetected
    else
      var prefix := results[..|results| - 1];
      var last := results[|results| - 1];
      assert forall i :: 0 <= i < |prefix| ==> prefix[i] == results[i];
      if last == [] then FrameVerdict(prefix)
      else Classify(last[Top(last)].cls)
  }

  /** The last result that has boxes decides the frame, through its selected box. */
  lemma {:induction false} LastWithBoxesDecides(results: seq<seq<Box>>, j: nat)
    requires KnownClasses(results)
    requires j < |results| && results[j] != []
    requires forall i :: j < i < |results| ==> results[i] == []
    ensures FrameVerdict(results) == Classify(results[j][Top(results[j])].cls)
  {
    if j < |results| - 1 {
      var prefix := results[..|results| - 1];
      assert forall i :: 0 <= i < |prefix| ==> prefix[i] == results[i];
      assert results[|results| - 1] == [];
      LastWithBoxesDecides(prefix, j);
    }
  }

  /** A frame none of whose results has a box is not slacking and shows "No Detection". */
  lemma {:induction false} NoBoxesNoDetection(results: seq<seq<Box>>)
    requires KnownClasses(results)
    requires forall i :: 0 <= i < |results| ==> results[i] == []
    ensures FrameVerdict(results) == Verdict(false, NoDetection)
  {
    if results != [] {
      NoBoxesNoDetection(results[..|results| - 1]);
    }
  }
}
