/**
 * The capture tool (utils/collect_data.py): the next free image index,
 * scanned from the names already in a behavior's folder, and the capture
 * loop that saves frames under consecutive indices, with pause and quit keys.
 *
 * The folder is its listing, a sequence of names (`None` when it does not
 * exist); saving a frame appends its name. The webcam is the sequence of its
 * reads and the keyboard the sequence of its key codes.
 */
module Collect {
  import opened Wrappers
  import opened ImageNames
  import opened Keyboard

  /** The names in a folder; a folder that does not exist has none. */
  function Existing(dir: Option<seq<string>>): seq<string>
  {
    if dir.Some? then dir.value else []
  }

  function Max(a: int, b: int): int { if a < b then b else a }

  /** One past the largest index found, 0 when none is: larger than every index found. */
  function NextAfter(found: seq<Option<nat>>): (next: nat)
    ensures forall i :: 0 <= i < |found| && found[i].Some? ==> found[i].value < next
  {
    if found == [] then 0
    else
      var prev := NextAfter(found[..|found| - 1]);
      match found[|found| - 1]
      case None => prev
      case Some(i) => Max(prev, i + 1)
  }

  /** A positive result is attained: some index found is exactly one below it. */
  lemma {:induction false} NextAfterAttained(found: seq<Option<nat>>)
    ensures NextAfter(found) == 0 || exists i :: 0 <= i < |found| && found[i] == Some(NextAfter(found) - 1)
  {
    if found != [] {
      var prefix := found[..|found| - 1];
      NextAfterAttained(prefix);
      if NextAfter(found) != NextAfter(prefix) {
        assert found[|found| - 1] == Some(NextAfter(found) - 1);
      } else if NextAfter(prefix) > 0 {
        var i :| 0 <= i < |prefix| && prefix[i] == Some(NextAfter(prefix) - 1);
        assert found[i] == prefix[i];
      }
    }
  }

  /** What the filter finds in each name of a listing, in listing order. */
  function Found(names: seq<string>, behavior: string): (found: seq<Option<nat>>)
  {
    seq(|names|, i requires 0 <= i < |names| => IndexOf(names[i], behavior))
  }

  /** The index `get_next_index` returns for a listing. */
  function NextIndexOf(names: seq<string>, behavior: string): nat
  {
    NextAfter(Found(names, behavior))
  }

  /** The next index is larger than the index of every name that passes the filter. */
  lemma NextIndexAboveAll(names: seq<string>, behavior: string)
    ensures forall i {:trigger IndexOf(names[i], behavior)} :: 0 <= i < |names| && IndexOf(names[i], behavior).Some? ==>
              IndexOf(names[i], behavior).value < NextIndexOf(names, behavior)
  {
    var found := Found(names, behavior);
    assert forall i :: 0 <= i < |names| ==> found[i] == IndexOf(names[i], behavior);
  }

  /** When the next index is positive, some name that passes the filter has the index just below it. */
  lemma NextIndexAttained(names: seq<string>, behavior: string)
    ensures NextIndexOf(names, behavior) == 0 || exists i {:trigger IndexOf(names[i], behavior)} ::
              0 <= i < |names| && IndexOf(names[i], behavior) == Some(NextIndexOf(names, behavior) - 1)
  {
    var found := Found(names, behavior);
    NextAfterAttained(found);
    if NextAfter(found) > 0 {
      var j :| 0 <= j < |found| && found[j] == Some(NextAfter(found) - 1);
      assert found[j] == IndexOf(names[j], behavior);
    }
  }

  /** The next index is 0 exactly when no name passes the filter. */
  lemma NextIndexZeroIffNoMatch(names: seq<string>, behavior: string)
    ensures NextIndexOf(names, behavior) == 0 <==>
            forall i {:trigger IndexOf(names[i], behavior)} :: 0 <= i < |names| ==> IndexOf(names[i], behavior).None?
  {
    NextIndexAboveAll(names, behavior);
    NextIndexAttained(names, behavior);
  }

  /** Appending a name: the next index grows to one past that name's index, if it has one. */
  lemma NextIndexAppend(names: seq<string>, x: string, behavior: string)
    ensures NextIndexOf(names + [x], behavior) ==
            match IndexOf(x, behavior)
            case None => NextIndexOf(names, behavior)
            case Some(i) => Max(NextIndexOf(names, behavior), i + 1)
  {
    var found := Found(names + [x], behavior);
    assert found[..|names|] == Found(names, behavior);
  }

  /** `get_next_index`: the scan over the listing with a running maximum that starts at -1. */
  method GetNextIndex(dir: Option<seq<string>>, behavior: string) returns (next: nat)
    ensures next == NextIndexOf(Existing(dir), behavior)
    ensures dir.None? ==> next == 0
  {
    var maxIndex := -1;
    if dir.Some? {
      var names := dir.value;
      for i := 0 to |names|
        invariant maxIndex + 1 == NextAfter(Found(names, behavior)[..i])
      {
        assert Found(names, behavior)[..i + 1][..i] == Found(names, behavior)[..i];
        if StartsWith(names[i], behavior + "_") {
          var found := SearchIndex(names[i]);
          if found.Some? {
            maxIndex := Max(maxIndex, found.value);
          }
        }
      }
      assert Found(names, behavior)[..|names|] == Found(names, behavior);
    }
    next := maxIndex + 1;
  }

  /** The next index depends only on which indices are found, not on where or how often. */
  lemma NextAfterDependsOnlyOnValues(f: seq<Option<nat>>, g: seq<Option<nat>>)
    requires forall v :: Some(v) in f <==> Some(v) in g
    ensures NextAfter(f) == NextAfter(g)
  {
    var nf, ng := NextAfter(f), NextAfter(g);
    NextAfterAttained(f);
    NextAfterAttained(g);
  }

  /** Only the names that pass the filter count, and only which of them are present. */
  lemma NextIndexDependsOnlyOnMatches(a: seq<string>, b: seq<string>, behavior: string)
    requires forall x :: IndexOf(x, behavior).Some? ==> (x in a <==> x in b)
    ensures NextIndexOf(a, behavior) == NextIndexOf(b, behavior)
  {
    var fa, fb := Found(a, behavior), Found(b, behavior);
    forall v | Some(v) in fa
      ensures Some(v) in fb
    {
      var i :| 0 <= i < |fa| && fa[i] == Some(v);
      assert fa[i] == IndexOf(a[i], behavior);
      assert a[i] in b;
      var j :| 0 <= j < |b| && b[j] == a[i];
      assert fb[j] == IndexOf(b[j], behavior);
    }
    forall v | Some(v) in fb
      ensures Some(v) in fa
    {
      var j :| 0 <= j < |fb| && fb[j] == Some(v);
      assert fb[j] == IndexOf(b[j], behavior);
      assert b[j] in a;
      var i :| 0 <= i < |a| && a[i] == b[j];
      assert fa[i] == IndexOf(a[i], behavior);
    }
    NextAfterDependsOnlyOnValues(fa, fb);
  }

  /** The order in which the folder lists its names does not matter. */
  lemma NextIndexIgnoresOrder(a: seq<string>, b: seq<string>, behavior: string)
    requires multiset(a) == multiset(b)
    ensures NextIndexOf(a, behavior) == NextIndexOf(b, behavior)
  {
    forall x | IndexOf(x, behavior).Some?
      ensures x in a <==> x in b
    {
      assert x in a <==> x in multiset(a);
      assert x in b <==> x in multiset(b);
    }
    NextIndexDependsOnlyOnMatches(a, b, behavior);
  }

  /** A name without the `{behavior}_` prefix or the `_<digits>.jpg` ending has no effect, wherever it is. */
  lemma NextIndexIgnoresUnmatched(a: seq<string>, x: string, b: seq<string>, behavior: string)
    requires IndexOf(x, behavior).None?
    ensures NextIndexOf(a + [x] + b, behavior) == NextIndexOf(a + b, behavior)
  {
    forall y | IndexOf(y, behavior).Some?
      ensures y in a + [x] + b <==> y in a + b
    {
      assert y != x;
    }
    NextIndexDependsOnlyOnMatches(a + [x] + b, a + b, behavior);
  }

  /** What one read of the webcam gives: a frame, saved with the clock reading taken after it, or a failure. */
  datatype FrameRead = Grabbed(stamp: string) | ReadError

  /** Why a collection run ended. */
  datatype Stop =
    | Finished     // the requested number of images was reached
    | Quit         // 'q' was pressed
    | ReadFailed   // a frame could not be read
    | AwaitingKey  // paused with no key left to come (the source keeps polling)
    | NoCamera     // the webcam did not open

  /** The loop's variables: frames saved so far, the pause flag, and how many key polls saw a key. */
  datatype Progress = Progress(count: nat, paused: bool, keysUsed: nat)

  /** The outcome of one pass of the loop body: the new variables, and the reason it ended, if it did. */
  datatype Iteration = Iteration(next: Progress, stop: Option<Stop>)

  /** The code the `i`-th key poll reads; once the keys run out, the poll sees no key. */
  function PressedAt(keys: seq<int>, i: nat): int
  {
    if i < |keys| then KeyCode(keys[i]) else KeyCode(NoKey)
  }

  /** The frame the next read gives is good (the `count`-th read: every earlier one was saved). */
  predicate CanRead(camera: seq<FrameRead>, count: nat)
  {
    count < |camera| && camera[count].Grabbed?
  }

  /**
   * One pass of the loop body: while capturing, read a frame and save it
   * (a failed read ends the run); then poll a key, 'q' ends the run and 'p'
   * toggles the pause.
   */
  function Iterate(camera: seq<FrameRead>, keys: seq<int>, p: Progress): (it: Iteration)
    requires p.keysUsed <= |keys|
    ensures p.keysUsed <= it.next.keysUsed <= |keys|
    // while paused no frame is read or saved
    ensures p.paused ==> it.next.count == p.count && it.stop != Some(ReadFailed)
    // while capturing, one frame is read: a good one is saved, a bad one ends the run at once
    ensures !p.paused ==> (it.stop == Some(ReadFailed) <==> !CanRead(camera, p.count))
    ensures !p.paused && it.stop != Some(ReadFailed) ==> it.next.count == p.count + 1
    ensures it.stop == Some(ReadFailed) ==> it.next == p
    // a paused loop with no key left to come would wait forever
    ensures it.stop == Some(AwaitingKey) <==> p.paused && p.keysUsed == |keys|
    ensures it.stop == Some(AwaitingKey) ==> it.next == p
    // past the read, 'q' ends the run in either mode and 'p' toggles the pause
    ensures it.stop != Some(ReadFailed) && it.stop != Some(AwaitingKey) ==>
              && it.next.keysUsed == Min(p.keysUsed + 1, |keys|)
              && (it.stop == Some(Quit) <==> PressedAt(keys, p.keysUsed) == KeyQuit)
              && it.stop in {None, Some(Quit)}
              && (it.next.paused <==> (p.paused != (PressedAt(keys, p.keysUsed) == KeyPause)))
    // a pass that does not end the run makes progress
    ensures it.stop.None? ==> it.next.count + it.next.keysUsed > p.count + p.keysUsed
  {
    if p.paused && p.keysUsed == |keys| then
      Iteration(p, Some(AwaitingKey))
    else if !p.paused && !CanRead(camera, p.count) then
      Iteration(p, Some(ReadFailed))
    else
      var count := if p.paused then p.count else p.count + 1;
      var key := PressedAt(keys, p.keysUsed);
      var used := Min(p.keysUsed + 1, |keys|);
      if key == KeyQuit then Iteration(Progress(count, p.paused, used), Some(Quit))
      else if key == KeyPause then Iteration(Progress(count, !p.paused, used), None)
      else Iteration(Progress(count, p.paused, used), None)
  }

  function Min(a: int, b: int): int { if a < b then a else b }

  /** How a capture loop ended: the frames saved, the key polls that saw a key, and why. */
  datatype Ending = Ending(count: nat, keysUsed: nat, stop: Stop)

  /**
   * The capture loop from the variables `p`: repeat the loop body while fewer
   * than `numImages` frames are saved, until a pass ends the run.
   */
  function CaptureRun(camera: seq<FrameRead>, keys: seq<int>, numImages: int, p: Progress): (e: Ending)
    requires p.keysUsed <= |keys|
    ensures p.keysUsed <= e.keysUsed <= |keys|
    ensures p.count <= e.count
    ensures e.stop != NoCamera
    // it finishes with exactly the requested number saved, and a read fails only before that number
    ensures e.stop == Finished ==> e.count == Max(p.count, numImages)
    ensures e.stop == ReadFailed ==> e.count < numImages && !CanRead(camera, e.count)
    decreases numImages - p.count + |keys| - p.keysUsed
  {
    if p.count >= numImages then Ending(p.count, p.keysUsed, Finished)
    else
      var it := Iterate(camera, keys, p);
      if it.stop.Some? then Ending(it.next.count, it.next.keysUsed, it.stop.value)
      else CaptureRun(camera, keys, numImages, it.next)
  }

  /**
   * 'q' ends the loop at the first poll that reads it: the run quits exactly
   * when the last key it polled is 'q', and no earlier poll read 'q'.
   */
  lemma {:induction false} CaptureRunQuitsAtFirstQ(camera: seq<FrameRead>, keys: seq<int>, numImages: int, p: Progress)
    requires p.keysUsed <= |keys|
    requires forall j :: 0 <= j < p.keysUsed ==> KeyCode(keys[j]) != KeyQuit
    ensures var e := CaptureRun(camera, keys, numImages, p);
            && (e.stop == Quit <==> 0 < e.keysUsed && KeyCode(keys[e.keysUsed - 1]) == KeyQuit)
            && forall j :: 0 <= j < e.keysUsed - 1 ==> KeyCode(keys[j]) != KeyQuit
    decreases numImages - p.count + |keys| - p.keysUsed
  {
    if p.count < numImages {
      var it := Iterate(camera, keys, p);
      if it.stop.None? {
        CaptureRunQuitsAtFirstQ(camera, keys, numImages, it.next);
      }
    }
  }

  /** The names of the first `count` frames of a run whose first index is `start`, in order. */
  function Saved(behavior: string, camera: seq<FrameRead>, start: nat, count: nat): (names: seq<string>)
    requires count <= |camera| && forall k :: 0 <= k < count ==> camera[k].Grabbed?
    ensures |names| == count
  {
    seq(count, k requires 0 <= k < count => Filename(behavior, camera[k].stamp, start + k))
  }

  /** Saving one more frame appends its name. */
  lemma SavedNext(behavior: string, camera: seq<FrameRead>, start: nat, count: nat)
    requires count < |camera| && forall k :: 0 <= k <= count ==> camera[k].Grabbed?
    ensures Saved(behavior, camera, start, count + 1) ==
            Saved(behavior, camera, start, count) + [Filename(behavior, camera[count].stamp, start + count)]
  {
  }

  /** The saved frames carry the consecutive indices `start .. start + count - 1`, in the order saved. */
  lemma SavedIndices(behavior: string, camera: seq<FrameRead>, start: nat, count: nat)
    requires count <= |camera| && forall k :: 0 <= k < count ==> camera[k].Grabbed?
    ensures forall k :: 0 <= k < count ==> IndexOf(Saved(behavior, camera, start, count)[k], behavior) == Some(start + k)
  {
    forall k | 0 <= k < count
      ensures IndexOf(Saved(behavior, camera, start, count)[k], behavior) == Some(start + k)
    {
      FilenameRoundTrip(behavior, camera[k].stamp, start + k);
    }
  }

  /** Appending names that carry the consecutive indices `start, start + 1, ...` moves the next index past them. */
  lemma {:induction false} NextIndexAfterConsecutive(names: seq<string>, added: seq<string>, behavior: string, start: nat)
    requires start == NextIndexOf(names, behavior)
    requires forall k :: 0 <= k < |added| ==> IndexOf(added[k], behavior) == Some(start + k)
    ensures NextIndexOf(names + added, behavior) == start + |added|
  {
    if added == [] {
      assert names + added == names;
    } else {
      var last := |added| - 1;
      var before := added[..last];
      assert names + added == (names + before) + [added[last]];
      assert forall k :: 0 <= k < |before| ==> before[k] == added[k];
      NextIndexAfterConsecutive(names, before, behavior, start);
      assert NextIndexOf(names + before, behavior) == start + last;
      assert IndexOf(added[last], behavior) == Some(start + last);
      NextIndexAppend(names + before, added[last], behavior);
    }
  }

  /** After a run from `start`, the next scan of the folder resumes right after the last saved index. */
  lemma NextIndexAfterSaves(names: seq<string>, behavior: string, camera: seq<FrameRead>, start: nat, count: nat)
    requires start == NextIndexOf(names, behavior)
    requires count <= |camera| && forall k :: 0 <= k < count ==> camera[k].Grabbed?
    ensures NextIndexOf(names + Saved(behavior, camera, start, count), behavior) == start + count
  {
    SavedIndices(behavior, camera, start, count);
    NextIndexAfterConsecutive(names, Saved(behavior, camera, start, count), behavior, start);
  }

  /** No key poll reads 'p' or 'q'. */
  predicate NoPauseOrQuit(keys: seq<int>)
  {
    forall j :: 0 <= j < |keys| ==> KeyCode(keys[j]) != KeyPause && KeyCode(keys[j]) != KeyQuit
  }

  /**
   * The capture loop of `collect_data`, with the webcam open: save frames
   * under consecutive indices from `start` until `numImages` are saved, a read
   * fails or 'q' is pressed. Returns the names saved, in order, their number,
   * how many key polls saw a key, and why the loop ended.
   */
  method Capture(behavior: string, start: nat, numImages: int, camera: seq<FrameRead>, keys: seq<int>)
    returns (saved: seq<string>, count: nat, keysUsed: nat, stop: Stop)
    // the loop is the loop body repeated from its initial variables
    ensures Ending(count, keysUsed, stop) == CaptureRun(camera, keys, numImages, Progress(0, false, 0))
    ensures count <= Max(numImages, 0)
    ensures count <= |camera| && forall k :: 0 <= k < count ==> camera[k].Grabbed?
    ensures saved == Saved(behavior, camera, start, count)
    ensures stop != NoCamera
    ensures stop == Finished ==> count == Max(numImages, 0)
    ensures stop == ReadFailed ==> count < numImages && !CanRead(camera, count)
    // 'q' stops the loop at the first poll that reads it, in either mode
    ensures keysUsed <= |keys|
    ensures stop == Quit <==> 0 < keysUsed && KeyCode(keys[keysUsed - 1]) == KeyQuit
    ensures forall j :: 0 <= j < keysUsed - 1 ==> KeyCode(keys[j]) != KeyQuit
    ensures stop == AwaitingKey ==> exists j :: 0 <= j < |keys| && KeyCode(keys[j]) == KeyPause
    // with enough good frames and no 'p' or 'q', exactly `numImages` frames are saved
    ensures NoPauseOrQuit(keys) && numImages <= |camera| && (forall k :: 0 <= k < numImages ==> camera[k].Grabbed?) ==>
              stop == Finished && count == Max(numImages, 0)
  {
    saved := [];
    var p := Progress(0, false, 0);
    stop := Finished;
    while p.count < numImages
      invariant p.keysUsed <= |keys|
      invariant p.count <= Max(numImages, 0)
      invariant p.count <= |camera| && forall k :: 0 <= k < p.count ==> camera[k].Grabbed?
      invariant saved == Saved(behavior, camera, start, p.count)
      invariant stop == Finished
      invariant CaptureRun(camera, keys, numImages, p) == CaptureRun(camera, keys, numImages, Progress(0, false, 0))
      invariant p.paused ==> exists j :: 0 <= j < |keys| && KeyCode(keys[j]) == KeyPause
      invariant NoPauseOrQuit(keys) ==> !p.paused
      decreases numImages - p.count + |keys| - p.keysUsed
    {
      var it := Iterate(camera, keys, p);
      if it.next.count > p.count {
        SavedNext(behavior, camera, start, p.count);
        saved := saved + [Filename(behavior, camera[p.count].stamp, start + p.count)];
      }
      p := it.next;
      if it.stop.Some? {
        stop := it.stop.value;
        break;
      }
    }
    count, keysUsed := p.count, p.keysUsed;
    CaptureRunQuitsAtFirstQ(camera, keys, numImages, Progress(0, false, 0));
  }

  /**
   * `collect_data`: make sure the folder exists, find the first free index,
   * then run the capture loop if the webcam opens. Returns the folder's
   * listing afterwards, the first index, the number saved, how many key polls
   * saw a key and why the run ended.
   */
  method CollectData(behavior: string, dir: Option<seq<string>>, numImages: int, cameraOpen: bool,
                     camera: seq<FrameRead>, keys: seq<int>)
    returns (files: seq<string>, start: nat, count: nat, keysUsed: nat, stop: Stop)
    ensures start == NextIndexOf(Existing(dir), behavior)
    ensures count <= Max(numImages, 0)
    ensures count <= |camera| && forall k :: 0 <= k < count ==> camera[k].Grabbed?
    // the saved names are the only new names in the folder
    ensures files == Existing(dir) + Saved(behavior, camera, start, count)
    // the next run starts right after the last index saved here
    ensures NextIndexOf(files, behavior) == start + count
    ensures stop == NoCamera <==> !cameraOpen
    ensures stop == NoCamera ==> count == 0 && keysUsed == 0
    ensures cameraOpen ==> Ending(count, keysUsed, stop) == CaptureRun(camera, keys, numImages, Progress(0, false, 0))
    ensures stop == Finished ==> count == Max(numImages, 0)
    ensures stop == ReadFailed ==> count < numImages && !CanRead(camera, count)
    ensures keysUsed <= |keys|
    ensures stop == Quit <==> 0 < keysUsed && KeyCode(keys[keysUsed - 1]) == KeyQuit
    ensures forall j :: 0 <= j < keysUsed - 1 ==> KeyCode(keys[j]) != KeyQuit
    ensures stop == AwaitingKey ==> exists j :: 0 <= j < |keys| && KeyCode(keys[j]) == KeyPause
    ensures cameraOpen && NoPauseOrQuit(keys) && numImages <= |camera| &&
            (forall k :: 0 <= k < numImages ==> camera[k].Grabbed?) ==>
              stop == Finished && count == Max(numImages, 0)
  {
    files := Existing(dir);
    start := GetNextIndex(dir, behavior);
    if !cameraOpen {
      count, keysUsed, stop := 0, 0, NoCamera;
      assert files == files + Saved(behavior, camera, start, 0);
    } else {
      var saved;
      saved, count, keysUsed, stop := Capture(behavior, start, numImages, camera, keys);
      files := files + saved;
    }
    NextIndexAfterSaves(Existing(dir), behavior, camera, start, count);
  }

  /** The "last saved index" the run reports, as written: `start_index + count - 1`. */
  function ReportedLastIndex(start: nat, count: nat): (reported: int)
    ensures count > 0 ==> reported >= start
    ensures count == 0 ==> reported < start
    // when something was saved, the report is the index of the last frame saved
    ensures count > 0 ==> Some(reported) == LastSavedIndex(start, count)
  {
    start + count - 1
  }

  /**
   * As written, a run that saves nothing still reports a last saved index:
   * -1 in an empty folder, and otherwise the index of a name that was in the
   * folder before the run.
   */
  lemma ReportedLastIndexWhenNothingSaved(names: seq<string>, behavior: string)
    ensures NextIndexOf(names, behavior) == 0 ==> ReportedLastIndex(0, 0) == -1
    ensures NextIndexOf(names, behavior) > 0 ==>
              exists i {:trigger IndexOf(names[i], behavior)} :: 0 <= i < |names| &&
                IndexOf(names[i], behavior) == Some(ReportedLastIndex(NextIndexOf(names, behavior), 0))
  {
    NextIndexAttained(names, behavior);
  }

  /** The index of the last frame a run saved, and none when it saved nothing. */
  function LastSavedIndex(start: nat, count: nat): (last: Option<nat>)
    ensures last.Some? <==> count > 0
  {
    if count == 0 then None else Some(start + count - 1)
  }

  /** The last saved index is the index of the last name the run added. */
  lemma LastSavedIndexIsLastName(behavior: string, camera: seq<FrameRead>, start: nat, count: nat)
    requires count <= |camera| && forall k :: 0 <= k < count ==> camera[k].Grabbed?
    ensures count > 0 ==> LastSavedIndex(start, count) == IndexOf(Saved(behavior, camera, start, count)[count - 1], behavior)
  {
    SavedIndices(behavior, camera, start, count);
  }

  /** Collecting five images into an empty folder saves the indices 0, 1, 2, 3 and 4 (for any behavior). */
  method CollectFiveIntoEmpty(behavior: string, camera: seq<FrameRead>) returns (files: seq<string>)
    requires |camera| >= 5 && forall k :: 0 <= k < 5 ==> camera[k].Grabbed?
    ensures |files| == 5
    ensures forall k :: 0 <= k < 5 ==> IndexOf(files[k], behavior) == Some(k)
  {
    var start, count, keysUsed, stop;
    files, start, count, keysUsed, stop := CollectData(behavior, Some([]), 5, true, camera, []);
    assert start == 0;
    assert [] + Saved(behavior, camera, 0, 5) == Saved(behavior, camera, 0, 5);
    SavedIndices(behavior, camera, 0, 5);
  }
}
