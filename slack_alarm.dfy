/**
 * The slacking alarm of test_trained_model.py: a counter of consecutive
 * slacking frames, and an alarm that goes off when the counter reaches 20
 * and stays on for 3 seconds. The key 'r' resets both. The clock is an
 * integer number of seconds supplied with each frame.
 */
module SlackAlarm {
  import opened Keyboard
  import opened Detection

  /** Consecutive slacking frames that set the alarm off. */
  const Threshold: nat := 20

  /** How long the alarm stays on, in seconds. */
  const AlarmSeconds: int := 3

  /** `slacking_count`, `alarm_active` and `alarm_end_time`. */
  datatype AlarmState = AlarmState(count: nat, active: bool, endTime: int)

  /** The state before the first frame. */
  const Initial: AlarmState := AlarmState(0, false, 0)

  /**
   * The update made for one frame, given whether it was slacking, the clock
   * reading `now` and the key polled after it: count, maybe set the alarm off,
   * maybe let it expire, then 'r' resets.
   */
  function Next(s: AlarmState, slacking: bool, now: int, key: int): (r: AlarmState)
    // 'r' clears the alarm and the counter, whatever the state
    ensures KeyCode(key) == KeyReset ==> !r.active && r.count == 0
    // otherwise a slacking frame adds exactly one and any other frame restarts the count
    ensures KeyCode(key) != KeyReset ==> r.count == if slacking then s.count + 1 else 0
    // an inactive alarm goes off exactly when the count reaches the threshold, and is not cleared in the same frame
    ensures !s.active && KeyCode(key) != KeyReset ==> (r.active <==> r.count >= Threshold)
    ensures !s.active ==> r.endTime == if slacking && s.count + 1 >= Threshold then now + AlarmSeconds else s.endTime
    // an active alarm keeps its end time, and stays on until the clock passes it
    ensures s.active ==> r.endTime == s.endTime
    ensures s.active ==> (r.active <==> now <= s.endTime && KeyCode(key) != KeyReset)
  {
    var count := if slacking then s.count + 1 else 0;
    var fires := count >= Threshold && !s.active;
    var active := s.active || fires;
    var endTime := if fires then now + AlarmSeconds else s.endTime;
    var stillOn := active && !(now > endTime);
    if KeyCode(key) == KeyReset then AlarmState(0, false, endTime)
    else AlarmState(count, stillOn, endTime)
  }

  /** One frame as the alarm sees it: its verdict, the clock reading and the key polled. */
  datatype Tick = Tick(slacking: bool, now: int, key: int)

  /** The state after a sequence of frames. */
  function Run(s: AlarmState, ticks: seq<Tick>): AlarmState
  {
    if ticks == [] then s
    else
      var t := ticks[|ticks| - 1];
      Next(Run(s, ticks[..|ticks| - 1]), t.slacking, t.now, t.key)
  }

  /** Running two sequences one after the other is running their concatenation. */
  lemma {:induction false} RunAppend(s: AlarmState, a: seq<Tick>, b: seq<Tick>)
    ensures Run(s, a + b) == Run(Run(s, a), b)
  {
    if b == [] {
      assert a + b == a;
    } else {
      assert (a + b)[..|a + b| - 1] == a + b[..|b| - 1];
      RunAppend(s, a, b[..|b| - 1]);
    }
  }

  /** A frame that restarts the count: not slacking, or followed by 'r'. */
  predicate Breaks(t: Tick)
  {
    !t.slacking || KeyCode(t.key) == KeyReset
  }

  /** With no frame restarting it, the counter grows by one per frame. */
  lemma {:induction false} CountWithoutBreak(s: AlarmState, ticks: seq<Tick>)
    requires forall i :: 0 <= i < |ticks| ==> !Breaks(ticks[i])
    ensures Run(s, ticks).count == s.count + |ticks|
  {
    if ticks != [] {
      var prefix := ticks[..|ticks| - 1];
      assert forall i :: 0 <= i < |prefix| ==> prefix[i] == ticks[i];
      CountWithoutBreak(s, prefix);
    }
  }

  /**
   * The counter is the length of the current run of slacking frames: the
   * number of frames after the last one that restarted it.
   */
  lemma {:induction false} CountIsTrailingRun(s: AlarmState, ticks: seq<Tick>, j: nat)
    requires j < |ticks| && Breaks(ticks[j])
    requires forall i :: j < i < |ticks| ==> !Breaks(ticks[i])
    ensures Run(s, ticks).count == |ticks| - 1 - j
  {
    var prefix := ticks[..|ticks| - 1];
    if j < |ticks| - 1 {
      assert forall i :: j < i < |prefix| ==> prefix[i] == ticks[i];
      CountIsTrailingRun(s, prefix, j);
      assert !Breaks(ticks[|ticks| - 1]);
    }
  }

  /** `k` slacking frames one second apart from `start`, with no key pressed. */
  function Slacking(k: nat, start: int): (ticks: seq<Tick>)
    ensures |ticks| == k
  {
    seq(k, i requires 0 <= i < k => Tick(true, start + i, NoKey))
  }

  /** Below the threshold, slacking frames only count: the alarm stays off and its end time is unchanged. */
  lemma {:induction false} SlackingBelowThreshold(s: AlarmState, k: nat, start: int)
    requires !s.active && s.count + k < Threshold
    ensures Run(s, Slacking(k, start)) == AlarmState(s.count + k, false, s.endTime)
  {
    if k > 0 {
      assert Slacking(k, start)[..k - 1] == Slacking(k - 1, start);
      SlackingBelowThreshold(s, k - 1, start);
    }
  }

  /**
   * 19 slacking frames, one working frame, then 20 slacking frames: the alarm
   * is off after every frame but the last, and goes off at the last, for 3
   * seconds from its clock reading.
   */
  lemma FiresOnlyAtFortiethFrame()
    ensures var ticks := Slacking(19, 0) + [Tick(false, 19, NoKey)] + Slacking(20, 20);
            && (forall n :: 0 <= n < |ticks| ==> !Run(Initial, ticks[..n]).active)
            && Run(Initial, ticks) == AlarmState(20, true, 42)
  {
    var first, working, second := Slacking(19, 0), [Tick(false, 19, NoKey)], Slacking(20, 20);
    var ticks := first + working + second;
    SlackingBelowThreshold(Initial, 19, 0);
    var afterFirst := Run(Initial, first);
    var afterWorking := Run(afterFirst, working);
    assert working[..0] == [];
    assert Run(afterFirst, working) == Next(afterFirst, false, 19, NoKey);
    assert afterWorking == AlarmState(0, false, 0);
    RunAppend(Initial, first, working);
    forall n | 0 <= n < |ticks|
      ensures !Run(Initial, ticks[..n]).active
    {
      if n <= 19 {
        assert ticks[..n] == Slacking(n, 0);
        SlackingBelowThreshold(Initial, n, 0);
      } else {
        assert ticks[..n] == (first + working) + Slacking(n - 20, 20);
        RunAppend(Initial, first + working, Slacking(n - 20, 20));
        SlackingBelowThreshold(afterWorking, n - 20, 20);
      }
    }
    assert ticks == (first + working) + (Slacking(19, 20) + [Tick(true, 39, NoKey)]);
    RunAppend(Initial, first + working, Slacking(19, 20) + [Tick(true, 39, NoKey)]);
    RunAppend(afterWorking, Slacking(19, 20), [Tick(true, 39, NoKey)]);
    SlackingBelowThreshold(afterWorking, 19, 20);
  }

  /** Once on, the alarm stays on with the same end time through every frame up to its end time, unless 'r' is pressed. */
  lemma {:induction false} AlarmHoldsUntilEnd(s: AlarmState, ticks: seq<Tick>)
    requires s.active
    requires forall i :: 0 <= i < |ticks| ==> ticks[i].now <= s.endTime && KeyCode(ticks[i].key) != KeyReset
    ensures Run(s, ticks).active && Run(s, ticks).endTime == s.endTime
  {
    if ticks != [] {
      AlarmHoldsUntilEnd(s, ticks[..|ticks| - 1]);
    }
  }

  /**
   * Expiry does not touch the counter: with the count at the threshold, a
   * slacking frame after the end time turns the alarm off, and the next
   * slacking frame sets it off again.
   */
  lemma ExpiredAlarmFiresAgain(s: AlarmState, t1: Tick, t2: Tick)
    requires s.active && s.count + 1 >= Threshold
    requires t1.slacking && t1.now > s.endTime && KeyCode(t1.key) != KeyReset
    requires t2.slacking && KeyCode(t2.key) != KeyReset
    ensures !Run(s, [t1]).active && Run(s, [t1]).count == s.count + 1
    ensures Run(s, [t1, t2]) == AlarmState(s.count + 2, true, t2.now + AlarmSeconds)
  {
  }

  /** The camera loop's view of one frame: the detector's results, the clock reading and the key polled. */
  datatype Frame = Frame(results: seq<seq<Box>>, now: int, key: int)

  predicate AllKnown(frames: seq<Frame>)
  {
    forall i :: 0 <= i < |frames| ==> KnownClasses(frames[i].results)
  }

  /** The frames as the alarm sees them. */
  function Ticks(frames: seq<Frame>): (ticks: seq<Tick>)
    requires AllKnown(frames)
    ensures |ticks| == |frames|
  {
    seq(|frames|, i requires 0 <= i < |frames| && AllKnown(frames) =>
      Tick(FrameVerdict(frames[i].results).slacking, frames[i].now, frames[i].key))
  }

  /** The slacking detector's variables, updated once per frame by the camera loop. */
  class Detector {
    var slackingCount: nat
    var alarmActive: bool
    var alarmEndTime: int

    function State(): AlarmState
      reads this
    {
      AlarmState(slackingCount, alarmActive, alarmEndTime)
    }

    constructor()
      ensures State() == Initial
    {
      slackingCount := 0;
      alarmActive := false;
      alarmEndTime := 0;
    }

    /**
     * One pass of the camera loop after the frame was read and detected:
     * select each result's top box, update the counter and the alarm, and
     * act on the key. Returns the status text and whether 'q' ends the loop.
     */
    method Step(results: seq<seq<Box>>, now: int, key: int) returns (status: string, quit: bool)
      requires KnownClasses(results)
      modifies this
      ensures State() == Next(old(State()), FrameVerdict(results).slacking, now, key)
      ensures status == FrameVerdict(results).status
      ensures quit <==> KeyCode(key) == KeyQuit
    {
      var isSlacking := false;
      status := NoDetection;
      for i := 0 to |results|
        invariant Verdict(isSlacking, status) == FrameVerdict(results[..i])
      {
        assert results[..i + 1][..i] == results[..i];
        var boxes := results[i];
        if |boxes| == 0 {
          continue;
        }
        var cls := boxes[Top(boxes)].cls;
        status := ClassNames[cls];
        isSlacking := cls == SlackingClass;
      }
      assert results[..|results|] == results;

      if isSlacking {
        slackingCount := slackingCount + 1;
      } else {
        slackingCount := 0;
      }
      if slackingCount >= Threshold && !alarmActive {
        alarmActive := true;
        alarmEndTime := now + AlarmSeconds;
      }
      if alarmActive && now > alarmEndTime {
        alarmActive := false;
      }

      var code := KeyCode(key);
      quit := code == KeyQuit;
      if !quit && code == KeyReset {
        alarmActive := false;
        slackingCount := 0;
      }
    }

    /**
     * The camera loop over the frames it reads; the end of `frames` is the
     * first failed read. Returns how many frames were handled: all of them, or
     * up to and including the first one followed by 'q'.
     */
    method Monitor(frames: seq<Frame>) returns (handled: nat)
      requires AllKnown(frames)
      modifies this
      ensures handled <= |frames|
      ensures State() == Run(old(State()), Ticks(frames[..handled]))
      ensures forall i :: 0 <= i < handled - 1 ==> KeyCode(frames[i].key) != KeyQuit
      ensures handled < |frames| ==> handled > 0 && KeyCode(frames[handled - 1].key) == KeyQuit
    {
      handled := 0;
      while handled < |frames|
        invariant handled <= |frames|
        invariant State() == Run(old(State()), Ticks(frames[..handled]))
        invariant forall i :: 0 <= i < handled ==> KeyCode(frames[i].key) != KeyQuit
      {
        var frame := frames[handled];
        var status, quit := Step(frame.results, frame.now, frame.key);
        assert Ticks(frames[..handled + 1])[..handled] == Ticks(frames[..handled]);
        handled := handled + 1;
        if quit {
          return;
        }
      }
    }
  }
}
