/** The capture/detect/alert loop (application_code.py, display_webcam): count frames,
    run the detector on every tenth one, keep the alert latch, and overlay the warning on
    every frame once the latch is set. */
module Webcam {
  import opened Wrappers
  import opened Detection
  import opened Overlay

  /** The detector runs on every PredictionInterval-th frame. */
  const PredictionInterval: nat := 10

  /** The cadence test: the detector runs on the frame whose 1-based number is n, that
      is, when n is a whole number of intervals. */
  predicate IsPredictionFrame(n: nat): (b: bool)
    ensures b <==> n == (n / PredictionInterval) * PredictionInterval
  {
    n % PredictionInterval == 0
  }

  /** The numbers of the frames among the first n on which the detector runs. */
  ghost function PredictionFrames(n: nat): set<nat>
  {
    set k | 1 <= k <= n && IsPredictionFrame(k)
  }

  /** Over n frames the detector runs n / PredictionInterval times. */
  lemma {:induction false} PredictionFramesCount(n: nat)
    ensures |PredictionFrames(n)| == n / PredictionInterval
  {
    if n > 0 {
      PredictionFramesCount(n - 1);
      if IsPredictionFrame(n) {
        assert PredictionFrames(n) == PredictionFrames(n - 1) + {n};
      } else {
        assert PredictionFrames(n) == PredictionFrames(n - 1);
      }
    } else {
      assert PredictionFrames(0) == {};
    }
  }

  /** Over 25 frames the detector runs on frames 10 and 20 only. */
  lemma CadenceOver25()
    ensures PredictionFrames(25) == {10, 20}
  {
    forall k | k in PredictionFrames(25) ensures k == 10 || k == 20 {
      assert 1 <= k <= 25 && k % 10 == 0;
    }
  }

  /** How a session ends. The source is not opened; it runs out of frames; the quit key
      is pressed; a class-name lookup raises (DetectorRaised, with the unknown class
      index); or resizing the alert image for a frame narrower or lower than 4 pixels
      raises (ResizeRaised). The last two propagate out of the loop. */
  datatype SessionEnd = NotOpened | SourceExhausted | QuitKey | DetectorRaised(cls: int) | ResizeRaised

  /** The latch after the first k frames: set once some prediction frame among them
      found "fire", and never cleared. */
  ghost predicate FireSeen(predictions: seq<Prediction>, names: map<int, string>, k: nat)
    requires k <= |predictions|
  {
    k > 0
    && (FireSeen(predictions, names, k - 1)
        || (IsPredictionFrame(k) && FireAmong(LookedUp(predictions[k - 1]), names)))
  }

  /** Frame j+1 is a prediction frame whose answer contains a "fire" box. */
  ghost predicate FireAt(predictions: seq<Prediction>, names: map<int, string>, j: nat)
  {
    j < |predictions| && IsPredictionFrame(j + 1) && FireAmong(LookedUp(predictions[j]), names)
  }

  /** The latch after k frames is set exactly when one of the first k frames is a
      prediction frame whose answer contains a "fire" box. */
  lemma {:induction false} FireSeenWitness(predictions: seq<Prediction>, names: map<int, string>, k: nat)
    requires k <= |predictions|
    ensures FireSeen(predictions, names, k) <==> exists j :: 0 <= j < k && FireAt(predictions, names, j)
  {
    if k > 0 {
      FireSeenWitness(predictions, names, k - 1);
      if FireSeen(predictions, names, k) {
        if FireSeen(predictions, names, k - 1) {
          var j :| 0 <= j < k - 1 && FireAt(predictions, names, j);
          assert 0 <= j < k;
        } else {
          assert FireAt(predictions, names, k - 1);
        }
      }
      if exists j :: 0 <= j < k && FireAt(predictions, names, j) {
        var j :| 0 <= j < k && FireAt(predictions, names, j);
        if j < k - 1 {
          assert FireSeen(predictions, names, k - 1);
        }
      }
    }
  }

  /** The latch never clears: once set after j frames it is set after every later frame. */
  lemma {:induction false} FireSeenMonotone(predictions: seq<Prediction>, names: map<int, string>, j: nat, k: nat)
    requires j <= k <= |predictions|
    requires FireSeen(predictions, names, j)
    ensures FireSeen(predictions, names, k)
    decreases k - j
  {
    if j < k {
      FireSeenMonotone(predictions, names, j, k - 1);
    }
  }

  /** A session whose only "fire" answer comes on frame 10 has the latch clear on frames
      1 to 9 and set from frame 10 on. */
  lemma FireOnFrameTen(predictions: seq<Prediction>, names: map<int, string>)
    requires 10 <= |predictions|
    requires FireAmong(LookedUp(predictions[9]), names)
    requires forall j :: 0 <= j < |predictions| && j != 9 ==> !FireAmong(LookedUp(predictions[j]), names)
    ensures forall k :: 0 <= k <= |predictions| ==> (FireSeen(predictions, names, k) <==> 10 <= k)
  {
    forall k | 0 <= k <= |predictions| ensures FireSeen(predictions, names, k) <==> 10 <= k {
      FireSeenWitness(predictions, names, k);
      if 10 <= k {
        assert FireAt(predictions, names, 9);
      }
    }
  }

  /** Every prediction frame among the first n had all its class indices named, so no
      lookup raised. */
  ghost predicate NamesKnown(predictions: seq<Prediction>, names: map<int, string>, n: nat)
    requires n <= |predictions|
  {
    forall k :: 0 <= k < n && IsPredictionFrame(k + 1) ==> AllKnown(LookedUp(predictions[k]), names)
  }

  /** `latched[k]` is the latch after frame k+1: set exactly when some prediction frame up
      to and including it found "fire". */
  ghost predicate LatchTrace(latched: seq<bool>, predictions: seq<Prediction>, names: map<int, string>)
  {
    |latched| <= |predictions|
    && forall k :: 0 <= k < |latched| ==> latched[k] == FireSeen(predictions, names, k + 1)
  }

  /** Frame `s` is what is shown for `frame` under latch `latch`: when the latch is set,
      the frame (at least 4 by 4, as anything smaller raises) with the alert image `img`
      in its corners; the frame itself otherwise. */
  ghost predicate ShownAs(s: Image, frame: Image, img: Image, latch: bool)
    reads s, frame, img
  {
    if latch then frame.Length0 >= 4 && frame.Length1 >= 4 && IsAlertOverlay(s, frame, img)
    else s == frame
  }

  /** The frames shown so far are their camera frames as the latch at each dictates: the
      last one is, and so, recursively, are the ones before it. */
  ghost predicate Rendered(shown: seq<Image>, frames: seq<Image>, resized: seq<Image>, latched: seq<bool>)
    reads shown, frames, resized
    decreases |shown|
  {
    |shown| <= |latched| && |shown| <= |frames| && |shown| <= |resized|
    && (shown != [] ==>
          var n := |shown| - 1;
          Rendered(shown[..n], frames, resized, latched) && ShownAs(shown[n], frames[n], resized[n], latched[n]))
  }

  /** Rendering depends only on the latch values of the frames shown. */
  lemma {:induction false} RenderedLatchPrefix(shown: seq<Image>, frames: seq<Image>, resized: seq<Image>,
                                               latched: seq<bool>, latched': seq<bool>)
    requires Rendered(shown, frames, resized, latched)
    requires |shown| <= |latched'| && forall k :: 0 <= k < |shown| ==> latched'[k] == latched[k]
    ensures Rendered(shown, frames, resized, latched')
    decreases |shown|
  {
    if shown != [] {
      RenderedLatchPrefix(shown[..|shown| - 1], frames, resized, latched, latched');
    }
  }

  /** Every frame shown is its camera frame under the latch of that frame: overlaid once
      the latch is set, untouched before. */
  lemma {:induction false} RenderedAt(shown: seq<Image>, frames: seq<Image>, resized: seq<Image>,
                                      latched: seq<bool>, k: nat)
    requires Rendered(shown, frames, resized, latched) && k < |shown|
    ensures ShownAs(shown[k], frames[k], resized[k], latched[k])
    decreases |shown|
  {
    if k < |shown| - 1 {
      RenderedAt(shown[..|shown| - 1], frames, resized, latched, k);
    }
  }

  /** One more prediction frame with all class indices named keeps NamesKnown. */
  lemma NamesKnownStep(predictions: seq<Prediction>, names: map<int, string>, n: nat)
    requires n < |predictions| && NamesKnown(predictions, names, n)
    requires IsPredictionFrame(n + 1) ==> AllKnown(LookedUp(predictions[n]), names)
    ensures NamesKnown(predictions, names, n + 1)
  {
  }

  /** Recording the latch after one more frame keeps the trace exact. */
  lemma LatchTraceSnoc(latched: seq<bool>, predictions: seq<Prediction>, names: map<int, string>, latch: bool)
    requires LatchTrace(latched, predictions, names) && |latched| < |predictions|
    requires latch == FireSeen(predictions, names, |latched| + 1)
    ensures LatchTrace(latched + [latch], predictions, names)
  {
    var latched' := latched + [latch];
    forall k | 0 <= k < |latched'| ensures latched'[k] == FireSeen(predictions, names, k + 1) {
      if k < |latched| {
        assert latched'[k] == latched[k];
      }
    }
  }

  /** Recording one more latch value leaves the shown frames rendered. */
  lemma RenderedLatchSnoc(shown: seq<Image>, frames: seq<Image>, resized: seq<Image>,
                          latched: seq<bool>, latch: bool)
    requires Rendered(shown, frames, resized, latched)
    ensures Rendered(shown, frames, resized, latched + [latch])
  {
    RenderedLatchPrefix(shown, frames, resized, latched, latched + [latch]);
  }

  /** Extending the record of shown frames by one more, correctly rendered, frame. */
  lemma RenderedSnoc(shown: seq<Image>, frames: seq<Image>, resized: seq<Image>,
                     latched: seq<bool>, latch: bool, s: Image)
    requires Rendered(shown, frames, resized, latched)
    requires |shown| == |latched| && |shown| < |frames| && |shown| < |resized|
    requires ShownAs(s, frames[|shown|], resized[|shown|], latch)
    ensures Rendered(shown + [s], frames, resized, latched + [latch])
  {
    RenderedLatchSnoc(shown, frames, resized, latched, latch);
    assert (shown + [s])[..|shown|] == shown;
  }

  /** Counting one more frame adds one detector run exactly when it is a prediction frame. */
  lemma CadenceStep(n: nat)
    ensures (n + 1) / PredictionInterval == n / PredictionInterval + (if IsPredictionFrame(n + 1) then 1 else 0)
  {
  }

  /** The detection step of the loop for the frame numbered n (from 1): on a prediction
      frame, detect_fire_and_alert on the detector's answer for it; on any other frame the
      latch stays as it was. Entered with the latch of the first n-1 frames, it leaves the
      latch of the first n frames, or raises on an unnamed class index. */
  method DetectionStep(predictions: seq<Prediction>, names: map<int, string>, n: nat, alertPlayed: bool)
    returns (outcome: Outcome, ghost called: nat, ghost started: nat)
    requires 1 <= n <= |predictions|
    requires alertPlayed == FireSeen(predictions, names, n - 1)
    ensures outcome.UnknownClass? <==> IsPredictionFrame(n) && !AllKnown(LookedUp(predictions[n - 1]), names)
    ensures outcome.UnknownClass? ==> RaisesOn(LookedUp(predictions[n - 1]), names, outcome.cls)
    ensures outcome.Returned? ==> outcome.alertPlayed == FireSeen(predictions, names, n)
    ensures started <= 1 && (started == 1 ==> !alertPlayed)
    ensures outcome.Returned? ==> (started == 1 <==> !alertPlayed && outcome.alertPlayed)
    ensures called == (if IsPredictionFrame(n) then 1 else 0)
  {
    if IsPredictionFrame(n) {
      outcome, started := DetectFireAndAlert(predictions[n - 1], names, alertPlayed);
      called := 1;
    } else {
      outcome, called, started := Returned(alertPlayed), 0, 0;
    }
  }

  /** The rendering step of the loop: once the latch is set the frame passes through
      flash_alert_image, which raises (in the resize) when the frame is narrower or lower
      than 4 pixels; before that the frame is shown as it is. */
  method RenderFrame(frame: Image, alertImage: Image, alertPlayed: bool) returns (s: Image, raised: bool)
    requires alertImage.Length0 == frame.Length0 / 4 && alertImage.Length1 == frame.Length1 / 4
    ensures raised <==> alertPlayed && (frame.Length0 < 4 || frame.Length1 < 4)
    ensures !raised ==> ShownAs(s, frame, alertImage, alertPlayed)
  {
    s, raised := frame, false;
    if alertPlayed {
      if frame.Length0 < 4 || frame.Length1 < 4 {
        raised := true;
        return;
      }
      s := FlashAlertImage(frame, alertImage);
    }
  }

  /** What the outside world supplies to one session of display_webcam: `frames[k]` is
      the (k+1)-th frame read, and reading past the last one fails; `quitKeys[k]` is
      whether the quit key is seen after showing it; `predictions[k]` is what the detector
      answers if it runs on it; `names` is the detector's class-name table; `resized[k]`
      is the alert image resized to a quarter of frame k's size. */
  datatype Inputs = Inputs(frames: seq<Image>, quitKeys: seq<bool>, predictions: seq<Prediction>,
                           names: map<int, string>, resized: seq<Image>)
  {
    /** One entry per frame in each per-frame sequence, and each resized alert image a
        quarter of its frame's height and width. */
    ghost predicate Valid()
    {
      |quitKeys| == |frames| && |predictions| == |frames| && |resized| == |frames|
      && forall k :: 0 <= k < |frames| ==>
           resized[k].Length0 == frames[k].Length0 / 4 && resized[k].Length1 == frames[k].Length1 / 4
    }
  }

  /** The state after the first n frames were read, run through detection and shown,
      with the session still going: no quit key yet, n / PredictionInterval detector
      runs, every lookup named, the latch (and `latched`, its value after each frame)
      set exactly when fire was seen, one alert thread started exactly when the latch is
      set, and every frame shown as its latch dictates. */
  ghost predicate Running(world: Inputs, n: nat, shown: seq<Image>, alertPlayed: bool,
                          latched: seq<bool>, detectorCalls: nat, alertsStarted: nat)
  {
    world.Valid()
    && n <= |world.frames| && |latched| == n && |shown| == n
    && (forall k :: 0 <= k < n ==> !world.quitKeys[k])
    && detectorCalls == n / PredictionInterval
    && NamesKnown(world.predictions, world.names, n)
    && LatchTrace(latched, world.predictions, world.names)
    && alertPlayed == FireSeen(world.predictions, world.names, n)
    && alertsStarted == (if alertPlayed then 1 else 0)
  }

  /** What holds when a session has ended with `end` after reading frameCount frames. */
  ghost predicate Ended(world: Inputs, end: SessionEnd, frameCount: nat, shown: seq<Image>, alertPlayed: bool,
                        latched: seq<bool>, detectorCalls: nat, alertsStarted: nat)
  {
    world.Valid()
    // how the session ends
    && frameCount <= |world.frames|
    && (end == NotOpened ==> frameCount == 0 && shown == [])
    && (end == SourceExhausted ==> frameCount == |world.frames|)
    && (end == QuitKey ==> 0 < frameCount && world.quitKeys[frameCount - 1])
    && (forall k :: 0 <= k < frameCount - 1 ==> !world.quitKeys[k])
    && (end == SourceExhausted ==> forall k :: 0 <= k < frameCount ==> !world.quitKeys[k])
    && |latched| == (if end.DetectorRaised? then frameCount - 1 else frameCount)
    && |shown| == (if end.DetectorRaised? || end == ResizeRaised then frameCount - 1 else frameCount)
    && (end.DetectorRaised? ==>
          0 < frameCount && IsPredictionFrame(frameCount)
          && RaisesOn(LookedUp(world.predictions[frameCount - 1]), world.names, end.cls))
    && (end == ResizeRaised ==>
          0 < frameCount && latched[frameCount - 1]
          && (world.frames[frameCount - 1].Length0 < 4 || world.frames[frameCount - 1].Length1 < 4))
    // cadence: the detector runs on every tenth frame and on no other
    && detectorCalls == frameCount / PredictionInterval
    && NamesKnown(world.predictions, world.names, |latched|)
    // the latch after frame k is set exactly when some prediction frame up to k found fire
    && LatchTrace(latched, world.predictions, world.names)
    && alertPlayed == (|latched| > 0 && latched[|latched| - 1])
    // at most one alert per session, and one exactly when the latch got set
    && alertsStarted <= 1
    && (alertPlayed ==> alertsStarted == 1)
    && (!end.DetectorRaised? ==> (alertsStarted == 1 <==> alertPlayed))
  }

  /** The detection step for frame n+1, entered with latch `alertPlayed`, returned latch
      `latch` and started `started` alert threads: the latch is the one after n+1 frames,
      no lookup raised, and a thread started exactly when the latch got set. */
  ghost predicate Detected(world: Inputs, n: nat, alertPlayed: bool, latch: bool, started: nat)
  {
    n < |world.predictions|
    && latch == FireSeen(world.predictions, world.names, n + 1)
    && (IsPredictionFrame(n + 1) ==> AllKnown(LookedUp(world.predictions[n]), world.names))
    && started <= 1 && (started == 1 <==> !alertPlayed && latch)
  }

  /** Reading fails after the last frame: the session ends with the source exhausted. */
  lemma ExhaustedEnds(world: Inputs, n: nat, shown: seq<Image>, alertPlayed: bool,
                      latched: seq<bool>, detectorCalls: nat, alertsStarted: nat)
    requires Running(world, n, shown, alertPlayed, latched, detectorCalls, alertsStarted)
    requires n == |world.frames|
    ensures Ended(world, SourceExhausted, n, shown, alertPlayed, latched, detectorCalls, alertsStarted)
  {
  }

  /** A lookup raising on frame n+1 ends the session with that frame counted but neither
      latched nor shown. */
  lemma DetectorRaisedEnds(world: Inputs, n: nat, shown: seq<Image>, alertPlayed: bool,
                           latched: seq<bool>, detectorCalls: nat, alertsStarted: nat, cls: int, started: nat)
    requires Running(world, n, shown, alertPlayed, latched, detectorCalls, alertsStarted)
    requires n < |world.frames| && IsPredictionFrame(n + 1)
    requires RaisesOn(LookedUp(world.predictions[n]), world.names, cls)
    requires started <= 1 && (started == 1 ==> !alertPlayed)
    ensures Ended(world, DetectorRaised(cls), n + 1, shown, alertPlayed, latched,
                  detectorCalls + (if IsPredictionFrame(n + 1) then 1 else 0), alertsStarted + started)
  {
    CadenceStep(n);
  }

  /** The resize raising on frame n+1 ends the session with that frame latched but not
      shown. */
  lemma ResizeRaisedEnds(world: Inputs, n: nat, shown: seq<Image>, alertPlayed: bool,
                         latched: seq<bool>, detectorCalls: nat, alertsStarted: nat, latch: bool, started: nat)
    requires Running(world, n, shown, alertPlayed, latched, detectorCalls, alertsStarted)
    requires n < |world.frames| && Detected(world, n, alertPlayed, latch, started)
    requires latch && (world.frames[n].Length0 < 4 || world.frames[n].Length1 < 4)
    ensures Ended(world, ResizeRaised, n + 1, shown, latch, latched + [latch],
                  detectorCalls + (if IsPredictionFrame(n + 1) then 1 else 0), alertsStarted + started)
  {
    CadenceStep(n);
    NamesKnownStep(world.predictions, world.names, n);
    LatchTraceSnoc(latched, world.predictions, world.names, latch);
  }

  /** Frame n+1 detected and shown as `s`: the session is running after n+1 frames, or
      ends there when the quit key is seen. (That `s` is rendered right is kept by
      RenderedSnoc.) */
  lemma FrameShown(world: Inputs, n: nat, shown: seq<Image>, alertPlayed: bool,
                   latched: seq<bool>, detectorCalls: nat, alertsStarted: nat, latch: bool, started: nat, s: Image)
    requires Running(world, n, shown, alertPlayed, latched, detectorCalls, alertsStarted)
    requires n < |world.frames| && Detected(world, n, alertPlayed, latch, started)
    ensures !world.quitKeys[n] ==>
      Running(world, n + 1, shown + [s], latch, latched + [latch],
              detectorCalls + (if IsPredictionFrame(n + 1) then 1 else 0), alertsStarted + started)
    ensures world.quitKeys[n] ==>
      Ended(world, QuitKey, n + 1, shown + [s], latch, latched + [latch],
            detectorCalls + (if IsPredictionFrame(n + 1) then 1 else 0), alertsStarted + started)
  {
    CadenceStep(n);
    NamesKnownStep(world.predictions, world.names, n);
    LatchTraceSnoc(latched, world.predictions, world.names, latch);
  }

  /** The second half of one pass of display_webcam's loop, for frame n+1 after its
      detection step set the latch to `latch`: once the latch is set the frame goes
      through flash_alert_image (which raises on a frame under 4 pixels high or wide),
      then it is shown and the quit key is polled. */
  method ShowStep(world: Inputs, n: nat, shown: seq<Image>, alertPlayed: bool, ghost latched: seq<bool>,
                  ghost detectorCalls: nat, ghost alertsStarted: nat, latch: bool, ghost started: nat)
    returns (stop: Option<SessionEnd>, shown': seq<Image>)
    requires Running(world, n, shown, alertPlayed, latched, detectorCalls, alertsStarted)
    requires n < |world.frames| && Detected(world, n, alertPlayed, latch, started)
    requires Rendered(shown, world.frames, world.resized, latched)
    ensures Rendered(shown', world.frames, world.resized, latched + [latch])
    ensures stop.None? ==>
      Running(world, n + 1, shown', latch, latched + [latch],
              detectorCalls + (if IsPredictionFrame(n + 1) then 1 else 0), alertsStarted + started)
    ensures stop.Some? ==>
      stop.value != NotOpened
      && Ended(world, stop.value, n + 1, shown', latch, latched + [latch],
               detectorCalls + (if IsPredictionFrame(n + 1) then 1 else 0), alertsStarted + started)
  {
    stop, shown' := None, shown;
    var frame, raised := RenderFrame(world.frames[n], world.resized[n], latch);
    if raised {
      RenderedLatchSnoc(shown, world.frames, world.resized, latched, latch);
      ResizeRaisedEnds(world, n, shown, alertPlayed, latched, detectorCalls, alertsStarted, latch, started);
      stop := Some(ResizeRaised);
      return;
    }
    RenderedSnoc(shown, world.frames, world.resized, latched, latch, frame);
    FrameShown(world, n, shown, alertPlayed, latched, detectorCalls, alertsStarted, latch, started, frame);
    shown' := shown + [frame];
    if world.quitKeys[n] {
      stop := Some(QuitKey);
    }
  }

  /** One pass of display_webcam's loop from a running state after frameCount frames,
      when a next frame can be read: count it, run detection on a prediction frame, then
      show it (ShowStep). Returns the state after it, and `stop` when the session ends
      there. */
  method Step(world: Inputs, frameCount: nat, shown: seq<Image>, alertPlayed: bool,
              ghost latched: seq<bool>, ghost detectorCalls: nat, ghost alertsStarted: nat)
    returns (stop: Option<SessionEnd>, frameCount': nat, shown': seq<Image>, alertPlayed': bool,
             ghost latched': seq<bool>, ghost detectorCalls': nat, ghost alertsStarted': nat)
    requires Running(world, frameCount, shown, alertPlayed, latched, detectorCalls, alertsStarted)
    requires Rendered(shown, world.frames, world.resized, latched)
    requires frameCount < |world.frames|
    ensures frameCount' == frameCount + 1
    ensures Rendered(shown', world.frames, world.resized, latched')
    ensures stop.None? ==>
      Running(world, frameCount', shown', alertPlayed', latched', detectorCalls', alertsStarted')
    ensures stop.Some? ==>
      stop.value != NotOpened
      && Ended(world, stop.value, frameCount', shown', alertPlayed', latched', detectorCalls', alertsStarted')
  {
    stop, shown', alertPlayed', latched' := None, shown, alertPlayed, latched;
    frameCount' := frameCount + 1;
    var outcome;
    ghost var called, started;
    outcome, called, started := DetectionStep(world.predictions, world.names, frameCount', alertPlayed);
    detectorCalls' := detectorCalls + called;
    alertsStarted' := alertsStarted + started;
    if outcome.UnknownClass? {
      DetectorRaisedEnds(world, frameCount, shown, alertPlayed, latched, detectorCalls, alertsStarted,
                         outcome.cls, started);
      stop := Some(DetectorRaised(outcome.cls));
      return;
    }
    alertPlayed' := outcome.alertPlayed;
    latched' := latched + [alertPlayed'];
    stop, shown' := ShowStep(world, frameCount, shown, alertPlayed, latched, detectorCalls, alertsStarted,
                             alertPlayed', started);
  }

  /** display_webcam over a finite run of the camera: `isOpened` is whether the capture
      device opened and `world` the rest of what the world supplies. Returns how the session
      ended, the frames shown, the frame counter and the latch; the ghost `latched` is
      the latch after each frame's detection step, `detectorCalls` counts detector runs
      and `alertsStarted` counts alert threads started. */
  method DisplayWebcam(isOpened: bool, world: Inputs)
    returns (end: SessionEnd, shown: seq<Image>, frameCount: nat, alertPlayed: bool,
             ghost latched: seq<bool>, ghost detectorCalls: nat, ghost alertsStarted: nat)
    requires world.Valid()
    ensures end == NotOpened <==> !isOpened
    ensures Ended(world, end, frameCount, shown, alertPlayed, latched, detectorCalls, alertsStarted)
    // the frame shown: the overlaid copy once the latch is set, the frame itself before
    ensures Rendered(shown, world.frames, world.resized, latched)
  {
    end, shown, frameCount, alertPlayed := NotOpened, [], 0, false;
    latched, detectorCalls, alertsStarted := [], 0, 0;
    if !isOpened {
      return;
    }
    var stop: Option<SessionEnd> := None;
    while stop.None?
      invariant stop.None? ==>
        Running(world, frameCount, shown, alertPlayed, latched, detectorCalls, alertsStarted)
      invariant stop.Some? ==>
        stop.value != NotOpened
        && Ended(world, stop.value, frameCount, shown, alertPlayed, latched, detectorCalls, alertsStarted)
      invariant Rendered(shown, world.frames, world.resized, latched)
      decreases |world.frames| - frameCount, if stop.None? then 1 else 0
    {
      if frameCount == |world.frames| {
        // cap.read() fails
        ExhaustedEnds(world, frameCount, shown, alertPlayed, latched, detectorCalls, alertsStarted);
        stop := Some(SourceExhausted);
      } else {
        stop, frameCount, shown, alertPlayed, latched, detectorCalls, alertsStarted :=
          Step(world, frameCount, shown, alertPlayed, latched, detectorCalls, alertsStarted);
      }
    }
    end := stop.value;
  }

  /** In an ended session, frame k+1 is shown overlaid exactly when fire was seen by then,
      and shown as read otherwise. */
  lemma ShownFrame(world: Inputs, end: SessionEnd, frameCount: nat, shown: seq<Image>, alertPlayed: bool,
                   latched: seq<bool>, detectorCalls: nat, alertsStarted: nat, k: nat)
    requires Ended(world, end, frameCount, shown, alertPlayed, latched, detectorCalls, alertsStarted)
    requires Rendered(shown, world.frames, world.resized, latched) && k < |shown|
    ensures FireSeen(world.predictions, world.names, k + 1) ==>
      world.frames[k].Length0 >= 4 && world.frames[k].Length1 >= 4
      && IsAlertOverlay(shown[k], world.frames[k], world.resized[k])
    ensures !FireSeen(world.predictions, world.names, k + 1) ==> shown[k] == world.frames[k]
  {
    RenderedAt(shown, world.frames, world.resized, latched, k);
  }

  /** Once a shown frame carries the warning, every frame shown after it does too. */
  lemma OverlayPersists(world: Inputs, end: SessionEnd, frameCount: nat, shown: seq<Image>, alertPlayed: bool,
                        latched: seq<bool>, detectorCalls: nat, alertsStarted: nat, j: nat, k: nat)
    requires Ended(world, end, frameCount, shown, alertPlayed, latched, detectorCalls, alertsStarted)
    requires Rendered(shown, world.frames, world.resized, latched)
    requires j <= k < |shown| && latched[j]
    ensures world.frames[k].Length0 >= 4 && world.frames[k].Length1 >= 4
    ensures IsAlertOverlay(shown[k], world.frames[k], world.resized[k])
  {
    FireSeenMonotone(world.predictions, world.names, j + 1, k + 1);
    ShownFrame(world, end, frameCount, shown, alertPlayed, latched, detectorCalls, alertsStarted, k);
  }

  /** In an ended session the detector ran once on each frame whose number passes the
      cadence test, and on no other. */
  lemma DetectorRunFrames(world: Inputs, end: SessionEnd, frameCount: nat, shown: seq<Image>, alertPlayed: bool,
                          latched: seq<bool>, detectorCalls: nat, alertsStarted: nat)
    requires Ended(world, end, frameCount, shown, alertPlayed, latched, detectorCalls, alertsStarted)
    ensures detectorCalls == |PredictionFrames(frameCount)|
  {
    PredictionFramesCount(frameCount);
  }
}
