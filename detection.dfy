/** One inference cycle: read the detector's answer, look up the class name of every box,
    and start the alert the first time a box is classified "fire"
    (application_code.py, predict_fire and detect_fire_and_alert). */
module Detection {
  import opened Wrappers

  /** The class name that raises the alert. */
  const FireLabel: string := "fire"

  /** One detected box; the alert logic reads only its class index (already truncated to
      an integer, as `int(box.cls)` does). */
  datatype Box = Box(cls: int)

  /** One result of the detector: its boxes, or None when the result carries no boxes. */
  datatype DetectionResult = DetectionResult(boxes: Option<seq<Box>>)

  /** What predict_fire hands back: None when the detector raised, else its list of
      results (possibly empty). */
  type Prediction = Option<seq<DetectionResult>>

  /** How detect_fire_and_alert ends: it returns the new latch, or the lookup of a class
      index missing from the detector's `names` table raises a KeyError. */
  datatype Outcome = Returned(alertPlayed: bool) | UnknownClass(cls: int)

  /** The class indices of a run of boxes, in order. */
  function Classes(bs: seq<Box>): (cs: seq<int>)
    ensures |cs| == |bs| && forall k :: 0 <= k < |bs| ==> cs[k] == bs[k].cls
  {
    seq(|bs|, k requires 0 <= k < |bs| => bs[k].cls)
  }

  /** The class indices of one result's boxes; none when it has no boxes. */
  function BoxClasses(r: DetectionResult): seq<int>
  {
    match r.boxes
    case None => []
    case Some(bs) => Classes(bs)
  }

  /** The class indices looked up, in the order the nested loops visit them. */
  function Looked(results: seq<DetectionResult>): seq<int>
  {
    if results == [] then []
    else BoxClasses(results[0]) + Looked(results[1..])
  }

  /** The class indices a detection call looks up for the detector's answer `p`:
      none when the detector failed or found nothing. */
  function LookedUp(p: Prediction): (cs: seq<int>)
    ensures p.None? ==> cs == []
    ensures p == Some([]) ==> cs == []
  {
    match p
    case None => []
    case Some(results) => Looked(results)
  }

  /** Every looked-up class index has a name, so no lookup raises. */
  ghost predicate AllKnown(cs: seq<int>, names: map<int, string>)
  {
    forall k :: 0 <= k < |cs| ==> cs[k] in names
  }

  /** Some looked-up class index is named "fire". */
  ghost predicate FireAmong(cs: seq<int>, names: map<int, string>)
  {
    exists k :: 0 <= k < |cs| && cs[k] in names && names[cs[k]] == FireLabel
  }

  /** `m` is the position of the first class index that has no name. */
  ghost predicate FirstUnknownAt(cs: seq<int>, names: map<int, string>, m: int)
  {
    0 <= m < |cs| && cs[m] !in names && AllKnown(cs[..m], names)
  }

  /** Looking up `cs` raises on class index `cls`: it is the first one without a name. */
  ghost predicate RaisesOn(cs: seq<int>, names: map<int, string>, cls: int)
  {
    exists m :: FirstUnknownAt(cs, names, m) && cls == cs[m]
  }

  /** Two runs of lookups find "fire" exactly when one of them does. */
  lemma FireAmongAppend(a: seq<int>, b: seq<int>, names: map<int, string>)
    ensures FireAmong(a + b, names) <==> FireAmong(a, names) || FireAmong(b, names)
  {
    var ab := a + b;
    if FireAmong(a, names) {
      var k :| 0 <= k < |a| && a[k] in names && names[a[k]] == FireLabel;
      assert ab[k] == a[k];
    }
    if FireAmong(b, names) {
      var k :| 0 <= k < |b| && b[k] in names && names[b[k]] == FireLabel;
      assert ab[|a| + k] == b[k];
    }
    if FireAmong(ab, names) {
      var k :| 0 <= k < |ab| && ab[k] in names && names[ab[k]] == FireLabel;
      if k < |a| {
        assert a[k] == ab[k];
      } else {
        assert b[k - |a|] == ab[k];
      }
    }
  }

  /** Two runs of lookups are all named exactly when each of them is. */
  lemma AllKnownAppend(a: seq<int>, b: seq<int>, names: map<int, string>)
    ensures AllKnown(a + b, names) <==> AllKnown(a, names) && AllKnown(b, names)
  {
    var ab := a + b;
    if AllKnown(ab, names) {
      forall k | 0 <= k < |a| ensures a[k] in names {
        assert ab[k] == a[k];
      }
      forall k | 0 <= k < |b| ensures b[k] in names {
        assert ab[|a| + k] == b[k];
      }
    }
  }

  /** A first unknown class index stays the first one when lookups are added before
      it (all named) or after it. */
  lemma FirstUnknownExtend(a: seq<int>, b: seq<int>, c: seq<int>, names: map<int, string>, m: int)
    requires AllKnown(a, names) && FirstUnknownAt(b, names, m)
    ensures FirstUnknownAt(a + b + c, names, |a| + m)
    ensures (a + b + c)[..|a| + m] == a + b[..m]
    ensures (a + b + c)[|a| + m] == b[m]
  {
    assert (a + b + c)[..|a| + m] == a + b[..m];
    AllKnownAppend(a, b[..m], names);
  }

  /** Looking up the boxes of two runs of results one after the other visits the
      boxes of the first run, then those of the second. */
  lemma {:induction false} LookedAppend(a: seq<DetectionResult>, b: seq<DetectionResult>)
    ensures Looked(a + b) == Looked(a) + Looked(b)
    decreases |a|
  {
    if a == [] {
      assert a + b == b;
    } else {
      calc {
        Looked(a + b);
        { assert (a + b)[0] == a[0] && (a + b)[1..] == a[1..] + b; }
        BoxClasses(a[0]) + Looked(a[1..] + b);
        { LookedAppend(a[1..], b); }
        BoxClasses(a[0]) + (Looked(a[1..]) + Looked(b));
      }
    }
  }

  /** One more result at the end adds its boxes' lookups at the end. */
  lemma LookedSnoc(results: seq<DetectionResult>, r: DetectionResult)
    ensures Looked(results + [r]) == Looked(results) + BoxClasses(r)
  {
    LookedAppend(results, [r]);
    assert Looked([r]) == BoxClasses(r) by {
      assert [r][1..] == [];
    }
  }

  /** The lookups of a whole answer are those of the results before result `i`, then
      those of result `i`, then those of the results after it. */
  lemma {:induction false} LookedSplit(results: seq<DetectionResult>, i: nat)
    requires i < |results|
    ensures Looked(results) == Looked(results[..i]) + BoxClasses(results[i]) + Looked(results[i + 1..])
  {
    var before, after := results[..i], results[i + 1..];
    assert results == (before + [results[i]]) + after;
    LookedAppend(before + [results[i]], after);
    LookedSnoc(before, results[i]);
  }

  /** The inner `for box in result.boxes` loop of detect_fire_and_alert over one
      result's boxes, entered with latch `latch`. It stops at the first class index
      without a name (`unknown` is its position; the lookup raises there). The first
      "fire" box met while the latch is clear starts the alert and sets the latch. */
  method ScanBoxes(bs: seq<Box>, names: map<int, string>, latch: bool)
    returns (latch': bool, unknown: Option<nat>, ghost started: nat)
    ensures unknown.None? <==> AllKnown(Classes(bs), names)
    ensures unknown.None? ==> latch' == (latch || FireAmong(Classes(bs), names))
    ensures unknown.Some? ==>
      FirstUnknownAt(Classes(bs), names, unknown.value)
      && latch' == (latch || FireAmong(Classes(bs)[..unknown.value], names))
    ensures started == (if latch' && !latch then 1 else 0)
  {
    latch', unknown, started := latch, None, 0;
    var j := 0;
    while j < |bs|
      invariant 0 <= j <= |bs|
      invariant AllKnown(Classes(bs)[..j], names)
      invariant latch' == (latch || FireAmong(Classes(bs)[..j], names))
      invariant started == (if latch' && !latch then 1 else 0)
    {
      var cls := bs[j].cls;
      assert Classes(bs)[..j + 1] == Classes(bs)[..j] + [cls];
      if cls !in names {
        unknown := Some(j);
        return;
      }
      if names[cls] == FireLabel && !latch' {
        // the alert thread is started here
        started := started + 1;
        latch' := true;
      }
      FireAmongAppend(Classes(bs)[..j], [cls], names);
      assert FireAmong([cls], names) <==> names[cls] == FireLabel by {
        assert [cls][0] == cls;
      }
      AllKnownAppend(Classes(bs)[..j], [cls], names);
      j := j + 1;
    }
    assert Classes(bs)[..j] == Classes(bs);
  }

  /** detect_fire_and_alert: walk every box of every result the detector returned; the
      first box named "fire" while the latch is still clear starts the alert (the ghost
      `started` counts those starts) and sets the latch. A class index missing from
      `names` raises, leaving the latch as the caller had it. */
  method DetectFireAndAlert(prediction: Prediction, names: map<int, string>, alertPlayed: bool)
    returns (outcome: Outcome, ghost started: nat)
    ensures started <= 1 && (started == 1 ==> !alertPlayed)
    ensures AllKnown(LookedUp(prediction), names) ==>
      outcome == Returned(alertPlayed || FireAmong(LookedUp(prediction), names))
    ensures !AllKnown(LookedUp(prediction), names) <==> outcome.UnknownClass?
    ensures outcome.Returned? ==> (started == 1 <==> !alertPlayed && outcome.alertPlayed)
    ensures outcome.UnknownClass? ==>
      exists m :: FirstUnknownAt(LookedUp(prediction), names, m)
        && outcome.cls == LookedUp(prediction)[m]
        && (started == 1 <==> !alertPlayed && FireAmong(LookedUp(prediction)[..m], names))
  {
    started := 0;
    var latch := alertPlayed;
    if prediction.Some? && |prediction.value| > 0 {
      var results := prediction.value;
      var i := 0;
      while i < |results|
        invariant 0 <= i <= |results|
        invariant AllKnown(Looked(results[..i]), names)
        invariant latch == (alertPlayed || FireAmong(Looked(results[..i]), names))
        invariant started == (if latch && !alertPlayed then 1 else 0)
      {
        ghost var done := Looked(results[..i]);
        assert Looked(results[..i + 1]) == done + BoxClasses(results[i]) by {
          assert results[..i + 1] == results[..i] + [results[i]];
          LookedSnoc(results[..i], results[i]);
        }
        match results[i].boxes {
          case None =>
            assert done + BoxClasses(results[i]) == done;
          case Some(bs) =>
            var unknown;
            ghost var s;
            latch, unknown, s := ScanBoxes(bs, names, latch);
            started := started + s;
            if unknown.Some? {
              var m := unknown.value;
              LookedSplit(results, i);
              FirstUnknownExtend(done, Classes(bs), Looked(results[i + 1..]), names, m);
              FireAmongAppend(done, Classes(bs)[..m], names);
              outcome := UnknownClass(bs[m].cls);
              return;
            }
            FireAmongAppend(done, Classes(bs), names);
            AllKnownAppend(done, Classes(bs), names);
        }
        i := i + 1;
      }
      assert results[..i] == results;
    }
    outcome := Returned(latch);
  }
}
