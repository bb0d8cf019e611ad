/**
 The placement engine of one level (`src/components/GameInterface.tsx`): the
 session state of the component (placed labels, completed points, attempts,
 feedback), the drop and reset handlers, and the derived values shown to the
 player (available labels, completion, score, accuracy).
 */
module GameInterface {
  import opened Wrappers
  import opened Seqs
  import opened Catalog

  /** `assignedLabels.some(assigned => assigned.label === label)`. */
  predicate IsPlaced(placed: seq<LabelPosition>, text: string)
  {
    exists k :: 0 <= k < |placed| && placed[k].text == text
  }

  /**
   `level.labels.filter(label => !assignedLabels.some(...))`: the labels still
   offered for dragging.
   */
  function AvailableLabels(labels: seq<string>, placed: seq<LabelPosition>): (r: seq<string>)
    ensures forall x :: x in r <==> x in labels && !IsPlaced(placed, x)
    ensures SubsequenceOf(r, labels)
  {
    if labels == [] then []
    else if IsPlaced(placed, labels[0]) then AvailableLabels(labels[1..], placed)
    else [labels[0]] + AvailableLabels(labels[1..], placed)
  }

  /** Before anything is placed, every label of the level is offered, in the level's order. */
  lemma {:induction false} NothingPlacedAllAvailable(labels: seq<string>)
    ensures AvailableLabels(labels, []) == labels
  {
    if labels != [] {
      NothingPlacedAllAvailable(labels[1..]);
    }
  }

  /** The labels of `labels` that some placement carries. */
  function PlacedAmong(labels: seq<string>, placed: seq<LabelPosition>): set<string>
  {
    set x | x in labels && IsPlaced(placed, x)
  }

  /** With distinct labels, the offered labels are exactly the ones not yet placed, counted once each. */
  lemma {:induction false} AvailableCount(labels: seq<string>, placed: seq<LabelPosition>)
    requires Distinct(labels)
    ensures |AvailableLabels(labels, placed)| == |labels| - |PlacedAmong(labels, placed)|
  {
    if labels != [] {
      var h, t := labels[0], labels[1..];
      AvailableCount(t, placed);
      assert h !in t;
      if IsPlaced(placed, h) {
        assert PlacedAmong(labels, placed) == {h} + PlacedAmong(t, placed);
      } else {
        assert PlacedAmong(labels, placed) == PlacedAmong(t, placed);
      }
    }
  }

  /** Placing one more label withdraws exactly that label from the offered ones, and nothing returns. */
  lemma PlacementWithdrawsLabel(labels: seq<string>, placed: seq<LabelPosition>, p: LabelPosition)
    ensures forall x :: x in AvailableLabels(labels, placed + [p]) <==>
      x in AvailableLabels(labels, placed) && x != p.text
  {
    var more := placed + [p];
    forall x
      ensures IsPlaced(more, x) <==> IsPlaced(placed, x) || x == p.text
    {
      if IsPlaced(placed, x) {
        var k :| 0 <= k < |placed| && placed[k].text == x;
        assert more[k] == placed[k];
      }
      if x == p.text {
        assert more[|placed|] == p;
      }
      if IsPlaced(more, x) {
        var k :| 0 <= k < |more| && more[k].text == x;
        if k < |placed| {
          assert placed[k] == more[k];
        }
      }
    }
  }

  /**
   `Math.max(0, 100 - Math.floor((attempts / totalLabels) * 10))`, over exact
   integers: `floor((a / t) * 10)` is `(10 * a) / t`.
   */
  function Score(attempts: nat, totalLabels: nat): (r: nat)
    requires totalLabels > 0
    ensures r <= 100
    ensures r == 0 <==> attempts >= 10 * totalLabels
    ensures r > 0 ==> totalLabels * (100 - r) <= 10 * attempts < totalLabels * (101 - r)
  {
    var penalty := (10 * attempts) / totalLabels;
    if penalty >= 100 then 0 else 100 - penalty
  }

  /** More attempts never raise the score. */
  lemma ScoreNonIncreasing(fewer: nat, more: nat, totalLabels: nat)
    requires totalLabels > 0 && fewer <= more
    ensures Score(more, totalLabels) <= Score(fewer, totalLabels)
  {
    DivisionMonotone(10 * fewer, 10 * more, totalLabels);
  }

  /**
   The score of a level with t labels at t - 1 and at t attempts (the attempt
   counts before and after the last drop of a play with no wrong drop): 100
   for a one-label level and between 91 and 95 otherwise at t - 1, and 90 at t.
   */
  lemma FlawlessPlayScores(t: nat)
    requires t > 0
    ensures Score(t, t) == 90
    ensures t == 1 ==> Score(t - 1, t) == 100
    ensures t >= 2 ==> 91 <= Score(t - 1, t) <= 95
  {
    assert (10 * t) / t == 10;
    if t >= 2 {
      var q := (10 * (t - 1)) / t;
      assert 10 * (t - 1) == 10 * t - 10;
      assert q * t <= 10 * t - 10 < (q + 1) * t;
      if q < 5 {
        MultiplyMonotone(q + 1, 5, t);
      }
      if q > 9 {
        MultiplyMonotone(10, q, t);
      }
    }
  }

  /** Integer division by a positive divisor preserves order. */
  lemma DivisionMonotone(a: nat, b: nat, d: nat)
    requires a <= b && d > 0
    ensures a / d <= b / d
  {
    var qa, qb := a / d, b / d;
    assert qa * d <= a && b < (qb + 1) * d;
    if qa > qb {
      MultiplyMonotone(qb + 1, qa, d);
    }
  }

  /** Multiplying by the same natural number preserves order. */
  lemma MultiplyMonotone(x: nat, y: nat, d: nat)
    requires x <= y
    ensures x * d <= y * d
  {
  }

  /**
   `Math.round((part / whole) * 100)` for a non-negative fraction, or 0 when
   `whole` is 0: the integer nearest to `100 * part / whole`, halves rounded up.
   */
  function RoundedPercent(part: nat, whole: nat): (r: nat)
    ensures whole == 0 ==> r == 0
    ensures whole > 0 ==> whole * (2 * r - 1) <= 200 * part < whole * (2 * r + 1)
    ensures part <= whole ==> r <= 100
  {
    if whole == 0 then 0
    else
      var r := (200 * part + whole) / (2 * whole);
      RoundingBounds(part, whole, r);
      r
  }

  /** The quotient `(200 * part + whole) / (2 * whole)` is `floor(100 * part / whole + 1/2)`. */
  lemma RoundingBounds(part: nat, whole: nat, r: nat)
    requires whole > 0 && r == (200 * part + whole) / (2 * whole)
    ensures whole * (2 * r - 1) <= 200 * part < whole * (2 * r + 1)
    ensures part <= whole ==> r <= 100
  {
    var n, d := 200 * part + whole, 2 * whole;
    assert n == r * d + n % d && 0 <= n % d < d;
    assert whole * (2 * r - 1) == r * d - whole;
    assert whole * (2 * r + 1) == r * d + whole;
    if part <= whole && r > 100 {
      MultiplyMonotone(101, r, d);
    }
  }

  datatype FeedbackKind = Success | Error

  /** The `feedback` state: whether the banner shows, its kind and its message. */
  datatype Feedback = Feedback(show: bool, kind: FeedbackKind, message: string)

  /** The hidden banner, the initial `feedback` and the one restored by reset and by the clearing timer. */
  const NoFeedback := Feedback(false, Success, "")

  /** The success banner's text for a correctly placed label. */
  function CorrectMessage(text: string): string
  {
    "Correct! " + text + " is in the right place."
  }

  /** The error banner's text for a label dropped on the wrong point. */
  function IncorrectMessage(text: string): string
  {
    "Incorrect. " + text + " doesn't belong here."
  }

  /**
   The banner tells the outcome and names the label: no success message is an
   error message, and each message determines the label it was made for.
   */
  lemma MessagesTellOutcomeAndLabel(a: string, b: string)
    ensures CorrectMessage(a) != IncorrectMessage(b)
    ensures CorrectMessage(a) == CorrectMessage(b) ==> a == b
    ensures IncorrectMessage(a) == IncorrectMessage(b) ==> a == b
  {
    assert CorrectMessage(a)[0] == 'C' && IncorrectMessage(b)[0] == 'I';
    if CorrectMessage(a) == CorrectMessage(b) {
      var m := CorrectMessage(a);
      assert |a| == |b|;
      assert a == m[9..9 + |a|];
    }
    if IncorrectMessage(a) == IncorrectMessage(b) {
      var m := IncorrectMessage(a);
      assert |a| == |b|;
      assert a == m[11..11 + |a|];
    }
  }

  /** The arguments of the delayed `onLevelComplete(level.id, score)` call. */
  datatype LevelReport = LevelReport(levelId: string, score: nat)

  /** A placement of `point`'s own label at `point`'s position. */
  predicate PlacedOnPoint(a: LabelPosition, point: DiagramPoint)
  {
    a == LabelPosition(point.id, point.correctLabel, point.x, point.y, true)
  }

  /** A correct placement on one of `points`. */
  predicate PlacedOnSomePoint(a: LabelPosition, points: seq<DiagramPoint>)
  {
    exists p :: p in points && PlacedOnPoint(a, p)
  }

  /** The ids of the points the placements sit on. */
  function PlacedIds(placed: seq<LabelPosition>): set<string>
  {
    set k | 0 <= k < |placed| :: placed[k].id
  }

  /** The ids of a level's diagram points, in order. */
  function PointIds(points: seq<DiagramPoint>): (r: seq<string>)
    ensures |r| == |points| && forall i :: 0 <= i < |points| ==> r[i] == points[i].id
  {
    seq(|points|, i requires 0 <= i < |points| => points[i].id)
  }

  /**
   The state of the `GameInterface` component while one level is played: the
   level and its diagram points are its (constant) props, the rest its state.
   */
  class Session {
    const level: GameLevel
    const diagramPoints: seq<DiagramPoint>
    var assignedLabels: seq<LabelPosition>
    var draggedItem: Option<string>
    var feedback: Feedback
    var completedPoints: set<string>
    var attempts: nat

    /**
     Every placement is a correct one on one of the diagram points, no point is
     placed on twice, the completed points are exactly the placed-on ones, and
     there were at least as many attempts as completed points.
     */
    ghost predicate Valid()
      reads this
    {
      && level.totalLabels > 0
      && (forall k :: 0 <= k < |assignedLabels| ==> PlacedOnSomePoint(assignedLabels[k], diagramPoints))
      && (forall i, j :: 0 <= i < j < |assignedLabels| ==> assignedLabels[i].id != assignedLabels[j].id)
      && completedPoints == PlacedIds(assignedLabels)
      && |completedPoints| == |assignedLabels|
      && |completedPoints| <= attempts
    }

    /** The component's first render: nothing placed, no attempts, no feedback. */
    constructor (level: GameLevel, diagramPoints: seq<DiagramPoint>)
      requires level.totalLabels > 0
      ensures Valid()
      ensures this.level == level && this.diagramPoints == diagramPoints
      ensures assignedLabels == [] && completedPoints == {} && attempts == 0
      ensures draggedItem == None && feedback == NoFeedback
    {
      this.level := level;
      this.diagramPoints := diagramPoints;
      assignedLabels := [];
      draggedItem := None;
      feedback := NoFeedback;
      completedPoints := {};
      attempts := 0;
    }

    /** `handleDragStart`: remember which label is being dragged. */
    method HandleDragStart(text: string)
      requires Valid()
      modifies this
      ensures Valid() && draggedItem == Some(text)
      ensures assignedLabels == old(assignedLabels) && completedPoints == old(completedPoints)
      ensures attempts == old(attempts) && feedback == old(feedback)
    {
      draggedItem := Some(text);
    }

    /**
     `handleDrop` of the label `text` on `point`. An empty label or a completed point is
     ignored without counting an attempt. Any other drop counts one attempt; it
     succeeds exactly when `text` is the point's label, and then places the
     label and completes the point. The result is the delayed `onLevelComplete`
     call that the drop arms when it completes the last point, carrying the
     score computed from the attempts counted BEFORE this drop.
     */
    method HandleDrop(text: string, point: DiagramPoint) returns (report: Option<LevelReport>)
      requires Valid() && point in diagramPoints
      modifies this
      ensures Valid()
      ensures text == "" || point.id in old(completedPoints) ==>
        && report == None
        && assignedLabels == old(assignedLabels) && completedPoints == old(completedPoints)
        && attempts == old(attempts) && feedback == old(feedback) && draggedItem == old(draggedItem)
      ensures text != "" && point.id !in old(completedPoints) ==>
        && attempts == old(attempts) + 1
        && draggedItem == None
      ensures text != "" && point.id !in old(completedPoints) && text == point.correctLabel ==>
        && assignedLabels == old(assignedLabels) + [LabelPosition(point.id, text, point.x, point.y, true)]
        && completedPoints == old(completedPoints) + {point.id}
        && feedback == Feedback(true, Success, CorrectMessage(text))
        && report == if |completedPoints| == level.totalLabels
                     then Some(LevelReport(level.id, Score(old(attempts), level.totalLabels)))
                     else None
      ensures text != "" && point.id !in old(completedPoints) && text != point.correctLabel ==>
        && assignedLabels == old(assignedLabels) && completedPoints == old(completedPoints)
        && feedback == Feedback(true, Error, IncorrectMessage(text))
        && report == None
    {
      report := None;
      if text == "" || point.id in completedPoints {
        return;
      }
      var attemptsBefore := attempts;
      attempts := attempts + 1;
      if text == point.correctLabel {
        var placement := LabelPosition(point.id, text, point.x, point.y, true);
        assert PlacedOnPoint(placement, point);
        assert PlacedIds(assignedLabels + [placement]) == PlacedIds(assignedLabels) + {point.id} by {
          assert (assignedLabels + [placement])[|assignedLabels|].id == point.id;
          forall k | 0 <= k < |assignedLabels| ensures (assignedLabels + [placement])[k] == assignedLabels[k] { }
        }
        var completedBefore := |completedPoints|;
        assignedLabels := assignedLabels + [placement];
        completedPoints := completedPoints + {point.id};
        feedback := Feedback(true, Success, CorrectMessage(text));
        if completedBefore + 1 == level.totalLabels {
          report := Some(LevelReport(level.id, Score(attemptsBefore, level.totalLabels)));
        }
      } else {
        feedback := Feedback(true, Error, IncorrectMessage(text));
      }
      draggedItem := None;
    }

    /** The 2-second timer armed by every counted drop: hide the banner. */
    method ClearFeedback()
      requires Valid()
      modifies this
      ensures Valid() && feedback == NoFeedback
      ensures assignedLabels == old(assignedLabels) && completedPoints == old(completedPoints)
      ensures attempts == old(attempts) && draggedItem == old(draggedItem)
    {
      feedback := NoFeedback;
    }

    /** `handleReset`: back to the first render's placements, attempts and feedback. */
    method HandleReset()
      requires Valid()
      modifies this
      ensures Valid()
      ensures assignedLabels == [] && completedPoints == {} && attempts == 0 && feedback == NoFeedback
      ensures draggedItem == old(draggedItem)
    {
      assignedLabels := [];
      completedPoints := {};
      attempts := 0;
      feedback := NoFeedback;
    }

    /** `isCompleted`: as many completed points as the level has labels. */
    predicate IsCompleted()
      reads this
    {
      |completedPoints| == level.totalLabels
    }

    /** The score shown once the level is complete, from the current attempts. */
    function DisplayedScore(): (r: nat)
      reads this
      requires Valid()
      ensures r <= 100
      ensures r == 0 <==> attempts >= 10 * level.totalLabels
    {
      Score(attempts, level.totalLabels)
    }

    /** The accuracy statistic: completed points per attempt, as a rounded percentage. */
    function Accuracy(): (r: nat)
      reads this
      requires Valid()
      ensures r <= 100
      ensures attempts == 0 ==> r == 0
      ensures attempts > 0 ==> attempts * (2 * r - 1) <= 200 * |completedPoints| < attempts * (2 * r + 1)
    {
      RoundedPercent(|completedPoints|, attempts)
    }

    /**
     When the diagram has one point per label, with distinct ids, the level is
     complete exactly when every one of its points is completed.
     */
    lemma CompletedIffEveryPointDone()
      requires Valid()
      requires |diagramPoints| == level.totalLabels && Distinct(PointIds(diagramPoints))
      ensures IsCompleted() <==> forall p :: p in diagramPoints ==> p.id in completedPoints
    {
      var all := Elements(PointIds(diagramPoints));
      DistinctElementsCount(PointIds(diagramPoints));
      assert completedPoints <= all by {
        forall id | id in completedPoints ensures id in all {
          var k :| 0 <= k < |assignedLabels| && assignedLabels[k].id == id;
          var p :| p in diagramPoints && PlacedOnPoint(assignedLabels[k], p);
          var i :| 0 <= i < |diagramPoints| && diagramPoints[i] == p;
          assert PointIds(diagramPoints)[i] == id;
        }
      }
      if IsCompleted() {
        SubsetSameSize(completedPoints, all);
        forall p | p in diagramPoints ensures p.id in completedPoints {
          var i :| 0 <= i < |diagramPoints| && diagramPoints[i] == p;
          assert PointIds(diagramPoints)[i] == p.id;
        }
      }
      if forall p :: p in diagramPoints ==> p.id in completedPoints {
        assert all <= completedPoints by {
          forall id | id in all ensures id in completedPoints {
            var i :| 0 <= i < |diagramPoints| && PointIds(diagramPoints)[i] == id;
            assert diagramPoints[i] in diagramPoints;
          }
        }
        assert completedPoints == all;
      }
    }
  
    /**
     When point i expects label i of a level whose labels are distinct, the
     number of labels still offered is the number of points not yet completed
     (the "Remaining" statistic).
     */
    lemma RemainingIsOpenPoints()
      requires Valid()
      requires |diagramPoints| == |level.labels| == level.totalLabels
      requires Distinct(level.labels)
      requires forall i :: 0 <= i < |diagramPoints| ==> diagramPoints[i].correctLabel == level.labels[i]
      ensures |AvailableLabels(level.labels, assignedLabels)| == level.totalLabels - |completedPoints|
    {
      var placed := assignedLabels;
      var texts := seq(|placed|, k requires 0 <= k < |placed| => placed[k].text);
      assert Distinct(texts) by {
        forall i, j | 0 <= i < j < |texts| ensures texts[i] != texts[j] {
          var p :| p in diagramPoints && PlacedOnPoint(assignedLabels[i], p);
          var q :| q in diagramPoints && PlacedOnPoint(assignedLabels[j], q);
          var a :| 0 <= a < |diagramPoints| && diagramPoints[a] == p;
          var b :| 0 <= b < |diagramPoints| && diagramPoints[b] == q;
          if a != b {
            assert level.labels[a] != level.labels[b];
          }
        }
      }
      DistinctElementsCount(texts);
      assert PlacedAmong(level.labels, assignedLabels) == Elements(texts) by {
        forall x | x in Elements(texts) ensures x in PlacedAmong(level.labels, assignedLabels) {
          var k :| 0 <= k < |texts| && texts[k] == x;
          var p :| p in diagramPoints && PlacedOnPoint(assignedLabels[k], p);
          var a :| 0 <= a < |diagramPoints| && diagramPoints[a] == p;
          assert level.labels[a] == x;
        }
        forall x | x in PlacedAmong(level.labels, assignedLabels) ensures x in Elements(texts) {
          var k :| 0 <= k < |assignedLabels| && assignedLabels[k].text == x;
          assert texts[k] == x;
        }
      }
      AvailableCount(level.labels, assignedLabels);
    }
  }
}
