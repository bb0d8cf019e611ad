/**
 The page that drives the game (`src/pages/Index.tsx`): the diagram points it
 builds for a level, the progression state (selected topic, current level,
 completed levels, per-topic progress) with its handlers, and the overall
 statistics.
 */
module IndexPage {
  import opened Wrappers
  import opened Text
  import opened Seqs
  import opened Catalog
  import opened GameInterface

  /** A design-time position of a diagram point, in percent of the diagram. */
  datatype Position = Position(x: int, y: int)

  /** The coordinate table of `getDiagramPoints`, keyed by topic id and then by level number. */
  const DiagramPositions: map<string, map<int, seq<Position>>> := map[
    "digestive" := map[
      1 := [Position(20, 15), Position(40, 45), Position(55, 70)],
      2 := [Position(20, 15), Position(30, 30), Position(40, 45), Position(55, 60), Position(65, 75)],
      3 := [Position(20, 15), Position(30, 30), Position(40, 45), Position(50, 55), Position(55, 65), Position(70, 75), Position(75, 85)],
      4 := [Position(20, 15), Position(30, 30), Position(40, 45), Position(15, 35), Position(25, 50), Position(35, 35), Position(50, 55), Position(52, 65), Position(58, 68), Position(70, 75), Position(75, 85), Position(78, 90)]
    ],
    "flower" := map[
      1 := [Position(45, 25), Position(50, 45), Position(50, 55)],
      2 := [Position(45, 25), Position(45, 35), Position(50, 45), Position(50, 55)],
      3 := [Position(45, 25), Position(45, 35), Position(48, 42), Position(48, 48), Position(52, 42), Position(52, 48), Position(50, 60)],
      4 := [Position(45, 25), Position(45, 35), Position(48, 42), Position(48, 48), Position(52, 42), Position(52, 48), Position(50, 60), Position(50, 70), Position(50, 80)]
    ],
    "plantCell" := map[
      1 := [Position(50, 30), Position(70, 60), Position(20, 20)],
      2 := [Position(50, 30), Position(70, 60), Position(20, 20), Position(50, 50), Position(25, 25)],
      3 := [Position(50, 30), Position(70, 60), Position(20, 20), Position(50, 50), Position(25, 25), Position(30, 40), Position(75, 35)],
      4 := [Position(50, 30), Position(70, 60), Position(20, 20), Position(50, 50), Position(25, 25), Position(30, 40), Position(75, 35), Position(60, 40), Position(40, 60), Position(35, 25), Position(15, 50)]
    ],
    "foodWeb" := map[
      1 := [Position(25, 70), Position(75, 30)],
      2 := [Position(25, 70), Position(50, 50), Position(75, 30)],
      3 := [Position(25, 70), Position(45, 55), Position(65, 40), Position(80, 20)],
      4 := [Position(25, 75), Position(40, 60), Position(60, 45), Position(80, 25), Position(30, 85), Position(70, 60)]
    ],
    "photosynthesis" := map[
      1 := [Position(20, 15), Position(30, 30), Position(70, 60)],
      2 := [Position(20, 15), Position(30, 30), Position(40, 70), Position(70, 60)],
      3 := [Position(20, 15), Position(30, 30), Position(40, 70), Position(70, 60), Position(80, 40)],
      4 := [Position(20, 15), Position(30, 30), Position(40, 70), Position(70, 60), Position(80, 40), Position(50, 45), Position(35, 50), Position(55, 35)]
    ]
  ]

  /** The id of the i-th point of a diagram: `point-${index}`. */
  function PointId(index: nat): string
  {
    "point-" + NatToString(index)
  }

  /** Different indices give different point ids. */
  lemma PointIdInjective(i: nat, j: nat)
    requires PointId(i) == PointId(j)
    ensures i == j
  {
    PrefixCancel("point-", NatToString(i), NatToString(j));
    NatToStringInjective(i, j);
  }

  /** `GAME_LEVELS[topicId]?.[level - 1]` is defined. */
  predicate LevelExists(topicId: string, level: int)
  {
    topicId in GameLevels && 1 <= level <= |GameLevels[topicId]|
  }

  /** The coordinate table has an entry for every shipped level, one position per label. */
  lemma PositionTableCoversCatalog(topicId: string, level: int)
    requires LevelExists(topicId, level)
    ensures topicId in DiagramPositions && level in DiagramPositions[topicId]
    ensures |DiagramPositions[topicId][level]| == |GameLevels[topicId][level - 1].labels|
  {
  }

  /**
   `getDiagramPoints(topicId, level)`: no points for a level that does not
   exist; otherwise point i is `point-${i}`, expects label i of the level and
   sits at the table's i-th position. (The source falls back to a circular
   layout when the table has no entry; no shipped level reaches it.)
   */
  function GetDiagramPoints(topicId: string, level: int): (r: seq<DiagramPoint>)
    ensures !LevelExists(topicId, level) ==> r == []
    ensures LevelExists(topicId, level) ==>
      var labels := GameLevels[topicId][level - 1].labels;
      && |r| == |labels|
      && forall i :: 0 <= i < |r| ==>
           && r[i].id == PointId(i)
           && r[i].correctLabel == labels[i]
           && Position(r[i].x, r[i].y) == DiagramPositions[topicId][level][i]
  {
    if !LevelExists(topicId, level) then []
    else
      var gameLevel := GameLevels[topicId][level - 1];
      PositionTableCoversCatalog(topicId, level);
      var positions := DiagramPositions[topicId][level];
      seq(|gameLevel.labels|, i requires 0 <= i < |gameLevel.labels| =>
        DiagramPoint(PointId(i), positions[i].x, positions[i].y, gameLevel.labels[i]))
  }

  /**
   The points of a shipped level meet what the placement engine assumes: one
   point per label, distinct ids, point i expecting label i.
   */
  lemma DiagramPointsFitLevel(topicId: string, level: int)
    requires LevelExists(topicId, level)
    ensures var gameLevel, points := GameLevels[topicId][level - 1], GetDiagramPoints(topicId, level);
      && |points| == |gameLevel.labels| == gameLevel.totalLabels
      && Distinct(gameLevel.labels)
      && Distinct(PointIds(points))
      && forall i :: 0 <= i < |points| ==> points[i].correctLabel == gameLevel.labels[i]
  {
    CatalogWellFormed();
    assert LevelWellFormed(topicId, level - 1, GameLevels[topicId][level - 1]);
    var ids := PointIds(GetDiagramPoints(topicId, level));
    forall i, j | 0 <= i < j < |ids| ensures ids[i] != ids[j] {
      if ids[i] == ids[j] {
        PointIdInjective(i, j);
      }
    }
  }

  /** The ids of a list of levels, in order. */
  function LevelIds(levels: seq<GameLevel>): (r: seq<string>)
    ensures |r| == |levels| && forall i :: 0 <= i < |levels| ==> r[i] == levels[i].id
  {
    seq(|levels|, i requires 0 <= i < |levels| => levels[i].id)
  }

  /** `levels.filter(level => completedLevels.has(level.id)).length`. */
  function CompletedCount(levels: seq<GameLevel>, completed: set<string>): (r: nat)
    ensures r <= |levels|
    ensures r == |levels| <==> forall i :: 0 <= i < |levels| ==> levels[i].id in completed
    ensures r == 0 <==> forall i :: 0 <= i < |levels| ==> levels[i].id !in completed
  {
    if levels == [] then 0
    else
      var rest := CompletedCount(levels[1..], completed);
      assert forall i :: 1 <= i < |levels| ==> levels[i] == levels[1..][i - 1];
      (if levels[0].id in completed then 1 else 0) + rest
  }

  /** With distinct ids, the count is the number of the levels' ids that are completed. */
  lemma {:induction false} CompletedCountIsCardinality(levels: seq<GameLevel>, completed: set<string>)
    requires Distinct(LevelIds(levels))
    ensures CompletedCount(levels, completed) == |Elements(LevelIds(levels)) * completed|
  {
    if levels != [] {
      var ids, rest := LevelIds(levels), LevelIds(levels[1..]);
      assert rest == ids[1..];
      CompletedCountIsCardinality(levels[1..], completed);
      assert Elements(ids) == {ids[0]} + Elements(rest);
      assert ids[0] !in Elements(rest);
      if ids[0] in completed {
        assert Elements(ids) * completed == {ids[0]} + Elements(rest) * completed;
      } else {
        assert Elements(ids) * completed == Elements(rest) * completed;
      }
    }
  }

  /** Adding completed ids never lowers a count. */
  lemma {:induction false} CompletedCountMonotone(levels: seq<GameLevel>, fewer: set<string>, more: set<string>)
    requires fewer <= more
    ensures CompletedCount(levels, fewer) <= CompletedCount(levels, more)
  {
    if levels != [] {
      CompletedCountMonotone(levels[1..], fewer, more);
    }
  }

  /** A topic's entry in the progress record: `(GAME_LEVELS[topicId] || [])` filtered by completion. */
  function TopicProgress(topicId: string, completed: set<string>): (r: nat)
    ensures topicId !in GameLevels ==> r == 0
    ensures topicId in GameLevels ==> r <= |GameLevels[topicId]|
  {
    CompletedCount(if topicId in GameLevels then GameLevels[topicId] else [], completed)
  }

  /** The levels of the given topics, one topic after the other: `Object.values(GAME_LEVELS).flat()`. */
  function LevelsOfTopics(keys: seq<string>): seq<GameLevel>
  {
    if keys == [] then []
    else (if keys[0] in GameLevels then GameLevels[keys[0]] else []) + LevelsOfTopics(keys[1..])
  }

  /** Every level of the listed topics. */
  function AllLevels(): seq<GameLevel>
  {
    LevelsOfTopics(TopicKeys)
  }

  /** `totalLevels`. */
  function TotalLevels(): nat
  {
    |AllLevels()|
  }

  /** The sum of the per-topic entries of the progress record. */
  function ProgressSum(keys: seq<string>, completed: set<string>): nat
  {
    if keys == [] then 0 else TopicProgress(keys[0], completed) + ProgressSum(keys[1..], completed)
  }

  /** Counting over the concatenated levels is summing the per-topic counts. */
  lemma {:induction false} CountOverTopics(keys: seq<string>, completed: set<string>)
    ensures CompletedCount(LevelsOfTopics(keys), completed) == ProgressSum(keys, completed)
  {
    if keys != [] {
      CountOverTopics(keys[1..], completed);
      CountOverConcat(if keys[0] in GameLevels then GameLevels[keys[0]] else [], LevelsOfTopics(keys[1..]), completed);
    }
  }

  lemma {:induction false} CountOverConcat(a: seq<GameLevel>, b: seq<GameLevel>, completed: set<string>)
    ensures CompletedCount(a + b, completed) == CompletedCount(a, completed) + CompletedCount(b, completed)
  {
    if a == [] {
      assert a + b == b;
    } else {
      assert (a + b)[0] == a[0];
      assert (a + b)[1..] == a[1..] + b;
      CountOverConcat(a[1..], b, completed);
    }
  }

  /** Every level listed under topics `keys` has an id `${key}-${n}` for one of those keys. */
  lemma {:induction false} LevelsOfTopicsIds(keys: seq<string>)
    requires forall k :: k in keys ==> k in GameLevels && TopicLevelsWellFormed(k, GameLevels[k])
    ensures forall l :: l in LevelsOfTopics(keys) ==> exists k, n :: k in keys && l.id == LevelId(k, n)
  {
    if keys != [] {
      LevelsOfTopicsIds(keys[1..]);
      var head := GameLevels[keys[0]];
      forall l | l in head ensures exists k, n :: k in keys && l.id == LevelId(k, n) {
        var i :| 0 <= i < |head| && head[i] == l;
        assert LevelWellFormed(keys[0], i, head[i]);
        assert l.id == LevelId(keys[0], i + 1);
      }
    }
  }

  /** The levels of one well-formed topic have distinct ids. */
  lemma TopicLevelIdsDistinct(key: string)
    requires key in GameLevels && TopicLevelsWellFormed(key, GameLevels[key])
    ensures Distinct(LevelIds(GameLevels[key]))
  {
    var levels := GameLevels[key];
    forall i, j | 0 <= i < j < |levels| ensures levels[i].id != levels[j].id {
      assert LevelWellFormed(key, i, levels[i]) && LevelWellFormed(key, j, levels[j]);
      if levels[i].id == levels[j].id {
        LevelIdInjective(key, i + 1, key, j + 1);
      }
    }
  }

  /** A topic's level ids differ from those of every other topic's levels. */
  lemma TopicLevelIdsApart(key: string, others: seq<string>)
    requires key !in others
    requires key in GameLevels && TopicLevelsWellFormed(key, GameLevels[key])
    requires forall k :: k in others ==> k in GameLevels && TopicLevelsWellFormed(k, GameLevels[k])
    ensures forall l, m :: l in GameLevels[key] && m in LevelsOfTopics(others) ==> l.id != m.id
  {
    LevelsOfTopicsIds(others);
    forall l, m | l in GameLevels[key] && m in LevelsOfTopics(others) ensures l.id != m.id {
      var i :| 0 <= i < |GameLevels[key]| && GameLevels[key][i] == l;
      assert LevelWellFormed(key, i, l);
      var k, n :| k in others && m.id == LevelId(k, n);
      if l.id == m.id {
        LevelIdInjective(key, i + 1, k, n);
      }
    }
  }

  /** The levels of distinct well-formed topics have distinct ids. */
  lemma {:induction false} LevelsOfTopicsDistinct(keys: seq<string>)
    requires Distinct(keys)
    requires forall k :: k in keys ==> k in GameLevels && TopicLevelsWellFormed(k, GameLevels[k])
    ensures Distinct(LevelIds(LevelsOfTopics(keys)))
  {
    if keys != [] {
      var head, tail := GameLevels[keys[0]], LevelsOfTopics(keys[1..]);
      assert Distinct(keys[1..]);
      LevelsOfTopicsDistinct(keys[1..]);
      TopicLevelIdsDistinct(keys[0]);
      TopicLevelIdsApart(keys[0], keys[1..]);
      assert LevelIds(head + tail) == LevelIds(head) + LevelIds(tail);
      forall i, j | 0 <= i < |head| && 0 <= j < |tail| ensures LevelIds(head)[i] != LevelIds(tail)[j] {
        assert head[i] in head && tail[j] in tail;
      }
      DistinctConcat(LevelIds(head), LevelIds(tail));
    }
  }

  /**
   The catalog has 20 levels (`totalLevels`) with pairwise distinct ids, and
   the per-topic progress entries add up to the number of completed catalog
   levels.
   */
  lemma CatalogTotals(completed: set<string>)
    requires completed <= Elements(LevelIds(AllLevels()))
    ensures TotalLevels() == 20
    ensures Distinct(LevelIds(AllLevels()))
    ensures ProgressSum(TopicKeys, completed) == |completed|
  {
    AllLevelIdsDistinct();
    TotalLevelsValue();
    CountOverTopics(TopicKeys, completed);
    CompletedCountIsCardinality(AllLevels(), completed);
    assert Elements(LevelIds(AllLevels())) * completed == completed;
  }

  /** No two levels of the catalog share an id. */
  lemma AllLevelIdsDistinct()
    ensures Distinct(LevelIds(AllLevels()))
  {
    CatalogWellFormed();
    TopicTablesAgree();
    LevelsOfTopicsDistinct(TopicKeys);
  }

  /** Five topics of four levels each: 20 levels in all. */
  lemma TotalLevelsValue()
    ensures TotalLevels() == 20
  {
    var ks := TopicKeys;
    assert |LevelsOfTopics(ks[5..])| == 0;
    assert |LevelsOfTopics(ks[4..])| == 4;
    assert |LevelsOfTopics(ks[3..])| == 8;
    assert |LevelsOfTopics(ks[2..])| == 12;
    assert |LevelsOfTopics(ks[1..])| == 16;
  }

  /**
   A play-through of `digestive-1` on its own diagram: "Stomach" on point 1,
   "Mouth" on the already completed point 1 (ignored), "Intestine" on point 0
   (wrong), then "Mouth" on point 0 and "Intestine" on point 2. The last drop
   completes the level after four attempts: the score handed to
   `onLevelComplete` is computed from the three attempts before that drop
   (90), while the completion screen shows the score of all four (87).
   */
  method FirstDigestiveLevelPlay() returns (reports: seq<Option<LevelReport>>, attempts: nat, displayed: nat)
    ensures reports == [None, None, None, None, Some(LevelReport("digestive-1", 90))]
    ensures attempts == 4 && displayed == 87
  {
    FirstDigestivePoints();
    reports, attempts, displayed := PlayThreeLabelLevel(GameLevels["digestive"][0], GetDiagramPoints("digestive", 1));
  }

  /**
   The drops of `FirstDigestiveLevelPlay` on any three-label level whose
   points 0, 1 and 2, with distinct ids, expect "Mouth", "Stomach" and
   "Intestine".
   */
  method PlayThreeLabelLevel(gameLevel: GameLevel, points: seq<DiagramPoint>)
    returns (reports: seq<Option<LevelReport>>, attempts: nat, displayed: nat)
    requires gameLevel.totalLabels == 3 && |points| == 3
    requires points[0].correctLabel == "Mouth" && points[1].correctLabel == "Stomach"
    requires points[2].correctLabel == "Intestine"
    requires points[0].id != points[1].id && points[0].id != points[2].id && points[1].id != points[2].id
    ensures reports == [None, None, None, None, Some(LevelReport(gameLevel.id, 90))]
    ensures attempts == 4 && displayed == 87
  {
    var session := new Session(gameLevel, points);
    var r1 := session.HandleDrop("Stomach", points[1]);
    var r2 := session.HandleDrop("Mouth", points[1]);
    var r3 := session.HandleDrop("Intestine", points[0]);
    var r4 := session.HandleDrop("Mouth", points[0]);
    var r5 := session.HandleDrop("Intestine", points[2]);
    assert Score(3, 3) == 90 && Score(4, 3) == 87;
    reports := [r1, r2, r3, r4, r5];
    attempts := session.attempts;
    displayed := session.DisplayedScore();
  }

  /** The facts about `digestive-1` and its diagram that the play-through uses. */
  lemma FirstDigestivePoints()
    ensures var gameLevel, points := GameLevels["digestive"][0], GetDiagramPoints("digestive", 1);
      && gameLevel.id == "digestive-1" && gameLevel.totalLabels == 3
      && |points| == 3
      && points[0].correctLabel == "Mouth"
      && points[1].correctLabel == "Stomach"
      && points[2].correctLabel == "Intestine"
      && points[0].id != points[1].id && points[0].id != points[2].id && points[1].id != points[2].id
  {
    var points := GetDiagramPoints("digestive", 1);
    assert LevelExists("digestive", 1);
    if points[0].id == points[1].id { PointIdInjective(0, 1); }
    if points[0].id == points[2].id { PointIdInjective(0, 2); }
    if points[1].id == points[2].id { PointIdInjective(1, 2); }
  }

  /**
   The guarded step of `handleNextLevel`: advance only while a next level
   exists among `count` levels.
   */
  function StepLevel(current: int, count: nat): (r: int)
    ensures 1 <= current <= count ==> 1 <= r <= count
    ensures r == current + 1 <==> current < count
    ensures r != current + 1 ==> r == current
  {
    if current < count then current + 1 else current
  }

  /** The auto-advance timer's update as written, `prev => prev + 1`, applied when it fires without re-checking. */
  function AutoAdvanceAsWritten(current: int): int
  {
    current + 1
  }

  /**
   An armed auto-advance timer: the topic and level shown with the drop whose
   completion report armed it.
   */
  datatype ArmedAdvance = ArmedAdvance(topic: string, level: int)

  /** The timer was armed on a level of a catalog topic. */
  predicate ArmedAtCatalogLevel(a: ArmedAdvance)
  {
    a.topic in GameLevels && 1 <= a.level <= |GameLevels[a.topic]|
  }

  /** Every level of the catalog is among `AllLevels()`, so its id is a catalog id. */
  lemma CatalogLevelListed(key: string, i: nat)
    requires key in GameLevels && i < |GameLevels[key]|
    ensures GameLevels[key][i].id in Elements(LevelIds(AllLevels()))
  {
    TopicTablesAgree();
    LevelsOfTopicsContain(TopicKeys, key, i);
    var all := AllLevels();
    var j :| 0 <= j < |all| && all[j] == GameLevels[key][i];
    assert LevelIds(all)[j] == GameLevels[key][i].id;
  }

  /** The levels of the listed topics include every level of each of them. */
  lemma {:induction false} LevelsOfTopicsContain(keys: seq<string>, key: string, i: nat)
    requires key in keys && key in GameLevels && i < |GameLevels[key]|
    ensures GameLevels[key][i] in LevelsOfTopics(keys)
  {
    var head := if keys[0] in GameLevels then GameLevels[keys[0]] else [];
    assert LevelsOfTopics(keys) == head + LevelsOfTopics(keys[1..]);
    if keys[0] == key {
      assert (head + LevelsOfTopics(keys[1..]))[i] == GameLevels[key][i];
    } else {
      assert key in keys[1..];
      LevelsOfTopicsContain(keys[1..], key, i);
    }
  }

  /**
   The progression state of the page: the selected topic, the current level,
   the completed level ids and the per-topic progress record, plus the armed
   auto-advance timers in the order they will fire (all wait 2 s; the source
   never cancels them).
   */
  class App {
    var selectedTopic: Option<string>
    var currentLevel: int
    var completedLevels: set<string>
    var topicProgress: map<string, nat>
    var pendingAdvances: seq<ArmedAdvance>

    /**
     The current level is a level number, within the selected topic's levels
     when a topic is selected, only catalog level ids are completed, and every
     armed timer remembers a level of the catalog.
     */
    ghost predicate Valid()
      reads this
    {
      && 1 <= currentLevel
      && (selectedTopic.Some? ==>
            selectedTopic.value in GameLevels && currentLevel <= |GameLevels[selectedTopic.value]|)
      && completedLevels <= Elements(LevelIds(AllLevels()))
      && forall k :: 0 <= k < |pendingAdvances| ==> ArmedAtCatalogLevel(pendingAdvances[k])
    }

    /** The first render: no topic, level 1, nothing completed. */
    constructor ()
      ensures Valid()
      ensures selectedTopic == None && currentLevel == 1
      ensures completedLevels == {} && topicProgress == map[] && pendingAdvances == []
    {
      selectedTopic := None;
      currentLevel := 1;
      completedLevels := {};
      topicProgress := map[];
      pendingAdvances := [];
    }

    /** `handleTopicSelect`: open a catalog topic at its first level. */
    method HandleTopicSelect(topicId: string)
      requires Valid() && topicId in GameTopics
      modifies this
      ensures Valid()
      ensures selectedTopic == Some(topicId) && currentLevel == 1
      ensures completedLevels == old(completedLevels) && topicProgress == old(topicProgress)
      ensures pendingAdvances == old(pendingAdvances)
    {
      TopicTablesAgree();
      CatalogWellFormed();
      selectedTopic := Some(topicId);
      currentLevel := 1;
    }

    /** `handleBackToTopics`: close the topic and return to level 1. */
    method HandleBackToTopics()
      requires Valid()
      modifies this
      ensures Valid()
      ensures selectedTopic == None && currentLevel == 1
      ensures completedLevels == old(completedLevels) && topicProgress == old(topicProgress)
      ensures pendingAdvances == old(pendingAdvances)
    {
      selectedTopic := None;
      currentLevel := 1;
    }

    /**
     `handleLevelComplete(levelId, score)`, called 1.5 s after the completing
     drop. The callback is the one rendered with that drop, so it sees the
     topic and level shown then (`shownTopic`, `shownLevel`), whatever the page
     shows now, and `levelId` is that level's id. It records the level as
     completed (the score is not used), and arms the auto-advance timer when
     the shown level has a next one. Returns whether the timer was armed.
     */
    method HandleLevelComplete(levelId: string, score: nat, shownTopic: string, shownLevel: int) returns (armed: bool)
      requires Valid()
      requires shownTopic in GameLevels && 1 <= shownLevel <= |GameLevels[shownTopic]|
      requires levelId == GameLevels[shownTopic][shownLevel - 1].id
      modifies this
      ensures Valid()
      ensures completedLevels == old(completedLevels) + {levelId}
      ensures levelId in old(completedLevels) ==> completedLevels == old(completedLevels)
      ensures armed <==> shownLevel < |GameLevels[shownTopic]|
      ensures pendingAdvances == old(pendingAdvances) + (if armed then [ArmedAdvance(shownTopic, shownLevel)] else [])
      ensures selectedTopic == old(selectedTopic) && currentLevel == old(currentLevel)
      ensures topicProgress == old(topicProgress)
    {
      CatalogLevelListed(shownTopic, shownLevel - 1);
      completedLevels := completedLevels + {levelId};
      var levels := GameLevels[shownTopic];
      armed := shownLevel < |levels|;
      if armed {
        pendingAdvances := pendingAdvances + [ArmedAdvance(shownTopic, shownLevel)];
      }
    }

    /**
     The oldest armed auto-advance timer fires, corrected: it moves to the next
     level only while the page still shows the topic and level it was armed
     for, that level has a next one, and that level is still completed. So it
     never leaves the topic's levels, never acts on a topic opened later, and
     only opens a level whose predecessor is completed. The source's timer
     adds one unconditionally (`FireAutoAdvanceAsWritten`).
     */
    method FireAutoAdvance() returns (advanced: bool)
      requires Valid() && |pendingAdvances| > 0
      modifies this
      ensures Valid()
      ensures pendingAdvances == old(pendingAdvances)[1..]
      ensures var a := old(pendingAdvances)[0];
        advanced <==> && old(selectedTopic) == Some(a.topic) && old(currentLevel) == a.level
                      && a.level < |GameLevels[a.topic]|
                      && GameLevels[a.topic][a.level - 1].id in completedLevels
      ensures currentLevel == old(currentLevel) + (if advanced then 1 else 0)
      ensures advanced ==> selectedTopic.Some? && GameLevels[selectedTopic.value][currentLevel - 2].id in completedLevels
      ensures selectedTopic == old(selectedTopic) && completedLevels == old(completedLevels)
      ensures topicProgress == old(topicProgress)
    {
      var a := pendingAdvances[0];
      assert ArmedAtCatalogLevel(a);
      pendingAdvances := pendingAdvances[1..];
      advanced := && selectedTopic == Some(a.topic) && currentLevel == a.level
                  && a.level < |GameLevels[a.topic]|
                  && GameLevels[a.topic][a.level - 1].id in completedLevels;
      if advanced {
        currentLevel := currentLevel + 1;
      }
    }

    /**
     The oldest armed auto-advance timer fires as the source writes it:
     `setCurrentLevel(prev => prev + 1)`, whatever the page shows. The result
     need not satisfy `Valid()`.
     */
    method FireAutoAdvanceAsWritten()
      requires |pendingAdvances| > 0
      modifies this
      ensures pendingAdvances == old(pendingAdvances)[1..]
      ensures currentLevel == AutoAdvanceAsWritten(old(currentLevel))
      ensures selectedTopic == old(selectedTopic) && completedLevels == old(completedLevels)
      ensures topicProgress == old(topicProgress)
    {
      pendingAdvances := pendingAdvances[1..];
      currentLevel := AutoAdvanceAsWritten(currentLevel);
    }

    /** `handleNextLevel`: advance while the selected topic has a next level. */
    method HandleNextLevel()
      requires Valid()
      modifies this
      ensures Valid()
      ensures currentLevel == if selectedTopic.Some?
                              then StepLevel(old(currentLevel), |GameLevels[selectedTopic.value]|)
                              else old(currentLevel)
      ensures selectedTopic == old(selectedTopic) && completedLevels == old(completedLevels)
      ensures topicProgress == old(topicProgress) && pendingAdvances == old(pendingAdvances)
    {
      if selectedTopic.Some? {
        var levels := GameLevels[selectedTopic.value];
        if currentLevel < |levels| {
          currentLevel := currentLevel + 1;
        }
      }
    }

    /** `handleResetProgress`: forget every completed level and the progress record. */
    method HandleResetProgress()
      requires Valid()
      modifies this
      ensures Valid()
      ensures completedLevels == {} && topicProgress == map[]
      ensures selectedTopic == old(selectedTopic) && currentLevel == old(currentLevel)
      ensures pendingAdvances == old(pendingAdvances)
    {
      completedLevels := {};
      topicProgress := map[];
    }

    /** The progress record holds, for every topic key, that topic's count of completed levels. */
    ghost predicate ProgressInSync()
      reads this
    {
      && topicProgress.Keys == Elements(TopicKeys)
      && forall topicId :: topicId in topicProgress ==> topicProgress[topicId] == TopicProgress(topicId, completedLevels)
    }

    /**
     The progress effect that runs after `completedLevels` changes: build the
     record topic by topic over `Object.keys(GAME_TOPICS)` and store it.
     */
    method SyncTopicProgress()
      requires Valid()
      modifies this
      ensures Valid() && ProgressInSync()
      ensures selectedTopic == old(selectedTopic) && currentLevel == old(currentLevel)
      ensures completedLevels == old(completedLevels) && pendingAdvances == old(pendingAdvances)
    {
      var progress: map<string, nat> := map[];
      var i := 0;
      while i < |TopicKeys|
        invariant 0 <= i <= |TopicKeys|
        invariant progress.Keys == Elements(TopicKeys[..i])
        invariant forall topicId :: topicId in progress ==> progress[topicId] == TopicProgress(topicId, completedLevels)
      {
        var topicId := TopicKeys[i];
        assert TopicKeys[..i + 1] == TopicKeys[..i] + [topicId];
        progress := progress[topicId := TopicProgress(topicId, completedLevels)];
        i := i + 1;
      }
      assert TopicKeys[..i] == TopicKeys;
      topicProgress := progress;
    }

    /** `totalCompleted`: the number of completed levels. */
    function TotalCompleted(): (r: nat)
      reads this
      requires Valid()
      ensures r <= TotalLevels()
    {
      SubsetOfElementsBound(completedLevels, LevelIds(AllLevels()));
      |completedLevels|
    }

    /** The overall progress percentage shown on the page. */
    function OverallPercent(): (r: nat)
      reads this
      requires Valid()
      ensures r <= 100
      ensures TotalLevels() * (2 * r - 1) <= 200 * |completedLevels| < TotalLevels() * (2 * r + 1)
    {
      TotalLevelsValue();
      RoundedPercent(TotalCompleted(), TotalLevels())
    }

    /** Once in sync, the topic entries add up to the number of completed levels. */
    lemma ProgressAddsUp()
      requires Valid() && ProgressInSync()
      ensures ProgressSum(TopicKeys, completedLevels) == |completedLevels|
      ensures forall topicId :: topicId in topicProgress ==> topicProgress[topicId] <= |GameLevels[topicId]|
    {
      CatalogTotals(completedLevels);
      TopicTablesAgree();
    }
  }

  /**
   Completing `digestive-1` and pressing "Topics" before the 1.5 s delay ends:
   the report still arrives and is recorded, and it arms the auto-advance
   timer for the level it was shown with.
   */
  method LateReportRecorded() returns (completed: set<string>, topic: Option<string>, level: int, armed: seq<ArmedAdvance>)
    ensures completed == {"digestive-1"}
    ensures topic == None && level == 1
    ensures armed == [ArmedAdvance("digestive", 1)]
  {
    var app := new App();
    app.HandleTopicSelect("digestive");
    app.HandleBackToTopics();
    var _ := app.HandleLevelComplete("digestive-1", 90, "digestive", 1);
    completed, topic, level, armed := app.completedLevels, app.selectedTopic, app.currentLevel, app.pendingAdvances;
  }

  /**
   The timer armed by completing `flower-1` fires after the player has gone
   back and opened `digestive`. As written it opens `digestive` at level 2,
   although `digestive-1` has not been completed.
   */
  method StaleAdvanceAsWritten() returns (topic: Option<string>, level: int, completed: set<string>)
    ensures topic == Some("digestive") && level == 2
    ensures "digestive-1" !in completed
  {
    var app := SwitchTopicWhileArmed();
    app.FireAutoAdvanceAsWritten();
    topic, level, completed := app.selectedTopic, app.currentLevel, app.completedLevels;
  }

  /** The same play with the corrected timer: `digestive` stays at level 1. */
  method StaleAdvanceCorrected() returns (topic: Option<string>, level: int, advanced: bool)
    ensures topic == Some("digestive") && level == 1 && !advanced
  {
    var app := SwitchTopicWhileArmed();
    advanced := app.FireAutoAdvance();
    topic, level := app.selectedTopic, app.currentLevel;
  }

  /**
   Open `flower`, complete `flower-1`, press "Topics" and open `digestive`
   before the 2 s timer fires: the timer armed for flower level 1 is pending.
   */
  method SwitchTopicWhileArmed() returns (app: App)
    ensures fresh(app) && app.Valid()
    ensures app.selectedTopic == Some("digestive") && app.currentLevel == 1
    ensures app.completedLevels == {"flower-1"}
    ensures app.pendingAdvances == [ArmedAdvance("flower", 1)]
  {
    CatalogWellFormed();
    assert GameLevels["flower"] == FlowerLevels;
    app := new App();
    app.HandleTopicSelect("flower");
    var _ := app.HandleLevelComplete("flower-1", 90, "flower", 1);
    app.HandleBackToTopics();
    app.HandleTopicSelect("digestive");
  }

  /**
   Completing `digestive-3` arms the timer; pressing "Next Level" before it
   fires shows level 4, the last one. As written the timer then sets level 5,
   past the topic's four levels.
   */
  method OvershootAsWritten() returns (level: int, count: nat)
    ensures count == 4 && level == 5
  {
    var app := NextLevelWhileArmed();
    app.FireAutoAdvanceAsWritten();
    level, count := app.currentLevel, |GameLevels["digestive"]|;
  }

  /** The same play with the corrected timer: the page stays at level 4. */
  method OvershootCorrected() returns (level: int, advanced: bool)
    ensures level == 4 && !advanced
  {
    var app := NextLevelWhileArmed();
    advanced := app.FireAutoAdvance();
    level := app.currentLevel;
  }

  /**
   Open `digestive`, step to level 3, complete it and press "Next Level"
   before the 2 s timer fires: the page shows level 4 and the timer armed
   for level 3 is pending.
   */
  method NextLevelWhileArmed() returns (app: App)
    ensures fresh(app) && app.Valid()
    ensures app.selectedTopic == Some("digestive") && app.currentLevel == 4
    ensures |GameLevels["digestive"]| == 4
    ensures app.pendingAdvances == [ArmedAdvance("digestive", 3)]
  {
    CatalogWellFormed();
    assert GameLevels["digestive"] == DigestiveLevels;
    app := new App();
    app.HandleTopicSelect("digestive");
    app.HandleNextLevel();
    app.HandleNextLevel();
    var _ := app.HandleLevelComplete("digestive-3", 90, "digestive", 3);
    app.HandleNextLevel();
  }
}
