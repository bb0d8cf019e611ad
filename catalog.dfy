/**
 The content catalog (`src/types/game.ts`): the record shapes of topics,
 levels, diagram points and placed labels, and the constant tables
 `GAME_TOPICS` and `GAME_LEVELS`, with the data invariants the engine relies on.
 Strings are kept exactly as the source file stores them; non-ASCII characters
 are written as escapes (the source's subscript "2" in CO2, H2O and O2 is stored
 as the three characters U+201A U+00C7 U+00C7).
 */
module Catalog {
  import opened Text
  import opened Seqs

  datatype Category = Anatomy | Botany | Cellular | Ecology | Biochemistry

  /** `GameTopic`. */
  datatype GameTopic = GameTopic(id: string, title: string, description: string, icon: string, category: Category)

  /** `GameLevel`: `level` is the 1-based ordinal within its topic. */
  datatype GameLevel = GameLevel(id: string, level: nat, title: string, labels: seq<string>, totalLabels: nat, description: string)

  /** `DiagramPoint`: a drop target expecting `correctLabel`, at (x, y) percent of the diagram. */
  datatype DiagramPoint = DiagramPoint(id: string, x: int, y: int, correctLabel: string)

  /** `LabelPosition`: a label placed on the point with the same id (`label` is a Dafny keyword, so the label itself is `text`). */
  datatype LabelPosition = LabelPosition(id: string, text: string, x: int, y: int, isCorrect: bool)

  /** The keys of `GAME_TOPICS`, in the order `Object.keys` yields them. */
  const TopicKeys: seq<string> := ["digestive", "flower", "plantCell", "foodWeb", "photosynthesis"]

  /** `GAME_TOPICS`, keyed by topic id. */
  const GameTopics: map<string, GameTopic> := map[
    "digestive" := GameTopic("digestive", "Human Digestive System",
      "Learn the anatomy of the human digestive system", "\U{F8FF}\U{00FC}\U{00B4}\U{00C5}", Anatomy),
    "flower" := GameTopic("flower", "Plant Flower Anatomy",
      "Identify parts of a flowering plant", "\U{F8FF}\U{00FC}\U{00E5}\U{220F}", Botany),
    "plantCell" := GameTopic("plantCell", "Plant Cell Structure",
      "Explore organelles in plant cells", "\U{F8FF}\U{00FC}\U{00EE}\U{00A8}", Cellular),
    "foodWeb" := GameTopic("foodWeb", "Ecological Food Web",
      "Understand ecosystem relationships", "\U{F8FF}\U{00FC}\U{00E5}\U{00F8}", Ecology),
    "photosynthesis" := GameTopic("photosynthesis", "Photosynthesis Pathway",
      "Follow the process of photosynthesis", "\U{201A}\U{00F2}\U{00C4}\U{00D4}\U{220F}\U{00E8}", Biochemistry)
  ]

  /** `GAME_LEVELS.digestive`. */
  const DigestiveLevels: seq<GameLevel> := [
    GameLevel("digestive-1", 1, "Basic Organs",
      ["Mouth", "Stomach", "Intestine"],
      3, "Identify the three main digestive organs"),
    GameLevel("digestive-2", 2, "Extended System",
      ["Mouth", "Esophagus", "Stomach", "Small Intestine", "Large Intestine"],
      5, "Add the esophagus and separate intestinal sections"),
    GameLevel("digestive-3", 3, "Detailed Structure",
      ["Mouth", "Esophagus", "Stomach", "Duodenum", "Small Intestine", "Large Intestine", "Rectum"],
      7, "Include specific intestinal regions"),
    GameLevel("digestive-4", 4, "Complete System",
      ["Mouth", "Esophagus", "Stomach", "Liver", "Pancreas", "Gallbladder", "Duodenum", "Jejunum", "Ileum", "Large Intestine", "Rectum", "Anus"],
      12, "Master the complete digestive system anatomy")
  ]

  /** `GAME_LEVELS.flower`. */
  const FlowerLevels: seq<GameLevel> := [
    GameLevel("flower-1", 1, "Basic Parts",
      ["Petal", "Stamen", "Carpel"],
      3, "Identify the main reproductive structures"),
    GameLevel("flower-2", 2, "Protective Parts",
      ["Petal", "Sepal", "Stamen", "Carpel"],
      4, "Add the protective sepals"),
    GameLevel("flower-3", 3, "Detailed Structure",
      ["Petal", "Sepal", "Anther", "Filament", "Stigma", "Style", "Ovary"],
      7, "Break down reproductive organs into components"),
    GameLevel("flower-4", 4, "Complete Anatomy",
      ["Petal", "Sepal", "Anther", "Filament", "Stigma", "Style", "Ovary", "Receptacle", "Pedicel"],
      9, "Master all flower parts including support structures")
  ]

  /** `GAME_LEVELS.plantCell`. */
  const PlantCellLevels: seq<GameLevel> := [
    GameLevel("plantCell-1", 1, "Basic Structure",
      ["Nucleus", "Vacuole", "Cell Wall"],
      3, "Identify fundamental plant cell features"),
    GameLevel("plantCell-2", 2, "Cell Boundaries",
      ["Nucleus", "Vacuole", "Cell Wall", "Cytoplasm", "Cell Membrane"],
      5, "Add cellular boundaries and interior"),
    GameLevel("plantCell-3", 3, "Energy Organelles",
      ["Nucleus", "Vacuole", "Cell Wall", "Cytoplasm", "Cell Membrane", "Chloroplast", "Mitochondria"],
      7, "Include energy-producing organelles"),
    GameLevel("plantCell-4", 4, "Complete Organelles",
      ["Nucleus", "Vacuole", "Cell Wall", "Cytoplasm", "Cell Membrane", "Chloroplast", "Mitochondria", "Ribosome", "Golgi Apparatus", "ER", "Plasmodesmata"],
      11, "Master all major plant cell organelles")
  ]

  /** `GAME_LEVELS.foodWeb`. */
  const FoodWebLevels: seq<GameLevel> := [
    GameLevel("foodWeb-1", 1, "Basic Roles",
      ["Producer", "Consumer"],
      2, "Understand basic energy flow roles"),
    GameLevel("foodWeb-2", 2, "Consumer Types",
      ["Producer", "Primary Consumer", "Secondary Consumer"],
      3, "Distinguish between consumer levels"),
    GameLevel("foodWeb-3", 3, "Extended Chain",
      ["Producer", "Primary Consumer", "Secondary Consumer", "Tertiary Consumer"],
      4, "Add apex predators to the chain"),
    GameLevel("foodWeb-4", 4, "Complete Web",
      ["Producer", "Primary Consumer", "Secondary Consumer", "Tertiary Consumer", "Decomposer", "Omnivore"],
      6, "Master complex ecological relationships")
  ]

  /** `GAME_LEVELS.photosynthesis`. */
  const PhotosynthesisLevels: seq<GameLevel> := [
    GameLevel("photosynthesis-1", 1, "Basic Components",
      ["Sun", "CO\U{201A}\U{00C7}\U{00C7}", "Glucose"],
      3, "Identify energy source, input, and output"),
    GameLevel("photosynthesis-2", 2, "Water Addition",
      ["Sun", "CO\U{201A}\U{00C7}\U{00C7}", "H\U{201A}\U{00C7}\U{00C7}O", "Glucose"],
      4, "Add water as an essential input"),
    GameLevel("photosynthesis-3", 3, "Oxygen Production",
      ["Sun", "CO\U{201A}\U{00C7}\U{00C7}", "H\U{201A}\U{00C7}\U{00C7}O", "Glucose", "O\U{201A}\U{00C7}\U{00C7}"],
      5, "Include oxygen as a byproduct"),
    GameLevel("photosynthesis-4", 4, "Complete Process",
      ["Sun", "CO\U{201A}\U{00C7}\U{00C7}", "H\U{201A}\U{00C7}\U{00C7}O", "Glucose", "O\U{201A}\U{00C7}\U{00C7}", "Chlorophyll", "Stomata", "Leaf Cell"],
      8, "Master all components and structures involved")
  ]
  /** `GAME_LEVELS`, keyed by topic id. */
  const GameLevels: map<string, seq<GameLevel>> := map[
    "digestive" := DigestiveLevels,
    "flower" := FlowerLevels,
    "plantCell" := PlantCellLevels,
    "foodWeb" := FoodWebLevels,
    "photosynthesis" := PhotosynthesisLevels
  ]

  /** The id of level `n` of topic `key`: `${key}-${n}`. */
  function LevelId(key: string, n: nat): string
  {
    key + "-" + NatToString(n)
  }

  /** The i-th level (0-based) of topic `key` is well formed. */
  predicate LevelWellFormed(key: string, i: nat, l: GameLevel)
  {
    && l.level == i + 1
    && l.id == LevelId(key, i + 1)
    && l.totalLabels == |l.labels|
    && l.labels != []
    && Distinct(l.labels)
  }

  /** Every level of a topic is well formed, and each has more labels than the one before. */
  predicate TopicLevelsWellFormed(key: string, levels: seq<GameLevel>)
  {
    && (forall i :: 0 <= i < |levels| ==> LevelWellFormed(key, i, levels[i]))
    && (forall i :: 0 < i < |levels| ==> levels[i - 1].totalLabels < levels[i].totalLabels)
  }

  /** In `${key}-${n}` the digits of `n` come last, right after a `-`. */
  lemma LevelIdShape(key: string, n: nat)
    ensures var s, d := LevelId(key, n), NatToString(n);
      && s[|s| - |d| - 1] == '-'
      && forall j :: |s| - |d| <= j < |s| ==> '0' <= s[j] <= '9'
  {
  }

  /** `${key}-${n}` determines both the key and the number: the digits of `n` hold no `-`. */
  lemma LevelIdInjective(k1: string, n1: nat, k2: string, n2: nat)
    requires LevelId(k1, n1) == LevelId(k2, n2)
    ensures k1 == k2 && n1 == n2
  {
    var s, d1, d2 := LevelId(k1, n1), NatToString(n1), NatToString(n2);
    LevelIdShape(k1, n1);
    LevelIdShape(k2, n2);
    assert |d1| == |d2|;
    assert d1 == s[|s| - |d1|..];
    assert d2 == s[|s| - |d2|..];
    NatToStringInjective(n1, n2);
    assert k1 == s[..|k1|];
    assert k2 == s[..|k2|];
  }

  lemma DigestiveLevel1LabelsDistinct() ensures Distinct(DigestiveLevels[0].labels) {}
  lemma DigestiveLevel2LabelsDistinct() ensures Distinct(DigestiveLevels[1].labels) {}
  lemma DigestiveLevel3LabelsDistinct() ensures Distinct(DigestiveLevels[2].labels) {}
  lemma DigestiveLevel4LabelsDistinct() ensures Distinct(DigestiveLevels[3].labels) {}

  lemma FlowerLevel1LabelsDistinct() ensures Distinct(FlowerLevels[0].labels) {}
  lemma FlowerLevel2LabelsDistinct() ensures Distinct(FlowerLevels[1].labels) {}
  lemma FlowerLevel3LabelsDistinct() ensures Distinct(FlowerLevels[2].labels) {}
  lemma FlowerLevel4LabelsDistinct() ensures Distinct(FlowerLevels[3].labels) {}

  lemma PlantCellLevel1LabelsDistinct() ensures Distinct(PlantCellLevels[0].labels) {}
  lemma PlantCellLevel2LabelsDistinct() ensures Distinct(PlantCellLevels[1].labels) {}
  lemma PlantCellLevel3LabelsDistinct() ensures Distinct(PlantCellLevels[2].labels) {}
  lemma PlantCellLevel4LabelsDistinct() ensures Distinct(PlantCellLevels[3].labels) {}

  lemma FoodWebLevel1LabelsDistinct() ensures Distinct(FoodWebLevels[0].labels) {}
  lemma FoodWebLevel2LabelsDistinct() ensures Distinct(FoodWebLevels[1].labels) {}
  lemma FoodWebLevel3LabelsDistinct() ensures Distinct(FoodWebLevels[2].labels) {}
  lemma FoodWebLevel4LabelsDistinct() ensures Distinct(FoodWebLevels[3].labels) {}

  lemma PhotosynthesisLevel1LabelsDistinct() ensures Distinct(PhotosynthesisLevels[0].labels) {}
  lemma PhotosynthesisLevel2LabelsDistinct() ensures Distinct(PhotosynthesisLevels[1].labels) {}
  lemma PhotosynthesisLevel3LabelsDistinct() ensures Distinct(PhotosynthesisLevels[2].labels) {}
  lemma PhotosynthesisLevel4LabelsDistinct() ensures Distinct(PhotosynthesisLevels[3].labels) {}

  lemma DigestiveLevelsWellFormed()
    ensures |DigestiveLevels| == 4 && TopicLevelsWellFormed("digestive", DigestiveLevels)
  {
    DigestiveLevel1LabelsDistinct(); DigestiveLevel2LabelsDistinct(); DigestiveLevel3LabelsDistinct(); DigestiveLevel4LabelsDistinct();
    var ls := DigestiveLevels;
    assert LevelWellFormed("digestive", 0, ls[0]);
    assert LevelWellFormed("digestive", 1, ls[1]);
    assert LevelWellFormed("digestive", 2, ls[2]);
    assert LevelWellFormed("digestive", 3, ls[3]);
  }

  lemma FlowerLevelsWellFormed()
    ensures |FlowerLevels| == 4 && TopicLevelsWellFormed("flower", FlowerLevels)
  {
    FlowerLevel1LabelsDistinct(); FlowerLevel2LabelsDistinct(); FlowerLevel3LabelsDistinct(); FlowerLevel4LabelsDistinct();
    var ls := FlowerLevels;
    assert LevelWellFormed("flower", 0, ls[0]);
    assert LevelWellFormed("flower", 1, ls[1]);
    assert LevelWellFormed("flower", 2, ls[2]);
    assert LevelWellFormed("flower", 3, ls[3]);
  }

  lemma PlantCellLevelsWellFormed()
    ensures |PlantCellLevels| == 4 && TopicLevelsWellFormed("plantCell", PlantCellLevels)
  {
    PlantCellLevel1LabelsDistinct(); PlantCellLevel2LabelsDistinct(); PlantCellLevel3LabelsDistinct(); PlantCellLevel4LabelsDistinct();
    var ls := PlantCellLevels;
    assert LevelWellFormed("plantCell", 0, ls[0]);
    assert LevelWellFormed("plantCell", 1, ls[1]);
    assert LevelWellFormed("plantCell", 2, ls[2]);
    assert LevelWellFormed("plantCell", 3, ls[3]);
  }

  lemma FoodWebLevelsWellFormed()
    ensures |FoodWebLevels| == 4 && TopicLevelsWellFormed("foodWeb", FoodWebLevels)
  {
    FoodWebLevel1LabelsDistinct(); FoodWebLevel2LabelsDistinct(); FoodWebLevel3LabelsDistinct(); FoodWebLevel4LabelsDistinct();
    var ls := FoodWebLevels;
    assert LevelWellFormed("foodWeb", 0, ls[0]);
    assert LevelWellFormed("foodWeb", 1, ls[1]);
    assert LevelWellFormed("foodWeb", 2, ls[2]);
    assert LevelWellFormed("foodWeb", 3, ls[3]);
  }

  lemma PhotosynthesisLevelsWellFormed()
    ensures |PhotosynthesisLevels| == 4 && TopicLevelsWellFormed("photosynthesis", PhotosynthesisLevels)
  {
    PhotosynthesisLevel1LabelsDistinct(); PhotosynthesisLevel2LabelsDistinct(); PhotosynthesisLevel3LabelsDistinct(); PhotosynthesisLevel4LabelsDistinct();
    var ls := PhotosynthesisLevels;
    assert LevelWellFormed("photosynthesis", 0, ls[0]);
    assert LevelWellFormed("photosynthesis", 1, ls[1]);
    assert LevelWellFormed("photosynthesis", 2, ls[2]);
    assert LevelWellFormed("photosynthesis", 3, ls[3]);
  }

  /**
   Every topic has exactly four levels; level i (1-based) has `level == i`, the
   id `${topic}-${i}`, a non-empty list of distinct labels whose length is
   `totalLabels`, and more labels than level i-1.
   */
  lemma CatalogWellFormed()
    ensures forall key :: key in GameLevels ==>
      |GameLevels[key]| == 4 && TopicLevelsWellFormed(key, GameLevels[key])
  {
    DigestiveLevelsWellFormed();
    FlowerLevelsWellFormed();
    PlantCellLevelsWellFormed();
    FoodWebLevelsWellFormed();
    PhotosynthesisLevelsWellFormed();
  }

  /** `GAME_TOPICS` and `GAME_LEVELS` have the same keys, and every topic's id is its key. */
  lemma TopicTablesAgree()
    ensures Distinct(TopicKeys)
    ensures GameTopics.Keys == GameLevels.Keys == Elements(TopicKeys)
    ensures forall key :: key in GameTopics ==> GameTopics[key].id == key
  {
  }
}
