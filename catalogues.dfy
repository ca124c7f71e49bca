/** The score-column catalogues: internal key to display label, in the
    insertion order that the views iterate. */
module Catalogues {

  type Catalogue = seq<(string, string)>

  function Keys(cat: Catalogue): (keys: seq<string>)
    ensures |keys| == |cat|
    ensures forall i :: 0 <= i < |cat| ==> keys[i] == cat[i].0
  {
    seq(|cat|, i requires 0 <= i < |cat| => cat[i].0)
  }

  function Labels(cat: Catalogue): (labels: seq<string>)
    ensures |labels| == |cat|
    ensures forall i :: 0 <= i < |cat| ==> labels[i] == cat[i].1
  {
    seq(|cat|, i requires 0 <= i < |cat| => cat[i].1)
  }

  /** `score_columns[key]` for a key of the catalogue. */
  function LabelOf(cat: Catalogue, key: string): (name: string)
    requires key in Keys(cat)
    ensures exists i :: 0 <= i < |cat| && cat[i] == (key, name)
  {
    if cat[0].0 == key then cat[0].1
    else
      assert Keys(cat) == [cat[0].0] + Keys(cat[1..]);
      var name := LabelOf(cat[1..], key);
      assert exists i :: 0 <= i < |cat[1..]| && cat[1..][i] == (key, name);
      name
  }

  /** The EGRA catalogue of the single-test views (2. zero scores, 4. language
      effect, 5. correlations). */
  const EgraScores: Catalogue := [
    ("clpm", "Lettres Correctes Par Minute"),
    ("phoneme", "Phonème"),
    ("sound_word", "Mot Lu Correctement"),
    ("cwpm", "Mots Corrects Par Minute"),
    ("listening", "Écoute"),
    ("orf", "Fluidité de Lecture Orale"),
    ("comprehension", "Compréhension")
  ]

  /** The thirteen EGRA and EGMA scores of views 7, 8, 10, 11 and 13. */
  const AllScores: Catalogue := EgraScores + [
    ("number_id", "Identification des Nombres"),
    ("discrimin", "Discrimination des Nombres"),
    ("missing_number", "Nombre Manquant"),
    ("addition", "Addition"),
    ("subtraction", "Soustraction"),
    ("problems", "Résolution de Problèmes")
  ]

  /** View 9's catalogue: "quantity" stands where the others have "discrimin". */
  const PracticeScores: Catalogue := EgraScores + [
    ("number_id", "Identification des Nombres"),
    ("quantity", "Quantité"),
    ("missing_number", "Nombre Manquant"),
    ("addition", "Addition"),
    ("subtraction", "Soustraction"),
    ("problems", "Résolution de Problèmes")
  ]

  /** The option lists of the two column pickers: the first half of the keys
      (rounded down) on the left, the rest on the right. */
  function SplitOptions(keys: seq<string>): (halves: (seq<string>, seq<string>))
    ensures |halves.0| == |keys| / 2
    ensures halves.0 + halves.1 == keys
  {
    (keys[..|keys| / 2], keys[|keys| / 2..])
  }

  /** Whatever the two pickers return, every picked column is a key. */
  lemma PickedAreKeys(keys: seq<string>, left: seq<string>, right: seq<string>)
    requires forall c :: c in left ==> c in SplitOptions(keys).0
    requires forall c :: c in right ==> c in SplitOptions(keys).1
    ensures forall c :: c in left + right ==> c in keys
  {
    var h := SplitOptions(keys);
    assert h.0 + h.1 == keys;
  }

  /** With distinct keys the two pickers never offer the same column. */
  lemma SplitOptionsDisjoint(keys: seq<string>)
    requires forall i, j :: 0 <= i < j < |keys| ==> keys[i] != keys[j]
    ensures forall c :: c in SplitOptions(keys).0 ==> c !in SplitOptions(keys).1
  {
    var h := SplitOptions(keys);
    forall i, j | 0 <= i < |h.0| && 0 <= j < |h.1|
      ensures h.0[i] != h.1[j]
    {
      assert h.0[i] == keys[i] && h.1[j] == keys[|keys| / 2 + j];
    }
  }

  /** The thirteen score keys, in catalogue order. */
  lemma AllScoreKeys()
    ensures Keys(AllScores) == ["clpm", "phoneme", "sound_word", "cwpm", "listening", "orf", "comprehension",
                                "number_id", "discrimin", "missing_number", "addition", "subtraction", "problems"]
  {
  }

  /** The catalogue facts the views rely on. */
  lemma CatalogueShapes()
    ensures |Keys(EgraScores)| == 7 && |Keys(AllScores)| == 13 && |Keys(PracticeScores)| == 13
    ensures Keys(AllScores) == ["clpm", "phoneme", "sound_word", "cwpm", "listening", "orf", "comprehension",
                                "number_id", "discrimin", "missing_number", "addition", "subtraction", "problems"]
    ensures Keys(AllScores)[..6] == ["clpm", "phoneme", "sound_word", "cwpm", "listening", "orf"]
    ensures SplitOptions(Keys(EgraScores)).0 == ["clpm", "phoneme", "sound_word"]
    ensures SplitOptions(Keys(AllScores)).0 == ["clpm", "phoneme", "sound_word", "cwpm", "listening", "orf"]
    ensures "discrimin" !in Keys(PracticeScores) && "discrimin" in Keys(AllScores)
  {
    assert Keys(AllScores)[8] == "discrimin";
  }

  /** The language group the analysis derives is not a score. */
  lemma LanguageGroupNotScore()
    ensures "language_group" !in Keys(AllScores)
  {
    AllScoreKeys();
  }

  /** Nor is the gender the boys-versus-girls view derives. */
  lemma GenderNotScore()
    ensures "gender" !in Keys(AllScores)
  {
    AllScoreKeys();
  }

  /** Nor is the total it derives. */
  lemma TotalScoreNotScore()
    ensures "total_score" !in Keys(AllScores)
  {
    AllScoreKeys();
  }

  /** `list(score_columns.keys())[:6]`: the scores views 10 and 13 test. */
  function FirstSixScores(): (cols: seq<string>)
    ensures cols == ["clpm", "phoneme", "sound_word", "cwpm", "listening", "orf"]
    ensures forall c :: c in cols ==> c in Keys(AllScores)
  {
    CatalogueShapes();
    Keys(AllScores)[..6]
  }
}
