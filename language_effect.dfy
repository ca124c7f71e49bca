/** Language effect (analyse4.py): the home-language group of every student
    (the rule list shared with the contextual-factors view), descriptive
    statistics of the selected EGRA scores per group under flattened column
    names, and the per-indicator column filter of the Word report. */
module LanguageEffect {
  import opened Wrappers
  import opened Frames
  import opened Catalogues
  import opened SignificanceTests
  import opened ContextualFactors

  /** The eight statistics `describe()` reports for each column, in order. */
  const StatNames: seq<string> := ["count", "mean", "std", "min", "25%", "50%", "75%", "max"]

  /** `'_'.join((key, stat)).strip()`: neither part carries surrounding
      blanks, so the strip removes nothing. */
  function FlatName(key: string, stat: string): (name: string)
    ensures key + "_" <= name
    ensures |name| == |key| + 1 + |stat|
  {
    key + "_" + stat
  }

  /** The flattened names of one key's statistics. */
  function StatColumns(key: string): (names: seq<string>)
    ensures |names| == |StatNames|
    ensures forall j :: 0 <= j < |StatNames| ==> names[j] == FlatName(key, StatNames[j])
  {
    seq(|StatNames|, j requires 0 <= j < |StatNames| => FlatName(key, StatNames[j]))
  }

  /** The statistics columns after flattening: key by key, and within a key
      in `describe()` order. */
  function Flatten(keys: seq<string>): (names: seq<string>)
    ensures |names| == 8 * |keys|
  {
    if keys == [] then []
    else Flatten(keys[..|keys| - 1]) + StatColumns(keys[|keys| - 1])
  }

  /** `stats_by_language.reset_index()`: the group label comes first. */
  function ReportColumns(keys: seq<string>): (columns: seq<string>)
    ensures |columns| == 1 + 8 * |keys|
    ensures columns[0] == "language_group" && columns[1..] == Flatten(keys)
  {
    ["language_group"] + Flatten(keys)
  }

  /** The flattened names are exactly the (key, statistic) pairs. */
  lemma {:induction false} FlattenMembers(keys: seq<string>)
    ensures forall c :: c in Flatten(keys) <==>
              exists k, s :: k in keys && s in StatNames && c == FlatName(k, s)
  {
    if keys != [] {
      var init, last := keys[..|keys| - 1], keys[|keys| - 1];
      FlattenMembers(init);
      assert keys == init + [last];
      forall c | c in StatColumns(last)
        ensures exists s :: s in StatNames && c == FlatName(last, s)
      {
        var j :| 0 <= j < |StatNames| && StatColumns(last)[j] == c;
        assert StatNames[j] in StatNames;
      }
      forall s | s in StatNames
        ensures FlatName(last, s) in StatColumns(last)
      {
        var j :| 0 <= j < |StatNames| && StatNames[j] == s;
        assert StatColumns(last)[j] == FlatName(last, s);
      }
    }
  }

  // --------------------------------------------------------- report filter

  /** `[c for c in stats_df.columns if c.startswith(f"{col}_") or c ==
      "language_group"]`. */
  function SectionColumns(columns: seq<string>, key: string): (kept: seq<string>)
    ensures forall c :: c in kept <==> c in columns && (key + "_" <= c || c == "language_group")
    ensures IsSubsequence(kept, columns)
  {
    if columns == [] then []
    else if key + "_" <= columns[0] || columns[0] == "language_group" then
      [columns[0]] + SectionColumns(columns[1..], key)
    else
      var rest := SectionColumns(columns[1..], key);
      assert rest != [] ==> rest[0] in rest && rest[0] != columns[0];
      rest
  }

  /** A selected key's section shows the group label and every one of the
      key's statistics. */
  lemma SectionKeepsOwnStats(keys: seq<string>, key: string)
    requires key in keys
    ensures "language_group" in SectionColumns(ReportColumns(keys), key)
    ensures forall s :: s in StatNames ==> FlatName(key, s) in SectionColumns(ReportColumns(keys), key)
  {
    FlattenMembers(keys);
    assert ReportColumns(keys) == ["language_group"] + Flatten(keys);
  }

  /** No key followed by "_" starts another key followed by "_". */
  predicate PrefixFree(keys: seq<string>) {
    forall a, b :: a in keys && b in keys && a + "_" <= b + "_" ==> a == b
  }

  /** Two prefixes of one sequence: the shorter is a prefix of the longer. */
  lemma ShorterPrefix(p: seq<char>, q: seq<char>, x: seq<char>)
    requires p <= x && q <= x && |p| <= |q|
    ensures p <= q
  {
    assert forall i :: 0 <= i < |p| ==> p[i] == x[i] == q[i];
  }

  /** With prefix-free keys the section of a key holds the group label and
      that key's statistics, and nothing of any other key. */
  lemma SectionExact(keys: seq<string>, key: string)
    requires PrefixFree(keys) && key in keys
    ensures forall c :: c in SectionColumns(ReportColumns(keys), key) <==>
              c == "language_group" || exists s :: s in StatNames && c == FlatName(key, s)
  {
    var columns := ReportColumns(keys);
    assert columns == ["language_group"] + Flatten(keys);
    FlattenMembers(keys);
    forall c | c in SectionColumns(columns, key) && c != "language_group"
      ensures exists s :: s in StatNames && c == FlatName(key, s)
    {
      assert c in Flatten(keys);
      var b, s :| b in keys && s in StatNames && c == FlatName(b, s);
      assert key + "_" <= c && b + "_" <= c;
      if |key| <= |b| {
        ShorterPrefix(key + "_", b + "_", c);
      } else {
        ShorterPrefix(b + "_", key + "_", c);
      }
    }
  }

  /** Keys that are at least two characters long and pairwise differ in
      their first two characters. */
  predicate DistinctStarts(keys: seq<string>) {
    (forall i :: 0 <= i < |keys| ==> |keys[i]| >= 2)
    && forall i, j :: 0 <= i < j < |keys| ==> keys[i][..2] != keys[j][..2]
  }

  lemma DistinctStartsPrefixFree(keys: seq<string>)
    requires DistinctStarts(keys)
    ensures PrefixFree(keys) && NoDuplicates(keys)
  {
    forall a, b | a in keys && b in keys && a + "_" <= b + "_"
      ensures a == b
    {
      var i :| 0 <= i < |keys| && keys[i] == a;
      var j :| 0 <= j < |keys| && keys[j] == b;
      assert (a + "_")[..2] == a[..2] && (b + "_")[..2] == b[..2];
      assert a[..2] == b[..2];
      assert i == j;
    }
  }

  /** The seven EGRA keys differ in their first two letters. */
  lemma EgraDistinctStarts()
    ensures DistinctStarts(Keys(EgraScores))
  {
    var keys := Keys(EgraScores);
    assert keys[0] == "clpm" && keys[1] == "phoneme" && keys[2] == "sound_word" && keys[3] == "cwpm";
    assert keys[4] == "listening" && keys[5] == "orf" && keys[6] == "comprehension";
    assert keys[0][..2] == "cl" && keys[1][..2] == "ph" && keys[2][..2] == "so" && keys[3][..2] == "cw";
    assert keys[4][..2] == "li" && keys[5][..2] == "or" && keys[6][..2] == "co";
  }

  /** The EGRA pickers: three keys on the left, four on the right, never
      the same key on both sides. */
  lemma EgraPickers()
    ensures |SplitOptions(Keys(EgraScores)).0| == 3 && |SplitOptions(Keys(EgraScores)).1| == 4
    ensures forall c :: c in SplitOptions(Keys(EgraScores)).0 ==> c !in SplitOptions(Keys(EgraScores)).1
  {
    EgraDistinctStarts();
    DistinctStartsPrefixFree(Keys(EgraScores));
    SplitOptionsDisjoint(Keys(EgraScores));
  }

  /** Every EGRA key is among the thirteen scores. */
  lemma EgraKeysAreScores()
    ensures forall c :: c in Keys(EgraScores) ==> c in Keys(AllScores)
  {
    forall i | 0 <= i < |EgraScores|
      ensures Keys(EgraScores)[i] in Keys(AllScores)
    {
      assert Keys(AllScores)[i] == Keys(EgraScores)[i];
    }
  }

  /** For any selection from the two pickers, each selected key's report
      section is exactly its own statistics beside the group label. */
  lemma SelectedSectionsExact(left: seq<string>, right: seq<string>, key: string)
    requires forall c :: c in left ==> c in SplitOptions(Keys(EgraScores)).0
    requires forall c :: c in right ==> c in SplitOptions(Keys(EgraScores)).1
    requires key in left + right
    ensures forall c :: c in SectionColumns(ReportColumns(left + right), key) <==>
              c == "language_group" || exists s :: s in StatNames && c == FlatName(key, s)
  {
    PickedAreKeys(Keys(EgraScores), left, right);
    EgraDistinctStarts();
    DistinctStartsPrefixFree(Keys(EgraScores));
    assert PrefixFree(left + right);
    SectionExact(left + right, key);
  }

  // ------------------------------------------------------------------ view

  /** `describe().round(2)` on one sample: eight values, NaN where pandas
      has none (the statistics themselves are not modelled). */
  type Summary = seq<Option<real>>
  type Describe = seq<real> -> Summary

  /** The statistics table: its flattened columns, one row per language
      group, and per group the summary of every selected score. */
  datatype LanguageStats = LanguageStats(columns: seq<string>, groups: seq<string>, summaries: seq<seq<Summary>>)

  /** Every student's group label. */
  function GroupLabels(rows: seq<Row>): (labels: seq<string>)
    ensures |labels| == |rows|
    ensures forall i :: 0 <= i < |rows| ==> labels[i] in ContextualFactors.Groups
  {
    seq(|rows|, i requires 0 <= i < |rows| =>
      LanguageGroup(CellAt(rows[i], EnglishHome), CellAt(rows[i], DutchHome), CellAt(rows[i], OtherHome)))
  }

  /** `groupby("language_group")[keys].describe()` on the table that has the
      group column. */
  function GroupStats(rows: seq<Row>, groups: seq<string>, keys: seq<string>, describe: Describe): seq<seq<Summary>> {
    seq(|groups|, g requires 0 <= g < |groups| =>
      seq(|keys|, k requires 0 <= k < |keys| => describe(Sample(rows, "language_group", groups[g], keys[k]))))
  }

  /** `show_language_effect`: an empty selection gives the warning; a failing
      group column or an absent selected score gives the error; otherwise
      the statistics table. */
  function LanguageEffect(f: Frame, left: seq<string>, right: seq<string>, describe: Describe): (r: Result<LanguageStats>)
    requires forall c :: c in left ==> c in SplitOptions(Keys(EgraScores)).0
    requires forall c :: c in right ==> c in SplitOptions(Keys(EgraScores)).1
    ensures r == Err(NoSelection) <==> left + right == []
    ensures r.Ok? <==> left + right != [] && LanguageColumn(f.columns, f.rows).Ok?
                       && forall c :: c in left + right ==> c in f.columns
    ensures r.Err? && left + right != [] ==> r.failure.MissingColumn?
    ensures r.Ok? ==> r.value.columns == ReportColumns(left + right)
                      && r.value.groups == Distinct(GroupLabels(f.rows))
    ensures r.Ok? ==> var g := WithColumn(f, "language_group", LanguageColumn(f.columns, f.rows).value);
                      |r.value.summaries| == |r.value.groups|
                      && forall i, k :: 0 <= i < |r.value.groups| && 0 <= k < |left + right| ==>
                           |r.value.summaries[i]| == |left + right|
                           && r.value.summaries[i][k] == describe(Sample(g.rows, "language_group", r.value.groups[i], (left + right)[k]))
  {
    var selected := left + right;
    if selected == [] then Err(NoSelection)
    else
      match LanguageColumn(f.columns, f.rows)
      case Err(e) => Err(e)
      case Ok(langs) =>
        var g := WithColumn(f, "language_group", langs);
        SelectionNotDerived(left, right);
        RequireIgnoresNewColumn(f, "language_group", langs, selected);
        match Require(g, selected)
        case Err(e) => Err(e)
        case Ok(_) =>
          var groups := Distinct(GroupLabels(f.rows));
          Ok(LanguageStats(ReportColumns(selected), groups, GroupStats(g.rows, groups, selected, describe)))
  }

  /** No pickable EGRA score is the derived group column. */
  lemma SelectionNotDerived(left: seq<string>, right: seq<string>)
    requires forall c :: c in left ==> c in SplitOptions(Keys(EgraScores)).0
    requires forall c :: c in right ==> c in SplitOptions(Keys(EgraScores)).1
    ensures "language_group" !in left + right
  {
    PickedAreKeys(Keys(EgraScores), left, right);
    EgraKeysAreScores();
    LanguageGroupNotScore();
  }

  /** The view on the caller's table: the copy gains the group column, the
      caller's table is left as it was. */
  method ShowLanguageEffect(df: DataFrame, left: seq<string>, right: seq<string>, describe: Describe)
    returns (r: Result<LanguageStats>)
    requires forall c :: c in left ==> c in SplitOptions(Keys(EgraScores)).0
    requires forall c :: c in right ==> c in SplitOptions(Keys(EgraScores)).1
    ensures r == LanguageEffect(df.View(), left, right, describe)
    ensures df.View() == old(df.View())
  {
    var selected := left + right;
    if selected == [] {
      return Err(NoSelection);
    }
    var langs := LanguageColumn(df.columns, df.rows);
    if langs.Err? {
      return Err(langs.failure);
    }
    ghost var f := df.View();
    SelectionNotDerived(left, right);
    var analysis := new DataFrame.Copy(df);
    analysis.Assign("language_group", langs.value);
    RequireIgnoresNewColumn(f, "language_group", langs.value, selected);
    var present := Require(analysis.View(), selected);
    if present.Err? {
      return Err(present.failure);
    }
    var groups := Distinct(GroupLabels(df.rows));
    r := Ok(LanguageStats(ReportColumns(selected), groups, GroupStats(analysis.rows, groups, selected, describe)));
  }

  // ---------------------------------------------------------------- groups

  /** The table's groups are exactly the labels its students receive, each
      once, and always among the eight of the rule list. */
  lemma GroupsAreStudentLabels(f: Frame, left: seq<string>, right: seq<string>, describe: Describe)
    requires forall c :: c in left ==> c in SplitOptions(Keys(EgraScores)).0
    requires forall c :: c in right ==> c in SplitOptions(Keys(EgraScores)).1
    requires LanguageEffect(f, left, right, describe).Ok?
    ensures var groups := LanguageEffect(f, left, right, describe).value.groups;
            NoDuplicates(groups)
            && (forall g :: g in groups ==> g in ContextualFactors.Groups)
            && forall i :: 0 <= i < |f.rows| ==> GroupLabels(f.rows)[i] in groups
  {
    var labels := GroupLabels(f.rows);
    assert forall i :: 0 <= i < |f.rows| ==> labels[i] in labels;
  }

  /** A student's values count in the sample of their own group and of no
      other: the group column holds their label. */
  lemma GroupColumnHoldsLabel(f: Frame, i: nat)
    requires LanguageColumn(f.columns, f.rows).Ok? && i < |f.rows|
    ensures var g := WithColumn(f, "language_group", LanguageColumn(f.columns, f.rows).value);
            forall name :: IsText(g.rows[i], "language_group", name) <==> name == GroupLabels(f.rows)[i]
  {
  }
}
