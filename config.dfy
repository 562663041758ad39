/** The options the scanner reads from its configuration document, and the
    exclusion expression built from the excluded-file patterns. */
module Config {
  import opened Text

  /** The configuration keys the checks read: `excluded_files_list`,
      `category_b_licenses`, `category_x_licenses` and `license_file_matches`. */
  datatype Config = Config(
    excludedFiles: seq<string>,
    categoryB: seq<string>,
    categoryX: seq<string>,
    licenseFileMatches: seq<string>)

  /** The value stored under `excluded_files_re`: the excluded-file patterns
      joined as `"(" + ")|(".join(patterns) + ")"`. */
  function ExclusionPattern(config: Config): (r: string)
    ensures config.excludedFiles == [] ==> r == "()"
    ensures |r| >= 2 && r[0] == '(' && r[|r| - 1] == ')'
  {
    "(" + Join(")|(", config.excludedFiles) + ")"
  }

  /** One pattern wrapped as a regular-expression group. */
  function Group(p: string): string
  {
    "(" + p + ")"
  }

  /** Every pattern wrapped as a group, in order. */
  function Groups(patterns: seq<string>): (gs: seq<string>)
    ensures |gs| == |patterns|
  {
    if patterns == [] then [] else [Group(patterns[0])] + Groups(patterns[1..])
  }

  /** For a non-empty list of excluded-file patterns the exclusion expression
      is the alternation `(p1)|(p2)|...|(pn)` of the patterns, each in its own
      group. */
  lemma {:induction false} ExclusionPatternIsAlternation(config: Config)
    requires config.excludedFiles != []
    ensures ExclusionPattern(config) == Join("|", Groups(config.excludedFiles))
    decreases |config.excludedFiles|
  {
    var patterns := config.excludedFiles;
    if |patterns| == 1 {
      assert Groups(patterns) == [Group(patterns[0])];
    } else {
      var rest := config.(excludedFiles := patterns[1..]);
      ExclusionPatternIsAlternation(rest);
      assert Groups(patterns)[1..] == Groups(rest.excludedFiles);
      calc {
        ExclusionPattern(config);
        "(" + (patterns[0] + ")|(" + Join(")|(", rest.excludedFiles)) + ")";
        { assert "(" + (patterns[0] + ")|(" + Join(")|(", rest.excludedFiles)) + ")"
            == Group(patterns[0]) + "|" + ("(" + Join(")|(", rest.excludedFiles) + ")"); }
        Group(patterns[0]) + "|" + ExclusionPattern(rest);
        Group(patterns[0]) + "|" + Join("|", Groups(rest.excludedFiles));
        Join("|", Groups(patterns));
      }
    }
  }
}
