/** The checks that fill a violation table: keyword search per line and per
    file (`checkLine`, `checkFile`) and the LICENSE / NOTICE file checks. */
module Scanner {
  import opened Options
  import opened Text
  import opened Config
  import opened Violations

  const WarningId := "LGL-4"
  const WarningText := "Third-party code license warning"
  const CategoryB := "categoryB"
  const CategoryX := "categoryX"

  /** The violation `checkLine` records when keyword `license` occurs in `line`. */
  function Warning(license: string, category: string, line: string): Violation
  {
    CreateViolation(WarningId, WarningText, Some(license), Some(category), Some(line))
  }

  // ---------------------------------------------------------------------------
  // Keyword search in one line

  /** The keywords of `licenses` that occur in `line`, in list order, a keyword
      listed twice kept twice. */
  function Matches(line: string, licenses: seq<string>): seq<string>
  {
    if licenses == [] then []
    else
      var last := licenses[|licenses| - 1];
      Matches(line, licenses[..|licenses| - 1]) + (if Contains(line, last) then [last] else [])
  }

  /** Every match is a listed keyword that occurs in the line, and there is no
      match exactly when no listed keyword occurs in the line. */
  lemma {:induction false} MatchesSound(line: string, licenses: seq<string>)
    ensures forall k :: k in Matches(line, licenses) ==> k in licenses && Contains(line, k)
    ensures Matches(line, licenses) == [] <==> forall k :: k in licenses ==> !Contains(line, k)
    decreases |licenses|
  {
    if licenses != [] {
      var init, last := licenses[..|licenses| - 1], licenses[|licenses| - 1];
      assert licenses == init + [last];
      var tail := if Contains(line, last) then [last] else [];
      assert Matches(line, licenses) == Matches(line, init) + tail;
      assert forall k :: k in licenses <==> k in init || k == last;
      assert forall k :: k in Matches(line, licenses) <==> k in Matches(line, init) || k in tail;
      MatchesSound(line, init);
    }
  }

  /** Adding one keyword at the end adds it to the matches exactly when it occurs. */
  lemma MatchesSnoc(line: string, licenses: seq<string>, k: string)
    ensures Matches(line, licenses + [k]) == Matches(line, licenses) + if Contains(line, k) then [k] else []
  {
  }

  /** Searching a concatenated keyword list finds the matches of the first part,
      then those of the second. */
  lemma {:induction false} MatchesAppend(line: string, a: seq<string>, b: seq<string>)
    ensures Matches(line, a + b) == Matches(line, a) + Matches(line, b)
    decreases |b|
  {
    if b == [] {
      assert a + b == a;
    } else {
      var init := b[..|b| - 1];
      assert b == init + [b[|b| - 1]];
      assert a + b == (a + init) + [b[|b| - 1]];
      MatchesSnoc(line, a + init, b[|b| - 1]);
      MatchesSnoc(line, init, b[|b| - 1]);
      MatchesAppend(line, a, init);
    }
  }

  /** A keyword occurs among the matches exactly as often as it is listed when
      it occurs in the line, and not at all otherwise. */
  lemma {:induction false} MatchesMultiplicity(line: string, licenses: seq<string>, k: string)
    ensures multiset(Matches(line, licenses))[k]
      == if Contains(line, k) then multiset(licenses)[k] else 0
    decreases |licenses|
  {
    if licenses != [] {
      var init, last := licenses[..|licenses| - 1], licenses[|licenses| - 1];
      assert licenses == init + [last];
      MatchesMultiplicity(line, init, k);
    }
  }

  /** The number of keywords of `licenses`, with repeats, that occur in `line`. */
  function CountIn(line: string, licenses: seq<string>): nat
  {
    if licenses == [] then 0
    else (if Contains(line, licenses[0]) then 1 else 0) + CountIn(line, licenses[1..])
  }

  /** One match per keyword that occurs in the line. */
  lemma {:induction false} MatchesCount(line: string, licenses: seq<string>)
    ensures |Matches(line, licenses)| == CountIn(line, licenses)
    decreases |licenses|
  {
    if licenses != [] {
      assert licenses == [licenses[0]] + licenses[1..];
      MatchesAppend(line, [licenses[0]], licenses[1..]);
      assert [licenses[0]][..0] == [];
      MatchesCount(line, licenses[1..]);
    }
  }

  /** The violations `checkLine` appends for `line`: one warning per matching
      keyword, in list order. */
  function LineViolations(line: string, licenses: seq<string>, category: string): (vs: seq<Violation>)
    ensures |vs| == |Matches(line, licenses)|
  {
    var ms := Matches(line, licenses);
    seq(|ms|, i requires 0 <= i < |ms| => Warning(ms[i], category, line))
  }

  /** The record `checkLine` appends for the `i`-th match: id `LGL-4`, the
      warning text, the matched keyword as license, the category and the line,
      each optional field dropped when it is empty. */
  lemma LineViolationsFields(line: string, licenses: seq<string>, category: string, i: int)
    requires 0 <= i < |Matches(line, licenses)|
    ensures
      var v := LineViolations(line, licenses, category)[i];
      var k := Matches(line, licenses)[i];
      && v.id == WarningId
      && v.description == WarningText
      && v.license == (if k == "" then None else Some(k))
      && v.licenseCategory == (if category == "" then None else Some(category))
      && v.line == (if line == "" then None else Some(line))
  {
  }

  /** Line violations of a concatenated keyword list concatenate. */
  lemma LineViolationsAppend(line: string, a: seq<string>, b: seq<string>, category: string)
    ensures LineViolations(line, a + b, category)
      == LineViolations(line, a, category) + LineViolations(line, b, category)
  {
    MatchesAppend(line, a, b);
  }

  /** Extending the keyword list by one keyword appends its warning if it matches. */
  lemma LineViolationsSnoc(line: string, licenses: seq<string>, i: int, category: string)
    requires 0 <= i < |licenses|
    ensures LineViolations(line, licenses[..i + 1], category)
      == LineViolations(line, licenses[..i], category)
         + if Contains(line, licenses[i]) then [Warning(licenses[i], category, line)] else []
  {
    assert licenses[..i + 1] == licenses[..i] + [licenses[i]];
    assert [licenses[i]][..0] == [];
    LineViolationsAppend(line, licenses[..i], [licenses[i]], category);
  }

  /** A keyword that occurs in the line yields its warning. */
  lemma LineViolationsComplete(line: string, licenses: seq<string>, category: string, k: string)
    requires k in licenses && Contains(line, k)
    ensures Warning(k, category, line) in LineViolations(line, licenses, category)
  {
    MatchesMultiplicity(line, licenses, k);
    var ms := Matches(line, licenses);
    assert k in multiset(ms);
    var i :| 0 <= i < |ms| && ms[i] == k;
    assert LineViolations(line, licenses, category)[i] == Warning(k, category, line);
  }

  /** Every line violation is the warning of a listed keyword that occurs in the line. */
  lemma LineViolationsSound(line: string, licenses: seq<string>, category: string, v: Violation)
    requires v in LineViolations(line, licenses, category)
    ensures exists k :: k in licenses && Contains(line, k) && v == Warning(k, category, line)
  {
    MatchesSound(line, licenses);
  }

  // ---------------------------------------------------------------------------
  // Keyword search in one file

  /** The violations `checkFile` appends for a file with these lines: for each
      line, stripped of trailing whitespace, the category-B warnings and then the
      category-X warnings. */
  function FileViolations(lines: seq<string>, categoryB: seq<string>, categoryX: seq<string>): seq<Violation>
  {
    if lines == [] then []
    else
      var line := RStrip(lines[|lines| - 1]);
      FileViolations(lines[..|lines| - 1], categoryB, categoryX)
        + LineViolations(line, categoryB, CategoryB)
        + LineViolations(line, categoryX, CategoryX)
  }

  /** File violations of concatenated line lists concatenate. */
  lemma {:induction false} FileViolationsAppend(a: seq<string>, b: seq<string>, categoryB: seq<string>, categoryX: seq<string>)
    ensures FileViolations(a + b, categoryB, categoryX)
      == FileViolations(a, categoryB, categoryX) + FileViolations(b, categoryB, categoryX)
    decreases |b|
  {
    if b == [] {
      assert a + b == a;
    } else {
      assert (a + b)[..|a + b| - 1] == a + b[..|b| - 1];
      FileViolationsAppend(a, b[..|b| - 1], categoryB, categoryX);
    }
  }

  /** Violations are ordered line by line, and within a line category B comes
      before category X. */
  lemma FileViolationsLineByLine(
    before: seq<string>, line: string, after: seq<string>, categoryB: seq<string>, categoryX: seq<string>)
    ensures FileViolations(before + [line] + after, categoryB, categoryX)
      == FileViolations(before, categoryB, categoryX)
         + LineViolations(RStrip(line), categoryB, CategoryB)
         + LineViolations(RStrip(line), categoryX, CategoryX)
         + FileViolations(after, categoryB, categoryX)
  {
    FileViolationsAppend(before + [line], after, categoryB, categoryX);
    FileViolationsAppend(before, [line], categoryB, categoryX);
    assert [line][..0] == [];
  }

  /** The number of keyword matches of both categories over all stripped lines. */
  function FileMatchCount(lines: seq<string>, categoryB: seq<string>, categoryX: seq<string>): nat
  {
    if lines == [] then 0
    else
      CountIn(RStrip(lines[0]), categoryB) + CountIn(RStrip(lines[0]), categoryX)
        + FileMatchCount(lines[1..], categoryB, categoryX)
  }

  /** One violation per keyword match, summed over the lines. */
  lemma {:induction false} FileViolationsCount(lines: seq<string>, categoryB: seq<string>, categoryX: seq<string>)
    ensures |FileViolations(lines, categoryB, categoryX)| == FileMatchCount(lines, categoryB, categoryX)
    decreases |lines|
  {
    if lines != [] {
      assert lines == [] + [lines[0]] + lines[1..];
      FileViolationsLineByLine([], lines[0], lines[1..], categoryB, categoryX);
      MatchesCount(RStrip(lines[0]), categoryB);
      MatchesCount(RStrip(lines[0]), categoryX);
      FileViolationsCount(lines[1..], categoryB, categoryX);
    }
  }

  /** A keyword of either category occurring in a stripped line is recorded
      with that category and that line. */
  lemma FileViolationsComplete(lines: seq<string>, categoryB: seq<string>, categoryX: seq<string>, j: int, k: string)
    requires 0 <= j < |lines| && Contains(RStrip(lines[j]), k)
    ensures k in categoryB ==> Warning(k, CategoryB, RStrip(lines[j])) in FileViolations(lines, categoryB, categoryX)
    ensures k in categoryX ==> Warning(k, CategoryX, RStrip(lines[j])) in FileViolations(lines, categoryB, categoryX)
  {
    var line := RStrip(lines[j]);
    assert lines == lines[..j] + [lines[j]] + lines[j + 1..];
    FileViolationsLineByLine(lines[..j], lines[j], lines[j + 1..], categoryB, categoryX);
    if k in categoryB {
      LineViolationsComplete(line, categoryB, CategoryB, k);
    }
    if k in categoryX {
      LineViolationsComplete(line, categoryX, CategoryX, k);
    }
  }

  /** Violation `v` is the warning for keyword `k` of one category found in line `j`. */
  ghost predicate Explains(lines: seq<string>, categoryB: seq<string>, categoryX: seq<string>, v: Violation, j: int, k: string)
  {
    && 0 <= j < |lines|
    && Contains(RStrip(lines[j]), k)
    && ((k in categoryB && v == Warning(k, CategoryB, RStrip(lines[j])))
        || (k in categoryX && v == Warning(k, CategoryX, RStrip(lines[j]))))
  }

  /** Every file violation is explained by a keyword match in some line; in
      particular a file none of whose lines contains a keyword yields none. */
  lemma {:induction false} FileViolationsSound(lines: seq<string>, categoryB: seq<string>, categoryX: seq<string>, v: Violation)
    requires v in FileViolations(lines, categoryB, categoryX)
    ensures exists j, k :: Explains(lines, categoryB, categoryX, v, j, k)
    decreases |lines|
  {
    var n := |lines| - 1;
    var init, line := lines[..n], RStrip(lines[n]);
    if v in FileViolations(init, categoryB, categoryX) {
      FileViolationsSound(init, categoryB, categoryX, v);
      var j, k :| Explains(init, categoryB, categoryX, v, j, k);
      assert lines[j] == init[j];
      assert Explains(lines, categoryB, categoryX, v, j, k);
    } else if v in LineViolations(line, categoryB, CategoryB) {
      LineViolationsSound(line, categoryB, CategoryB, v);
      var k :| k in categoryB && Contains(line, k) && v == Warning(k, CategoryB, line);
      assert Explains(lines, categoryB, categoryX, v, n, k);
    } else {
      LineViolationsSound(line, categoryX, CategoryX, v);
      var k :| k in categoryX && Contains(line, k) && v == Warning(k, CategoryX, line);
      assert Explains(lines, categoryB, categoryX, v, n, k);
    }
  }

  /** A one-line file whose stripped line contains the single category-X
      keyword `k` (and no category-B keyword is configured) yields exactly one
      warning: id `LGL-4`, license `k`, category X and the stripped line. */
  lemma SingleCategoryXMatch(raw: string, k: string)
    requires k != "" && Contains(RStrip(raw), k)
    ensures FileViolations([raw], [], [k])
      == [Violation(WarningId, WarningText, Some(k), Some(CategoryX), Some(RStrip(raw)))]
  {
  }

  // ---------------------------------------------------------------------------
  // LICENSE and NOTICE files

  const MissingLicense := CreateViolation("LGL-1", "Missing LICENSE file", None, None, None)
  const MissingNotice := CreateViolation("LGL-2", "Missing NOTICE file", None, None, None)

  /** The violation for a LICENSE file that lacks the required string `m`. */
  function NotMatching(m: string): Violation
  {
    CreateViolation("LGL-1", "LICENSE file not matching '" + m + "'", None, None, None)
  }

  /** The index of the first required string absent from `content`, if any. */
  function FirstMissing(content: string, required: seq<string>): (r: Option<nat>)
    ensures r.None? <==> forall j :: 0 <= j < |required| ==> Contains(content, required[j])
    ensures r.Some? ==> r.value < |required| && !Contains(content, required[r.value])
    ensures r.Some? ==> forall j :: 0 <= j < r.value ==> Contains(content, required[j])
  {
    if required == [] then None
    else if !Contains(content, required[0]) then Some(0)
    else match FirstMissing(content, required[1..])
      case None => None
      case Some(i) => Some(i + 1)
  }

  /** How `checkLicenseFile` ends: normally, or by raising `KeyError` on a
      missing dictionary key. */
  datatype Outcome = Completed | KeyError(key: string)

  /** `checkLicenseFile` as written, given the glob result `globs` and the
      content of its first file: the new table and how the call ends. A missing
      required string creates an empty "LICENSE" entry but appends its
      violation under `globs[0]`, which raises `KeyError` unless that key
      already exists. */
  function LicenseCheckAsWritten(t: Table, globs: seq<string>, content: string, required: seq<string>): (r: (Table, Outcome))
    ensures r.1.KeyError? <==>
      globs != [] && FirstMissing(content, required).Some? && globs[0] != "LICENSE" && globs[0] !in t
    ensures r.1.KeyError? ==> r.1.key == globs[0]
    ensures globs == [] ==> r == (Appended(t, "LICENSE", [MissingLicense]), Completed)
    ensures globs != [] && FirstMissing(content, required).None? ==> r == (t, Completed)
    ensures globs != [] && FirstMissing(content, required).Some? ==>
      var created := if "LICENSE" in t then t else t["LICENSE" := []];
      && "LICENSE" in r.0
      && (r.1 == Completed ==>
            r.0 == created[globs[0] := created[globs[0]] + [NotMatching(required[FirstMissing(content, required).value])]])
      && (r.1.KeyError? ==> r.0 == created)
  {
    if globs == [] then (Appended(t, "LICENSE", [MissingLicense]), Completed)
    else match FirstMissing(content, required)
      case None => (t, Completed)
      case Some(i) =>
        var created := if "LICENSE" in t then t else t["LICENSE" := []];
        if globs[0] in created then
          (created[globs[0] := created[globs[0]] + [NotMatching(required[i])]], Completed)
        else
          (created, KeyError(globs[0]))
  }

  /** With a LICENSE file whose name is not a key, a missing required string
      makes the check raise instead of recording a violation. */
  lemma LicenseCheckAsWrittenRaises()
    ensures LicenseCheckAsWritten(map[], ["LICENSE.txt"], "", ["Apache License"]).1 == KeyError("LICENSE.txt")
  {
  }

  /** When the check does not raise on a file named other than "LICENSE", it
      leaves an empty "LICENSE" entry behind. */
  lemma LicenseCheckAsWrittenLeavesEmptyEntry(v: Violation)
    ensures LicenseCheckAsWritten(map["LICENSE.txt" := [v]], ["LICENSE.txt"], "", ["Apache License"])
      == (map["LICENSE.txt" := [v, NotMatching("Apache License")], "LICENSE" := []], Completed)
    ensures Recorded(map["LICENSE.txt" := [v]])
    ensures !Recorded(LicenseCheckAsWritten(map["LICENSE.txt" := [v]], ["LICENSE.txt"], "", ["Apache License"]).0)
  {
    assert FirstMissing("", ["Apache License"]) == Some(0);
    var t := map["LICENSE.txt" := [v]];
    var created := t["LICENSE" := []];
    assert created["LICENSE.txt"] == [v];
    assert [v] + [NotMatching("Apache License")] == [v, NotMatching("Apache License")];
    assert created["LICENSE.txt" := [v, NotMatching("Apache License")]]
      == map["LICENSE.txt" := [v, NotMatching("Apache License")], "LICENSE" := []];
  }

  /** `checkLicenseFile` as evidently intended: the violation for the first
      missing required string is appended under "LICENSE", the key the check
      creates for it. */
  function LicenseCheck(t: Table, globs: seq<string>, content: string, required: seq<string>): (r: Table)
    ensures forall k :: k != "LICENSE" ==> (k in r <==> k in t)
    ensures forall k :: k in t && k != "LICENSE" ==> r[k] == t[k]
    ensures Recorded(t) ==> Recorded(r)
    ensures globs != [] && (forall j :: 0 <= j < |required| ==> Contains(content, required[j])) ==> r == t
    ensures globs == [] ==> Under(r, "LICENSE") == Under(t, "LICENSE") + [MissingLicense]
    ensures globs != [] && FirstMissing(content, required).Some? ==>
      Under(r, "LICENSE") == Under(t, "LICENSE") + [NotMatching(required[FirstMissing(content, required).value])]
  {
    if globs == [] then Appended(t, "LICENSE", [MissingLicense])
    else match FirstMissing(content, required)
      case None => t
      case Some(i) => Appended(t, "LICENSE", [NotMatching(required[i])])
  }

  /** Where the code as written neither raises nor strands an empty entry (no
      LICENSE file, or a first file named exactly "LICENSE"), it agrees with the
      intended check. */
  lemma LicenseCheckAgreesWhenNamedLicense(t: Table, globs: seq<string>, content: string, required: seq<string>)
    requires globs == [] || globs[0] == "LICENSE"
    ensures LicenseCheckAsWritten(t, globs, content, required) == (LicenseCheck(t, globs, content, required), Completed)
  {
    if globs != [] && FirstMissing(content, required).Some? {
      var added := Under(t, "LICENSE") + [NotMatching(required[FirstMissing(content, required).value])];
      var created := if "LICENSE" in t then t else t["LICENSE" := []];
      assert created["LICENSE"] == Under(t, "LICENSE");
      assert created["LICENSE" := added] == t["LICENSE" := added];
    }
  }

  /** `checkNoticeFile`: only a missing NOTICE file is reported; there is no
      content check. */
  function NoticeCheck(t: Table, globs: seq<string>): (r: Table)
    ensures globs != [] ==> r == t
    ensures globs == [] ==> r.Keys == t.Keys + {"NOTICE"}
    ensures globs == [] ==> Under(r, "NOTICE") == Under(t, "NOTICE") + [MissingNotice]
    ensures forall k :: k in t && k != "NOTICE" ==> r[k] == t[k]
  {
    if globs == [] then Appended(t, "NOTICE", [MissingNotice]) else t
  }

  /** The table after the NOTICE and LICENSE checks of a fresh scan, in the
      order the project scan runs them, when neither file exists. */
  lemma MissingFilesTable(required: seq<string>)
    ensures LicenseCheck(NoticeCheck(map[], []), [], "", required)
      == map["NOTICE" := [MissingNotice], "LICENSE" := [MissingLicense]]
  {
    var empty: Table := map[];
    assert Under(empty, "NOTICE") == [];
    assert [] + [MissingNotice] == [MissingNotice];
    var notice := NoticeCheck(empty, []);
    assert notice == empty["NOTICE" := [MissingNotice]];
    assert "LICENSE" !in notice;
    assert [] + [MissingLicense] == [MissingLicense];
  }

  /** No line of the file contains a keyword of either category. */
  ghost predicate NoKeyword(lines: seq<string>, categoryB: seq<string>, categoryX: seq<string>)
  {
    forall j, k :: 0 <= j < |lines| && (k in categoryB || k in categoryX) ==> !Contains(RStrip(lines[j]), k)
  }

  /** A project with neither a LICENSE nor a NOTICE file and no keyword in
      any line: exactly the two pseudo-path entries, one violation each. */
  lemma MissingFilesOnly(config: Config, path: string, lines: seq<string>)
    requires NoKeyword(lines, config.categoryB, config.categoryX)
    ensures
      Appended(LicenseCheck(NoticeCheck(map[], []), [], "", config.licenseFileMatches),
               path, FileViolations(lines, config.categoryB, config.categoryX))
        == map["NOTICE" := [MissingNotice], "LICENSE" := [MissingLicense]]
  {
    var fv := FileViolations(lines, config.categoryB, config.categoryX);
    if fv != [] {
      FileViolationsSound(lines, config.categoryB, config.categoryX, fv[0]);
      assert false;
    }
    MissingFilesTable(config.licenseFileMatches);
  }

  // ---------------------------------------------------------------------------
  // The shared accumulator

  /** The `violations` dictionary of one project scan, which every check
      extends in place. */
  class Accumulator {
    var violations: Table

    /** A fresh scan starts with no violations. */
    constructor ()
      ensures violations == map[]
    {
      violations := map[];
    }

    /** `checkLine`: appends one warning per keyword of `licenses` found in
        `line`, under `filePath`, creating the key on the first match. */
    method CheckLine(filePath: string, line: string, licenses: seq<string>, category: string)
      modifies this
      ensures violations == Appended(old(violations), filePath, LineViolations(line, licenses, category))
      ensures forall k :: k != filePath ==> (k in violations <==> k in old(violations))
      ensures forall k :: k in old(violations) && k != filePath ==> violations[k] == old(violations)[k]
      ensures Under(old(violations), filePath) <= Under(violations, filePath)
      ensures (forall k :: k in licenses ==> !Contains(line, k)) ==> violations == old(violations)
    {
      for i := 0 to |licenses|
        invariant violations == Appended(old(violations), filePath, LineViolations(line, licenses[..i], category))
      {
        var license := licenses[i];
        ghost var before := violations;
        if Contains(line, license) {
          if filePath !in violations {
            violations := violations[filePath := []];
          }
          var violation := CreateViolation(WarningId, WarningText, Some(license), Some(category), Some(line));
          violations := violations[filePath := violations[filePath] + [violation]];
        }
        assert violations == Appended(before, filePath, if Contains(line, license) then [Warning(license, category, line)] else []);
        LineViolationsSnoc(line, licenses, i, category);
        AppendedTwice(old(violations), filePath, LineViolations(line, licenses[..i], category),
          if Contains(line, license) then [Warning(license, category, line)] else []);
      }
      assert licenses[..|licenses|] == licenses;
      MatchesSound(line, licenses);
    }

    /** `checkFile`: scans the file `root + "/" + name`, given as its lines,
        line by line with trailing whitespace stripped, category B before
        category X. */
    method CheckFile(config: Config, root: string, name: string, lines: seq<string>)
      modifies this
      ensures violations == Appended(old(violations), root + "/" + name,
        FileViolations(lines, config.categoryB, config.categoryX))
    {
      var filePath := root + "/" + name;
      for i := 0 to |lines|
        invariant violations == Appended(old(violations), filePath,
          FileViolations(lines[..i], config.categoryB, config.categoryX))
      {
        var line := RStrip(lines[i]);
        CheckLine(filePath, line, config.categoryB, CategoryB);
        CheckLine(filePath, line, config.categoryX, CategoryX);
        ghost var done := FileViolations(lines[..i], config.categoryB, config.categoryX);
        AppendedTwice(old(violations), filePath, done, LineViolations(line, config.categoryB, CategoryB));
        AppendedTwice(old(violations), filePath, done + LineViolations(line, config.categoryB, CategoryB),
          LineViolations(line, config.categoryX, CategoryX));
        assert lines[..i + 1][..i] == lines[..i];
      }
      assert lines[..|lines|] == lines;
    }

    /** `checkLicenseFile`, given the glob result and the content of its first
        file; `KeyError` stands for the exception the code raises. */
    method CheckLicenseFile(globs: seq<string>, content: string, required: seq<string>) returns (outcome: Outcome)
      modifies this
      ensures (violations, outcome) == LicenseCheckAsWritten(old(violations), globs, content, required)
    {
      outcome := Completed;
      if globs == [] {
        if "LICENSE" !in violations {
          violations := violations["LICENSE" := []];
        }
        violations := violations["LICENSE" := violations["LICENSE"] + [MissingLicense]];
        assert violations == old(violations)["LICENSE" := Under(old(violations), "LICENSE") + [MissingLicense]];
      } else {
        var i := 0;
        while i < |required|
          invariant 0 <= i <= |required|
          invariant forall j :: 0 <= j < i ==> Contains(content, required[j])
          invariant violations == old(violations)
        {
          if !Contains(content, required[i]) {
            assert FirstMissing(content, required) == Some(i);
            if "LICENSE" !in violations {
              violations := violations["LICENSE" := []];
            }
            if globs[0] !in violations {
              outcome := KeyError(globs[0]);
              return;
            }
            violations := violations[globs[0] := violations[globs[0]] + [NotMatching(required[i])]];
            assert (violations, outcome) == LicenseCheckAsWritten(old(violations), globs, content, required);
            break;
          }
          i := i + 1;
        }
        assert FirstMissing(content, required).None? ==> violations == old(violations);
      }
    }

    /** `checkNoticeFile`, given the glob result. */
    method CheckNoticeFile(globs: seq<string>)
      modifies this
      ensures violations == NoticeCheck(old(violations), globs)
    {
      if globs == [] {
        if "NOTICE" !in violations {
          violations := violations["NOTICE" := []];
        }
        violations := violations["NOTICE" := violations["NOTICE"] + [MissingNotice]];
      }
    }
  }
}
