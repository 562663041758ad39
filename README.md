# Legal-report violation accumulation, modelled in Dafny

This project models the checking and aggregation logic of the legal-report
license scanner (`legal-report/legal_report_utils.py`). One project scan
collects its compliance violations in a dictionary that maps a file path, or
one of the pseudo-paths `"LICENSE"` and `"NOTICE"`, to a list of violation
records. The following operations extend that dictionary in place:

- `checkLine` looks for each keyword of a license list as a literal,
  case-sensitive substring of one line. It appends an `LGL-4` warning for
  every keyword it finds.
- `checkFile` runs `checkLine` over a file's lines. Each line has its
  trailing whitespace stripped. Category B is checked before category X.
- `checkLicenseFile` and `checkNoticeFile` report a missing LICENSE file
  (`LGL-1`) or NOTICE file (`LGL-2`). `checkLicenseFile` also reports a
  LICENSE file that lacks a required string.

`flattenHash` then deduplicates a dictionary: each distinct value is kept
only under the first key, in iteration order, that maps to it. The
configuration loader builds the exclusion expression
`"(" + ")|(".join(patterns) + ")"`.

Layout:

- `options.dfy`: `Option`, which stands for a Python value that may be `None`.
- `text.dfy`: the string operations used here. These are the `in` substring
  test (`Contains`), `str.rstrip()` (`RStrip`) and `str.join` (`Join`).
- `config.dfy`: the configuration keys the checks read, and `ExclusionPattern`.
- `violations.dfy`: the `Violation` record and `CreateViolation`. It also
  defines `Table`, the violation dictionary, and `Appended`, which describes
  how a check extends one key's list.
- `scanner.dfy`: the specification functions for the checks and the lemmas
  about them. It also holds the class `Accumulator`, whose field `violations`
  is the dictionary. Its methods `CheckLine`, `CheckFile`,
  `CheckLicenseFile` and `CheckNoticeFile` update that field. Each method is
  proved to leave exactly the table its specification function describes.
- `flatten.dfy`: `Flattened`, the specification of `flattenHash`. The input is
  the dictionary's items in iteration order. The file also holds the lemmas
  about `Flattened` and the loop `FlattenHash`, proved equal to it.

The following are given as values: the lines of a file, the result of the
LICENSE/NOTICE globs, and the content of the first LICENSE file.

Behaviour of the code that the model keeps as it is:

- An empty exclusion-pattern list gives `"()"`. `re.match` matches that empty
  group at the start of every path, so `walk` skips every entry.
  `ExclusionPattern` gives `"()"` for a configuration without excluded-file
  patterns.
- `checkNoticeFile` only tests that a NOTICE file exists and never reads it,
  unlike `checkLicenseFile`. `CheckNoticeFile` keeps this.
- `createViolation` drops every argument that is falsy. A line that is empty
  after stripping is therefore recorded without its `line` field. An empty
  keyword occurs in every line, so it produces a warning with no `license`
  field. `LineViolationsFields` states both cases.

## Model

| member | source | states |
|---|---|---|
| `Violations.CreateViolation` | legal-report/legal_report_utils.py:140-147 | `id` and `description` are always set; `license`, `license_category` and `line` are present exactly when their argument is truthy (not `None`, not empty), and then equal it |
| `Violations.Appended` | legal-report/legal_report_utils.py:119-122 | appending under one key creates that key only when something is appended, keeps every other key and list, extends the old list (prefix), and keeps every list non-empty |
| `Text.ContainsIffOccurs` | legal-report/legal_report_utils.py:118 | the substring test holds exactly when the keyword occurs at some position of the line |
| `Text.RStrip` | legal-report/legal_report_utils.py:111 | the stripped line is a prefix of the line, does not end in whitespace, and everything removed is whitespace (space, tab, newline, vertical tab, form feed, carriage return) |
| `Config.ExclusionPattern` | legal-report/legal_report_utils.py:23 | the expression stored under `excluded_files_re` is built from the configuration's `excluded_files_list`; an empty list gives `"()"`; every result is bracketed by `(` and `)` |
| `Config.ExclusionPatternIsAlternation` | legal-report/legal_report_utils.py:23 | for excluded-file patterns p1..pn the expression is the groups `(p1)` to `(pn)` joined by the alternation bar |
| `Scanner.MatchesSound` | legal-report/legal_report_utils.py:117-118 | every matched keyword is a listed keyword that occurs in the line; there are no matches exactly when no listed keyword occurs |
| `Scanner.MatchesAppend` | legal-report/legal_report_utils.py:117-118 | keywords are matched in list order: the matches of a concatenated list are the matches of each part in turn |
| `Scanner.MatchesMultiplicity` | legal-report/legal_report_utils.py:117-118 | a keyword is matched exactly as many times as it is listed when it occurs in the line (a keyword listed twice matches twice), and never otherwise |
| `Scanner.MatchesCount` | legal-report/legal_report_utils.py:117-122 | the number of matches equals the number of listed keywords, with repeats, that occur in the line |
| `Scanner.LineViolationsFields` | legal-report/legal_report_utils.py:121 | the violation for the i-th match has id `LGL-4`, description `Third-party code license warning`, the matched keyword as license (absent if empty), the category, and the line (absent if empty) |
| `Scanner.LineViolationsAppend` | legal-report/legal_report_utils.py:117-122 | warnings of a concatenated keyword list are the warnings of each part in turn |
| `Scanner.LineViolationsComplete` | legal-report/legal_report_utils.py:117-122 | every listed keyword that occurs in the line yields its warning |
| `Scanner.LineViolationsSound` | legal-report/legal_report_utils.py:117-122 | every warning is for a listed keyword that occurs in the line |
| `Scanner.FileViolationsAppend` | legal-report/legal_report_utils.py:110-113 | the violations of concatenated line lists are those of each part in turn |
| `Scanner.FileViolationsLineByLine` | legal-report/legal_report_utils.py:110-113 | violations are ordered line by line, and within a stripped line category-B warnings precede category-X warnings |
| `Scanner.FileViolationsCount` | legal-report/legal_report_utils.py:107-114 | the number of violations of a file is the sum over its stripped lines of category-B plus category-X keyword matches |
| `Scanner.FileViolationsComplete` | legal-report/legal_report_utils.py:110-113 | a keyword of either category occurring in a stripped line is recorded with that category and that stripped line |
| `Scanner.FileViolationsSound` | legal-report/legal_report_utils.py:110-113 | every file violation is the warning of a keyword of its category occurring in some stripped line; a file without keywords yields none |
| `Scanner.SingleCategoryXMatch` | legal-report/legal_report_utils.py:107-122 | a one-line file whose stripped line contains the only configured keyword, a non-empty category-X `k`, yields exactly one violation: `LGL-4`, license `k`, category X and the stripped line |
| `Scanner.FirstMissing` | legal-report/legal_report_utils.py:157-158 | finds the first required string absent from the LICENSE content; none exactly when all are present |
| `Scanner.LicenseCheckAsWritten` | legal-report/legal_report_utils.py:149-163 | as written, the check raises `KeyError` exactly when a LICENSE file exists, a required string is missing, and the first file is neither named `LICENSE` nor already a key. No LICENSE file appends `Missing LICENSE file` under `"LICENSE"`. All required strings present leaves the table unchanged. For a missing required string, a `"LICENSE"` entry is first created (empty if new). On completion, `LICENSE file not matching '<m>'` for the first missing string is appended under `globs[0]`. On `KeyError`, the table keeps the created entry and nothing else changes |
| `Scanner.LicenseCheckAsWrittenRaises` | legal-report/legal_report_utils.py:157-163 | with an empty table, a first file `LICENSE.txt` and a missing required string, the code as written raises `KeyError("LICENSE.txt")` |
| `Scanner.LicenseCheckAsWrittenLeavesEmptyEntry` | legal-report/legal_report_utils.py:159-162 | when `LICENSE.txt` is already a key holding `[v]`, the code as written gives exactly `{"LICENSE.txt": [v, not matching 'Apache License'], "LICENSE": []}`: the violation lands under `LICENSE.txt` and the empty `"LICENSE"` entry breaks the every-key-has-a-violation invariant |
| `Scanner.LicenseCheck` | legal-report/legal_report_utils.py:149-163 | intended check: only the `"LICENSE"` entry changes; no LICENSE file appends `Missing LICENSE file`; a missing required string appends `LICENSE file not matching '<m>'` for the first missing one only; all present leaves the table unchanged; every key keeps a violation |
| `Scanner.LicenseCheckAgreesWhenNamedLicense` | legal-report/legal_report_utils.py:149-163 | when there is no LICENSE file, or the first one is named `LICENSE`, the code as written completes and agrees with the intended check |
| `Scanner.NoticeCheck` | legal-report/legal_report_utils.py:165-171 | no NOTICE file appends exactly one `Missing NOTICE file` under `"NOTICE"` and changes no other key; a NOTICE file leaves the table unchanged |
| `Scanner.MissingFilesTable` | legal-report/legal_report_utils.py:85-87 | a fresh scan with neither a NOTICE nor a LICENSE file holds exactly `{"NOTICE": [LGL-2], "LICENSE": [LGL-1]}` |
| `Scanner.MissingFilesOnly` | legal-report/legal_report_utils.py:85-89 | adding a file with no keyword in any line to that scan leaves exactly those two entries |
| `Scanner.Accumulator.constructor` | legal-report/legal_report_utils.py:85 | a scan starts with an empty table |
| `Scanner.Accumulator.CheckLine` | legal-report/legal_report_utils.py:116-122 | the new table is the old one with the line's warnings appended under the path; other keys unchanged, old list a prefix of the new one, and no match leaves the table unchanged with no key created |
| `Scanner.Accumulator.CheckFile` | legal-report/legal_report_utils.py:107-114 | the new table is the old one with the file's violations appended under `root + "/" + name` |
| `Scanner.Accumulator.CheckLicenseFile` | legal-report/legal_report_utils.py:149-163 | the new table and outcome are those of the license check as written, including the `KeyError` outcome |
| `Scanner.Accumulator.CheckNoticeFile` | legal-report/legal_report_utils.py:165-171 | the new table is that of the notice check |
| `Flatten.FlattenedFromInput` | legal-report/legal_report_utils.py:133-138 | every kept key is an input key mapped to its input value |
| `Flatten.FlattenedInjective` | legal-report/legal_report_utils.py:136-137 | no two kept keys have equal values |
| `Flatten.FlattenedCoversValues` | legal-report/legal_report_utils.py:135-137 | every input value is kept under some key |
| `Flatten.FlattenedKeepsFirst` | legal-report/legal_report_utils.py:135-137 | a key is kept exactly when its item is the first in iteration order with that value |
| `Flatten.FlattenedSize` | legal-report/legal_report_utils.py:133-138 | the result has no more entries than the input |
| `Flatten.FlattenedKeepsDistinct` | legal-report/legal_report_utils.py:133-138 | input items with pairwise distinct values are all kept unchanged |
| `Flatten.FlattenedIdempotent` | legal-report/legal_report_utils.py:133-138 | flattening the result again, in any iteration order, gives the result back |
| `Flatten.FlattenedDropsLaterDuplicate` | legal-report/legal_report_utils.py:133-138 | items `a: v1, b: v1, c: v2` with distinct values `v1` and `v2` flatten to `{a: v1, c: v2}` |
| `Flatten.FlattenHash` | legal-report/legal_report_utils.py:133-138 | the loop computes exactly the flattened dictionary |

## Left out

- `loadConfig` (YAML parsing, the command-line argument, `report_dir`) is not modelled. It needs a YAML library and the file system. Only the exclusion-string join on line 23 is modelled. A configuration lacking a key, which makes the code raise `KeyError`, is not modelled either: `Config` always has all four keys.
- `walk` is not modelled. It needs `os.walk` and `re.match`, and neither the file system nor the regular-expression engine is modelled. A file is modelled as its lines, given to `CheckFile`. Whether a path matches the exclusion expression is therefore not stated.
- `checkGithubOrg`, `executeCommands` and `replaceInFile` are not modelled. They call the repository-hosting API, run shell commands and read and write files.
- `checkProject` is not modelled. It creates directories, writes JSON files and prints. It also stores the flattened table under the project name. `MissingFilesTable` and `MissingFilesOnly` model only the order of its checks.
- The glob calls and file reads inside `checkLicenseFile` and `checkNoticeFile` are not modelled. Their results are parameters. An unreadable file, which raises `IOError` in the code, is not modelled.
- Python dictionary iteration order is arbitrary. `Flattened` takes the items in a given order, and the table is a `map` without order.
- The code works on Python 2 byte strings. The model uses `string`, and no encoding is modelled.

## Findings

| source | as written | input that shows it | evidently intended | confidence | as-written member | corrected member |
|---|---|---|---|---|---|---|
| legal-report/legal_report_utils.py:159-162 | when a required string is missing, an empty `"LICENSE"` entry is created but the violation is appended to `violations[globs[0]]` | first LICENSE file `LICENSE.txt`, empty table, content lacking a required string: `KeyError` is raised; if `LICENSE.txt` is already a key, the violation lands there and `"LICENSE"` is left empty | append the violation under `"LICENSE"`, the entry just created for it | medium; not executed | `Scanner.LicenseCheckAsWrittenRaises` | `Scanner.LicenseCheck` |
