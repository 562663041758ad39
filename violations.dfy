/** Violation records and the table that collects them per file path. */
module Violations {
  import opened Options

  /** One compliance finding: always an `id` and a `description`; `license`,
      `license_category` and `line` only when they were given and non-empty. */
  datatype Violation = Violation(
    id: string,
    description: string,
    license: Option<string>,
    licenseCategory: Option<string>,
    line: Option<string>)

  /** The violations recorded so far, keyed by file path or by one of the
      pseudo-paths "LICENSE" and "NOTICE". */
  type Table = map<string, seq<Violation>>

  /** Python truthiness of an optional string: neither `None` nor empty. */
  predicate Truthy(arg: Option<string>)
  {
    arg.Some? && arg.value != ""
  }

  /** `createViolation`: an optional field is present exactly when its
      argument is truthy, and then holds that argument. */
  function CreateViolation(
    id: string,
    description: string,
    license: Option<string>,
    licenseCategory: Option<string>,
    line: Option<string>): (v: Violation)
    ensures v.id == id && v.description == description
    ensures v.license.Some? <==> Truthy(license)
    ensures v.licenseCategory.Some? <==> Truthy(licenseCategory)
    ensures v.line.Some? <==> Truthy(line)
    ensures v.license.Some? ==> v.license == license
    ensures v.licenseCategory.Some? ==> v.licenseCategory == licenseCategory
    ensures v.line.Some? ==> v.line == line
  {
    Violation(
      id,
      description,
      if Truthy(license) then license else None,
      if Truthy(licenseCategory) then licenseCategory else None,
      if Truthy(line) then line else None)
  }

  /** The list under `key`, or the empty list a check creates on first use. */
  function Under(t: Table, key: string): seq<Violation>
  {
    if key in t then t[key] else []
  }

  /** No key of the table has an empty list: a path is a key only if some
      violation was recorded under it. */
  ghost predicate Recorded(t: Table)
  {
    forall k :: k in t ==> t[k] != []
  }

  /** The table after a check appended `added` to the list under `key`,
      creating the key only when something is appended. */
  function Appended(t: Table, key: string, added: seq<Violation>): (r: Table)
    ensures added == [] ==> r == t
    ensures added != [] ==> r.Keys == t.Keys + {key} && r[key] == Under(t, key) + added
    ensures forall k :: k != key ==> (k in r <==> k in t)
    ensures forall k :: k in t && k != key ==> r[k] == t[k]
    ensures Under(t, key) <= Under(r, key)
    ensures Recorded(t) ==> Recorded(r)
  {
    if added == [] then t else t[key := Under(t, key) + added]
  }

  /** Appending twice under one key is appending the concatenation. */
  lemma AppendedTwice(t: Table, key: string, a: seq<Violation>, b: seq<Violation>)
    ensures Appended(Appended(t, key, a), key, b) == Appended(t, key, a + b)
  {
    if a == [] {
      assert a + b == b;
    } else if b == [] {
      assert a + b == a;
    } else {
      assert Under(t, key) + a + b == Under(t, key) + (a + b);
    }
  }
}
