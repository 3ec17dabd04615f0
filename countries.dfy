/**
 * The `countries` table of the import script: country code to country name.
 * Each village writes its row's name the first time its code appears, and
 * four names are overridden by hand before the export.
 */
module Countries {
  import opened Wrappers

  type Names = map<string, string>

  /** `if (countries[code] === undefined) countries[code] = name`. */
  function NoteCountry(names: Names, code: string, name: string): Names
  {
    if code in names then names else names[code := name]
  }

  /** A noted code is in the table; a code already there keeps its name, a new one gets `name`. */
  lemma NoteCountryLookup(names: Names, code: string, name: string, c: string)
    ensures var r := NoteCountry(names, code, name);
            && (c in r <==> c in names || c == code)
            && (c in names ==> r[c] == names[c])
            && (c == code && code !in names ==> r[c] == name)
  {
  }

  /** The table `names` after the villages of `rows` (pairs of code and name) were built in order. */
  function CountriesOf(names: Names, rows: seq<(string, string)>): Names
  {
    if rows == [] then names
    else NoteCountry(CountriesOf(names, rows[..|rows| - 1]), rows[|rows| - 1].0, rows[|rows| - 1].1)
  }

  /** The reference definition: the name on the first row that carries `code`. */
  function FirstName(rows: seq<(string, string)>, code: string): Option<string>
  {
    if rows == [] then None
    else if rows[0].0 == code then Some(rows[0].1)
    else FirstName(rows[1..], code)
  }

  lemma {:induction false} FirstNameAppend(rows: seq<(string, string)>, row: (string, string), code: string)
    ensures FirstName(rows + [row], code)
         == if FirstName(rows, code).Some? then FirstName(rows, code)
            else if row.0 == code then Some(row.1) else None
  {
    if rows == [] {
      assert [row][1..] == [];
    } else {
      assert (rows + [row])[1..] == rows[1..] + [row];
      FirstNameAppend(rows[1..], row, code);
    }
  }

  /**
   * First write wins: a code already in the table keeps its name, and any
   * other code maps to the name on the first of its rows.
   */
  lemma {:induction false} CountriesFirstWrite(names: Names, rows: seq<(string, string)>, code: string)
    ensures code in CountriesOf(names, rows) <==> code in names || FirstName(rows, code).Some?
    ensures code in CountriesOf(names, rows) ==>
              CountriesOf(names, rows)[code] == if code in names then names[code] else FirstName(rows, code).value
  {
    if rows != [] {
      var init := rows[..|rows| - 1];
      CountriesFirstWrite(names, init, code);
      FirstNameAppend(init, rows[|rows| - 1], code);
      assert init + [rows[|rows| - 1]] == rows;
    }
  }

  const KN_NAME := "North Korea (DPRK)"
  const KS_NAME := "South Korea (ROK)"
  const CG_NAME := "Democratic Republic of the Congo"
  const CF_NAME := "Republic of the Congo"

  /** The four manual edits made before the export. */
  function WithOverrides(names: Names): (r: Names)
    ensures r.Keys == names.Keys + {"KN", "KS", "CG", "CF"}
    ensures r["KN"] == KN_NAME && r["KS"] == KS_NAME && r["CG"] == CG_NAME && r["CF"] == CF_NAME
    ensures forall c :: c in names && c !in {"KN", "KS", "CG", "CF"} ==> r[c] == names[c]
  {
    names["KN" := KN_NAME]["KS" := KS_NAME]["CG" := CG_NAME]["CF" := CF_NAME]
  }

  /** The module-level `countries` object. */
  class CountryTable {
    var names: Names

    constructor ()
      ensures names == map[]
    {
      names := map[];
    }

    method Note(code: string, name: string)
      modifies this
      ensures names == NoteCountry(old(names), code, name)
    {
      if code !in names {
        names := names[code := name];
      }
    }

    method ApplyOverrides()
      modifies this
      ensures names == WithOverrides(old(names))
    {
      names := names["KN" := KN_NAME];
      names := names["KS" := KS_NAME];
      names := names["CG" := CG_NAME];
      names := names["CF" := CF_NAME];
    }
  }
}
