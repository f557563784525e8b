/** The row selection of src/naics_code_data_generation.py around the final
    NAICS sheet: the exclusion of the three proprietary departments, the
    opportunity count per NAICS code, and the last steps of `data_to_sheet`
    (two-digit prefix, the lone '999999' row, the 100-opportunity floor). */
module NaicsSheet {
  import opened Seqs
  import opened GeoNormalize

  /** The departments lines 234 and 332-336 leave out. */
  const ExcludedDepartments: seq<string> :=
    ["Water & Power", "Airports, Los Angeles World", "Harbor Department, Port of Los Angeles"]

  /** `isin(ExcludedDepartments)`; a missing department is in no list. */
  predicate Excluded(dept: Option<string>) {
    dept.Some? && dept.value in ExcludedDepartments
  }

  /** `df[~df[dept].isin(ExcludedDepartments)]`. */
  function DropExcluded<T>(rows: seq<T>, dept: T -> Option<string>): seq<T> {
    Filter(rows, NotExcluded(dept))
  }

  /** The mask `~df[dept].isin(ExcludedDepartments)`. */
  function NotExcluded<T>(dept: T -> Option<string>): T -> bool {
    r => !Excluded(dept(r))
  }

  /** A row survives exactly when it is a row whose department is not excluded. */
  lemma DropExcludedExactly<T>(rows: seq<T>, dept: T -> Option<string>, x: T)
    ensures x in DropExcluded(rows, dept) <==> x in rows && !Excluded(dept(x))
  {
    FilterMember(rows, NotExcluded(dept), x);
  }

  /** The three names are excluded; any other department, or none, is kept. */
  lemma ExcludedNames(dept: Option<string>)
    ensures Excluded(dept) <==>
      dept == Some("Water & Power") || dept == Some("Airports, Los Angeles World")
      || dept == Some("Harbor Department, Port of Los Angeles")
  {
  }

  // --------------------------------------------------- data_to_naics_opp_counts

  /** A row of `opp_naics_df`: opportunity id, NAICS code and department, each
      possibly missing; `details` stands for the other columns. */
  datatype OppNaics = OppNaics(id: Option<string>, naics: Option<string>, department: Option<string>, details: string)

  datatype NaicsCount = NaicsCount(naics: string, opportunities: nat)

  /** The mask of line 334 on the opportunity rows. */
  predicate KeptDepartment(r: OppNaics) {
    !Excluded(r.department)
  }

  /** The present NAICS codes, in row order. */
  function Codes(rows: seq<OppNaics>): (r: seq<string>)
    ensures forall i :: 0 <= i < |r| ==> exists j :: 0 <= j < |rows| && rows[j].naics == Some(r[i])
    ensures forall j :: 0 <= j < |rows| && rows[j].naics.Some? ==> rows[j].naics.value in r
  {
    if rows == [] then []
    else
      var rest := Codes(rows[1..]);
      assert forall i :: 0 <= i < |rest| ==> exists j :: 0 <= j < |rows| && rows[j].naics == Some(rest[i]) by {
        forall i | 0 <= i < |rest|
          ensures exists j :: 0 <= j < |rows| && rows[j].naics == Some(rest[i])
        {
          var j :| 0 <= j < |rows[1..]| && rows[1..][j].naics == Some(rest[i]);
          assert rows[j + 1].naics == Some(rest[i]);
        }
      }
      (if rows[0].naics.Some? then [rows[0].naics.value] else []) + rest
  }

  /** `groupby(NAICS).count()` on the id column: rows of the code whose id is present. */
  function IdCount(rows: seq<OppNaics>, code: string): nat {
    |Filter(rows, Matching(code))|
  }

  /** The rows of a code whose opportunity id is present. */
  function Matching(code: string): OppNaics -> bool {
    (r: OppNaics) => r.naics == Some(code) && r.id.Some?
  }

  /** The same rows, restricted to the kept departments. */
  function KeptMatching(code: string): OppNaics -> bool {
    (r: OppNaics) => !Excluded(r.department) && r.naics == Some(code) && r.id.Some?
  }

  /** The rows of a kept department. */
  function KeptRows(rows: seq<OppNaics>): seq<OppNaics> {
    Filter(rows, KeptDepartment)
  }

  /** One count per distinct code of the kept rows, before sorting. */
  function CodeCounts(rows: seq<OppNaics>): (r: seq<NaicsCount>)
    ensures |r| == |Unique(Codes(KeptRows(rows)))|
    ensures forall i :: 0 <= i < |r| ==>
      r[i] == NaicsCount(Unique(Codes(KeptRows(rows)))[i], IdCount(KeptRows(rows), Unique(Codes(KeptRows(rows)))[i]))
  {
    var keys := Unique(Codes(KeptRows(rows)));
    seq(|keys|, i requires 0 <= i < |keys| => NaicsCount(keys[i], IdCount(KeptRows(rows), keys[i])))
  }

  /** Lines 332-348, `data_to_naics_opp_counts`: per NAICS code of a row of a
      kept department, the number of such rows with an opportunity id, in
      descending order of that number. */
  function NaicsOppCounts(rows: seq<OppNaics>): (r: seq<NaicsCount>)
    ensures SortedDesc(r, (c: NaicsCount) => c.opportunities)
    ensures multiset(r) == multiset(CodeCounts(rows))
  {
    SortDescSorted(CodeCounts(rows), (c: NaicsCount) => c.opportunities);
    SortDesc(CodeCounts(rows), (c: NaicsCount) => c.opportunities)
  }

  /** The id count over the kept rows, as one filter over all rows. */
  lemma IdCountKept(rows: seq<OppNaics>, code: string)
    ensures IdCount(KeptRows(rows), code) == |Filter(rows, KeptMatching(code))|
  {
    FilterFilter(rows, KeptDepartment, Matching(code));
    FilterCongruent(rows, Both(KeptDepartment, Matching(code)), KeptMatching(code));
  }

  /** Each count is the number of rows of a kept department with that code and an id. */
  lemma NaicsOppCountsValues(rows: seq<OppNaics>, c: NaicsCount)
    requires c in NaicsOppCounts(rows)
    ensures c.opportunities == |Filter(rows, KeptMatching(c.naics))|
  {
    assert c in multiset(CodeCounts(rows));
    var counts := CodeCounts(rows);
    var j :| 0 <= j < |counts| && counts[j] == c;
    IdCountKept(rows, c.naics);
  }

  /** A code is present in some row exactly when it is among `Codes`. */
  lemma CodesMember(rows: seq<OppNaics>, code: string)
    ensures code in Codes(rows) <==> exists x :: x in rows && x.naics == Some(code)
  {
    if code in Codes(rows) {
      var m :| 0 <= m < |Codes(rows)| && Codes(rows)[m] == code;
      var j :| 0 <= j < |rows| && rows[j].naics == Some(code);
      assert rows[j] in rows;
    }
  }

  /** Every listed code is a code of a kept row. */
  lemma ListedCodesSound(rows: seq<OppNaics>, c: NaicsCount)
    requires c in NaicsOppCounts(rows)
    ensures c.naics in Codes(KeptRows(rows))
  {
    var counts := CodeCounts(rows);
    assert c in multiset(counts);
    var i :| 0 <= i < |counts| && counts[i] == c;
  }

  /** Every code of a kept row is listed. */
  lemma ListedCodesComplete(rows: seq<OppNaics>, code: string)
    requires code in Codes(KeptRows(rows))
    ensures exists c :: c in NaicsOppCounts(rows) && c.naics == code
  {
    var keys := Unique(Codes(KeptRows(rows)));
    var counts := CodeCounts(rows);
    var m :| 0 <= m < |Codes(KeptRows(rows))| && Codes(KeptRows(rows))[m] == code;
    assert code in keys;
    var i :| 0 <= i < |keys| && keys[i] == code;
    assert counts[i] in multiset(NaicsOppCounts(rows));
  }

  /** A code is listed exactly when some row of a kept department carries it. */
  lemma NaicsOppCountsKeys(rows: seq<OppNaics>, code: string)
    ensures (exists c :: c in NaicsOppCounts(rows) && c.naics == code) <==>
      exists x :: x in rows && x.naics == Some(code) && !Excluded(x.department)
  {
    var kept := KeptRows(rows);
    CodesMember(kept, code);
    if exists c :: c in NaicsOppCounts(rows) && c.naics == code {
      var c :| c in NaicsOppCounts(rows) && c.naics == code;
      ListedCodesSound(rows, c);
      var x :| x in kept && x.naics == Some(code);
      FilterMember(rows, KeptDepartment, x);
    }
    if exists x :: x in rows && x.naics == Some(code) && !Excluded(x.department) {
      var x :| x in rows && x.naics == Some(code) && !Excluded(x.department);
      FilterMember(rows, KeptDepartment, x);
      ListedCodesComplete(rows, code);
    }
  }

  // ------------------------------------------------------ data_to_sheet's tail

  /** A row of `final_df` before line 369: the six-digit code, the opportunity
      count, and the other columns. */
  datatype MergedRow = MergedRow(naics: string, opportunities: int, details: string)

  /** A row after line 370, with the two-digit column added. */
  datatype SheetRow = SheetRow(naics2: string, naics6: string, opportunities: int, details: string)

  const Legacy := "999999"

  /** Lines 369-370: the two-digit column is the first two characters of the code. */
  function WithTwoDigit(rows: seq<MergedRow>): (r: seq<SheetRow>)
    ensures |r| == |rows|
    ensures forall i :: 0 <= i < |r| ==>
      r[i] == SheetRow(Prefix(rows[i].naics, 2), rows[i].naics, rows[i].opportunities, rows[i].details)
  {
    seq(|rows|, i requires 0 <= i < |rows| =>
      SheetRow(Prefix(rows[i].naics, 2), rows[i].naics, rows[i].opportunities, rows[i].details))
  }

  /** Line 378: how many rows carry the code '999999'. */
  function LegacyCount(rows: seq<SheetRow>): nat {
    |Filter(rows, (r: SheetRow) => r.naics6 == Legacy)|
  }

  /** Whether a row is kept by lines 378-382, given whether '999999' occurs exactly once. */
  predicate Kept(r: SheetRow, lone: bool) {
    !(lone && r.naics6 == Legacy) && r.opportunities >= 100
  }

  function KeepRow(lone: bool): SheetRow -> bool {
    (r: SheetRow) => Kept(r, lone)
  }

  /** Lines 369-382 on `final_df`: add the two-digit column, drop the '999999'
      row when it is the only one, keep rows with at least 100 opportunities. */
  method FinalizeSheet(rows: seq<MergedRow>) returns (out: seq<SheetRow>)
    ensures var all := WithTwoDigit(rows);
      out == Filter(all, KeepRow(LegacyCount(all) == 1))
    ensures forall i :: 0 <= i < |out| ==> out[i].opportunities >= 100 && out[i].naics2 == Prefix(out[i].naics6, 2)
  {
    var df := WithTwoDigit(rows);
    var all := df;
    var lone := LegacyCount(df) == 1;
    var notLegacy := (r: SheetRow) => r.naics6 != Legacy;
    var frequent := (r: SheetRow) => r.opportunities >= 100;
    if lone {
      df := Filter(df, notLegacy);
      FilterFilter(all, notLegacy, frequent);
      FilterCongruent(all, Both(notLegacy, frequent), KeepRow(lone));
    } else {
      FilterCongruent(all, frequent, KeepRow(lone));
    }
    df := Filter(df, frequent);
    out := df;
  }

  /** The rows of the sheet are exactly the rows with at least 100
      opportunities, except a '999999' row when it is the only one. */
  lemma FinalSheetExactly(rows: seq<MergedRow>, i: nat)
    requires i < |rows|
    ensures var all := WithTwoDigit(rows);
      all[i] in Filter(all, KeepRow(LegacyCount(all) == 1)) <==>
        rows[i].opportunities >= 100 && !(rows[i].naics == Legacy && LegacyCount(all) == 1)
  {
    var all := WithTwoDigit(rows);
    FilterMember(all, KeepRow(LegacyCount(all) == 1), all[i]);
  }

  /** A lone '999999' row never reaches the sheet; when there are several, those
      with enough opportunities stay. */
  lemma LegacyRowFate(rows: seq<MergedRow>)
    ensures var all := WithTwoDigit(rows);
      var out := Filter(all, KeepRow(LegacyCount(all) == 1));
      && (LegacyCount(all) == 1 ==> forall i :: 0 <= i < |out| ==> out[i].naics6 != Legacy)
      && (LegacyCount(all) != 1 ==> forall i :: 0 <= i < |all| && all[i].opportunities >= 100 ==> all[i] in out)
  {
  }

  function MergedOpportunities(r: MergedRow): int {
    r.opportunities
  }

  function SheetOpportunities(r: SheetRow): int {
    r.opportunities
  }

  /** A table in the descending order of line 363 gives a sheet in that order. */
  lemma SheetSorted(rows: seq<MergedRow>)
    requires SortedDesc(rows, MergedOpportunities)
    ensures var all := WithTwoDigit(rows);
      SortedDesc(Filter(all, KeepRow(LegacyCount(all) == 1)), SheetOpportunities)
  {
    var all := WithTwoDigit(rows);
    assert SortedDesc(all, SheetOpportunities);
    FilterSortedDesc(all, KeepRow(LegacyCount(all) == 1), SheetOpportunities);
  }

  /** The two-digit column of a code of six or more characters has exactly two. */
  lemma TwoDigitPrefix(rows: seq<MergedRow>, i: nat)
    requires i < |rows| && |rows[i].naics| >= 2
    ensures |WithTwoDigit(rows)[i].naics2| == 2 && WithTwoDigit(rows)[i].naics2 == rows[i].naics[..2]
  {
  }
}
