/** The per-NAICS tallies of src/geography.py (`value_counts` turned into a
    two-column frame), the chain of outer merges on the NAICS column, the fill
    of missing counts with 0 and the sort by opportunity count. */
module GeoTally {
  import opened Seqs
  import opened GeoNormalize
  import opened GeoBuckets

  /** One row of `value_counts().to_frame().reset_index()`. */
  datatype Count = Count(code: string, n: nat)

  function Keys(t: seq<Count>): (r: seq<string>)
    ensures |r| == |t| && forall i :: 0 <= i < |t| ==> r[i] == t[i].code
  {
    if t == [] then [] else [t[0].code] + Keys(t[1..])
  }

  /** The sum of a count column. */
  function Total(t: seq<Count>): nat {
    if t == [] then 0 else t[0].n + Total(t[1..])
  }

  function CountsFor(u: seq<string>, codes: seq<string>): (r: seq<Count>)
    ensures |r| == |u| && forall i :: 0 <= i < |u| ==> r[i] == Count(u[i], Occurrences(codes, u[i]))
  {
    if u == [] then [] else [Count(u[0], Occurrences(codes, u[0]))] + CountsFor(u[1..], codes)
  }

  /** `codes.value_counts()`: one row per distinct code, holding how often it occurs.
      The descending-count order of the rows is not modelled (see README). */
  function Tally(codes: seq<string>): (r: seq<Count>)
    ensures NoDuplicates(Keys(r))
    ensures forall i :: 0 <= i < |r| ==> r[i].code in codes && r[i].n == Occurrences(codes, r[i].code) && r[i].n > 0
    ensures forall i :: 0 <= i < |codes| ==> codes[i] in Keys(r)
  {
    var u := Unique(codes);
    var r := CountsFor(u, codes);
    assert Keys(r) == u;
    r
  }

  function NaicsOf(bs: seq<Business>): (r: seq<string>)
    ensures |r| == |bs| && forall i :: 0 <= i < |bs| ==> r[i] == bs[i].naics
  {
    seq(|bs|, i requires 0 <= i < |bs| => bs[i].naics)
  }

  lemma {:induction false} TotalNoCodes(u: seq<string>)
    ensures Total(CountsFor(u, [])) == 0
  {
    if u != [] {
      TotalNoCodes(u[1..]);
    }
  }

  /** Taking the first code away lowers the total by the number of keys equal to it. */
  lemma {:induction false} TotalFirstCode(u: seq<string>, codes: seq<string>)
    requires codes != []
    ensures Total(CountsFor(u, codes)) == Occurrences(u, codes[0]) + Total(CountsFor(u, codes[1..]))
  {
    if u != [] {
      TotalFirstCode(u[1..], codes);
    }
  }

  lemma {:induction false} TotalOverKeys(u: seq<string>, codes: seq<string>)
    requires NoDuplicates(u)
    requires forall i :: 0 <= i < |codes| ==> codes[i] in u
    ensures Total(CountsFor(u, codes)) == |codes|
  {
    if codes == [] {
      TotalNoCodes(u);
    } else {
      TotalFirstCode(u, codes);
      OccurrencesOnce(u, codes[0]);
      TotalOverKeys(u, codes[1..]);
    }
  }

  /** The counts of a tally add up to the number of rows it was taken over
      (lines 96, 146-158, 187). */
  lemma TallySum(codes: seq<string>)
    ensures Total(Tally(codes)) == |codes|
  {
    TotalOverKeys(Unique(codes), codes);
  }

  /** Each bucket's NAICS tally adds up to the size of the bucket. */
  lemma BucketTallySums(all: seq<Business>, ref: Reference)
    ensures Total(Tally(NaicsOf(CityBiz(all, ref)))) == |CityBiz(all, ref)|
    ensures Total(Tally(NaicsOf(CountyBiz(all, ref)))) == |CountyBiz(all, ref)|
    ensures Total(Tally(NaicsOf(OtherBiz(all, ref)))) == |OtherBiz(all, ref)|
  {
    TallySum(NaicsOf(CityBiz(all, ref)));
    TallySum(NaicsOf(CountyBiz(all, ref)));
    TallySum(NaicsOf(OtherBiz(all, ref)));
  }

  /** The count a tally holds for `k`, or `None` when `k` is not one of its codes. */
  function Lookup(t: seq<Count>, k: string): (r: Option<nat>)
    ensures r.None? <==> k !in Keys(t)
    ensures r.Some? ==> Count(k, r.value) in t
  {
    if t == [] then None else if t[0].code == k then Some(t[0].n) else Lookup(t[1..], k)
  }

  /** Looking a code up in a tally gives its number of occurrences, or `None`. */
  lemma LookupTally(codes: seq<string>, k: string)
    ensures Lookup(Tally(codes), k) == if k in codes then Some(Occurrences(codes, k)) else None
  {
    var t := Tally(codes);
    var v := Lookup(t, k);
    if k in codes {
      var i :| 0 <= i < |codes| && codes[i] == k;
      assert k in Keys(t);
      assert Count(k, v.value) in t;
      var j :| 0 <= j < |t| && t[j] == Count(k, v.value);
      assert t[j].n == Occurrences(codes, t[j].code);
    }
  }

  /** The codes of a tally are exactly the codes it was taken over. */
  lemma TallyKeys(codes: seq<string>, k: string)
    ensures k in Keys(Tally(codes)) <==> k in codes
  {
    LookupTally(codes, k);
  }

  // ------------------------------------------------------------------- merging

  /** A row of the merged frame: the NAICS key and one count column per tally
      merged so far, `None` standing for the NaN an outer merge leaves. */
  datatype Row = Row(naics: string, counts: seq<Option<nat>>)

  function RowKeys(rows: seq<Row>): (r: seq<string>)
    ensures |r| == |rows| && forall i :: 0 <= i < |rows| ==> r[i] == rows[i].naics
  {
    if rows == [] then [] else [rows[0].naics] + RowKeys(rows[1..])
  }

  function Absent(w: nat): (r: seq<Option<nat>>)
    ensures |r| == w && forall j :: 0 <= j < w ==> r[j] == None
  {
    seq(w, _ => None)
  }

  /** The count columns of the row keyed `k`, or `w` missing values when there is none. */
  function ColsOf(rows: seq<Row>, k: string, w: nat): (r: seq<Option<nat>>)
    ensures k !in RowKeys(rows) ==> r == Absent(w)
    ensures k in RowKeys(rows) ==> Row(k, r) in rows
  {
    if rows == [] then Absent(w)
    else if rows[0].naics == k then rows[0].counts
    else ColsOf(rows[1..], k, w)
  }

  /** With unique keys, the columns found for a row's key are that row's columns. */
  lemma {:induction false} ColsOfRow(rows: seq<Row>, i: nat, w: nat)
    requires i < |rows| && NoDuplicates(RowKeys(rows))
    ensures ColsOf(rows, rows[i].naics, w) == rows[i].counts
  {
    if i > 0 {
      assert RowKeys(rows)[0] != RowKeys(rows)[i];
      assert RowKeys(rows[1..]) == RowKeys(rows)[1..];
      ColsOfRow(rows[1..], i - 1, w);
    }
  }

  /** The frame `all_opp_counts` as a merge operand: its one count column. */
  function Start(t: seq<Count>): (r: seq<Row>)
    ensures RowKeys(r) == Keys(t)
  {
    if t == [] then [] else [Row(t[0].code, [Some(t[0].n)])] + Start(t[1..])
  }

  lemma {:induction false} StartCols(t: seq<Count>, k: string)
    ensures ColsOf(Start(t), k, 1) == [Lookup(t, k)]
  {
    if t != [] && t[0].code != k {
      StartCols(t[1..], k);
    }
  }

  /** `left.merge(right, how='outer', on='NAICS')`: one row per key of either
      side, the left columns (missing when the key is only on the right)
      followed by the right count (missing when the key is only on the left). */
  function MergeOuter(left: seq<Row>, w: nat, right: seq<Count>): (r: seq<Row>)
    ensures RowKeys(r) == Unique(RowKeys(left) + Keys(right))
  {
    var keys := Unique(RowKeys(left) + Keys(right));
    var r := seq(|keys|, i requires 0 <= i < |keys| => Row(keys[i], ColsOf(left, keys[i], w) + [Lookup(right, keys[i])]));
    assert RowKeys(r) == keys;
    r
  }

  /** The merged keys are unique, and are the keys of either side. */
  lemma MergeOuterKeys(left: seq<Row>, w: nat, right: seq<Count>)
    ensures NoDuplicates(RowKeys(MergeOuter(left, w, right)))
    ensures forall k :: k in RowKeys(MergeOuter(left, w, right)) <==> k in RowKeys(left) || k in Keys(right)
  {
    var cat := RowKeys(left) + Keys(right);
    var keys := Unique(cat);
    forall k
      ensures k in keys <==> k in cat
    {
      if k in keys {
        var i :| 0 <= i < |keys| && keys[i] == k;
        assert keys[i] in cat;
      }
      if k in cat {
        var i :| 0 <= i < |cat| && cat[i] == k;
        assert cat[i] in keys;
      }
    }
  }

  /** One merge appends the right-hand count to whatever the left held for every key. */
  lemma MergeStepCols(left: seq<Row>, w: nat, right: seq<Count>, k: string)
    ensures ColsOf(MergeOuter(left, w, right), k, w + 1) == ColsOf(left, k, w) + [Lookup(right, k)]
  {
    var m := MergeOuter(left, w, right);
    MergeOuterKeys(left, w, right);
    if k in RowKeys(m) {
      var i :| 0 <= i < |m| && RowKeys(m)[i] == k;
      ColsOfRow(m, i, w + 1);
    } else {
      assert Absent(w) + [None] == Absent(w + 1);
    }
  }

  /** Lines 193-195: the opportunity tally merged in turn with the city, county
      and other business tallies. */
  function Merged(opp: seq<Count>, city: seq<Count>, county: seq<Count>, other: seq<Count>): seq<Row> {
    MergeOuter(MergeOuter(MergeOuter(Start(opp), 1, city), 2, county), 3, other)
  }

  /** The merged frame has one row per code of any tally. */
  lemma MergedKeys(opp: seq<Count>, city: seq<Count>, county: seq<Count>, other: seq<Count>)
    ensures NoDuplicates(RowKeys(Merged(opp, city, county, other)))
    ensures forall k :: k in RowKeys(Merged(opp, city, county, other)) <==>
      k in Keys(opp) || k in Keys(city) || k in Keys(county) || k in Keys(other)
  {
    var m1 := MergeOuter(Start(opp), 1, city);
    var m2 := MergeOuter(m1, 2, county);
    MergeOuterKeys(Start(opp), 1, city);
    MergeOuterKeys(m1, 2, county);
    MergeOuterKeys(m2, 3, other);
  }

  /** Every key of the merged frame carries, column by column, what each tally holds for it. */
  lemma MergedCols(opp: seq<Count>, city: seq<Count>, county: seq<Count>, other: seq<Count>, k: string)
    ensures ColsOf(Merged(opp, city, county, other), k, 4) == [Lookup(opp, k), Lookup(city, k), Lookup(county, k), Lookup(other, k)]
  {
    var m1 := MergeOuter(Start(opp), 1, city);
    var m2 := MergeOuter(m1, 2, county);
    var a, b, c, d := Lookup(opp, k), Lookup(city, k), Lookup(county, k), Lookup(other, k);
    StartCols(opp, k);
    MergeStepCols(Start(opp), 1, city, k);
    assert ColsOf(m1, k, 2) == [a, b];
    MergeStepCols(m1, 2, county, k);
    assert ColsOf(m2, k, 3) == [a, b, c];
    MergeStepCols(m2, 3, other, k);
    assert ColsOf(MergeOuter(m2, 3, other), k, 4) == [a, b, c, d];
  }

  lemma MergedRows(opp: seq<Count>, city: seq<Count>, county: seq<Count>, other: seq<Count>)
    ensures var m := Merged(opp, city, county, other);
            forall i :: 0 <= i < |m| ==>
              m[i].counts == [Lookup(opp, m[i].naics), Lookup(city, m[i].naics), Lookup(county, m[i].naics), Lookup(other, m[i].naics)]
  {
    var m := Merged(opp, city, county, other);
    MergedKeys(opp, city, county, other);
    forall i | 0 <= i < |m|
      ensures m[i].counts == [Lookup(opp, m[i].naics), Lookup(city, m[i].naics), Lookup(county, m[i].naics), Lookup(other, m[i].naics)]
    {
      ColsOfRow(m, i, 4);
      MergedCols(opp, city, county, other, m[i].naics);
    }
  }

  // --------------------------------------------------------- filling, sorting

  function FillRow(r: Row): (f: Row)
    ensures f.naics == r.naics && |f.counts| == |r.counts|
    ensures forall j :: 0 <= j < |r.counts| ==> f.counts[j] == Some(r.counts[j].GetOr(0))
  {
    Row(r.naics, seq(|r.counts|, j requires 0 <= j < |r.counts| => Some(r.counts[j].GetOr(0))))
  }

  /** Line 197, `replace(np.nan, 0)`: every missing count becomes 0, nothing else changes. */
  function Fill(rows: seq<Row>): (r: seq<Row>)
    ensures |r| == |rows| && RowKeys(r) == RowKeys(rows)
    ensures forall i :: 0 <= i < |r| ==> r[i] == FillRow(rows[i])
  {
    seq(|rows|, i requires 0 <= i < |rows| => FillRow(rows[i]))
  }

  /** The sort key `all_opp_count`. */
  function OppCount(r: Row): nat {
    if |r.counts| > 0 then r.counts[0].GetOr(0) else 0
  }

  /** The merged table of line 203: merged, filled and sorted. */
  function FinalTable(opp: seq<Count>, city: seq<Count>, county: seq<Count>, other: seq<Count>): seq<Row> {
    SortDesc(Fill(Merged(opp, city, county, other)), OppCount)
  }

  /** The merged frame `merged`, updated in place by lines 197-203. */
  class MergedFrame {
    var rows: seq<Row>

    /** Lines 193-195. */
    constructor (opp: seq<Count>, city: seq<Count>, county: seq<Count>, other: seq<Count>)
      ensures rows == Merged(opp, city, county, other)
    {
      rows := Merged(opp, city, county, other);
    }

    /** Lines 197-201: NaN counts become 0 and every count column is an integer. */
    method FillMissing()
      modifies this
      ensures rows == Fill(old(rows))
      ensures forall i, j :: 0 <= i < |rows| && 0 <= j < |rows[i].counts| ==> rows[i].counts[j].Some?
    {
      rows := Fill(rows);
    }

    /** Line 203. */
    method SortByOppCount()
      modifies this
      ensures rows == SortDesc(old(rows), OppCount)
      ensures SortedDesc(rows, OppCount) && multiset(rows) == multiset(old(rows))
    {
      SortDescSorted(rows, OppCount);
      rows := SortDesc(rows, OppCount);
    }
  }

  /** Lines 146-203 from the opportunity codes and the three business buckets:
      the final table holds every code of any input exactly as often as it
      occurs there (0 where absent), and is ordered by opportunity count. */
  method MergeCounts(oppCodes: seq<string>, all: seq<Business>, ref: Reference) returns (table: seq<Row>)
    ensures SortedDesc(table, OppCount)
    ensures NoDuplicates(RowKeys(table))
    ensures forall k :: k in RowKeys(table) <==>
      k in oppCodes || k in NaicsOf(CityBiz(all, ref)) || k in NaicsOf(CountyBiz(all, ref)) || k in NaicsOf(OtherBiz(all, ref))
    ensures forall i :: 0 <= i < |table| ==>
      table[i].counts == [Some(Occurrences(oppCodes, table[i].naics)),
                          Some(Occurrences(NaicsOf(CityBiz(all, ref)), table[i].naics)),
                          Some(Occurrences(NaicsOf(CountyBiz(all, ref)), table[i].naics)),
                          Some(Occurrences(NaicsOf(OtherBiz(all, ref)), table[i].naics))]
  {
    var c1, c2, c3 := NaicsOf(CityBiz(all, ref)), NaicsOf(CountyBiz(all, ref)), NaicsOf(OtherBiz(all, ref));
    var frame := new MergedFrame(Tally(oppCodes), Tally(c1), Tally(c2), Tally(c3));
    frame.FillMissing();
    frame.SortByOppCount();
    table := frame.rows;
    FinalTableKeys(oppCodes, c1, c2, c3);
    FinalTableCounts(oppCodes, c1, c2, c3);
    FinalKeysUnique(Tally(oppCodes), Tally(c1), Tally(c2), Tally(c3));
  }

  /** src/geography.py from the raw tables to the merged table: the ZIP table,
      the business listing and the opportunity report are cleaned in place
      (lines 28, 65-92 and 173-181), the reference collections are built from
      the cleaned ZIP table (lines 35-48), and the cleaned businesses are
      bucketed, tallied, merged, filled and sorted (lines 124-203). Every code
      of the result is a cleaned code. */
  method BusinessCounts(zips: ZipFrame, biz: BusinessFrame, opp: OpportunityFrame) returns (table: seq<Row>, ref: Reference)
    requires zips.Valid() && biz.Valid()
    modifies zips, biz, opp
    ensures zips.Valid() && zips.zip == old(zips.zip)
    ensures forall i :: 0 <= i < |zips.postalCity| ==> zips.postalCity[i] == NormalizeCity(old(zips.postalCity)[i])
    ensures biz.Cleaned() && biz.zip9 == old(biz.zip9) && biz.details == old(biz.details)
    ensures forall i :: 0 <= i < |biz.naics| ==> biz.naics[i] == Text(NormalizeNaics(old(biz.naics)[i]))
    ensures forall i :: 0 <= i < |biz.city| ==> biz.city[i] == Text(NormalizeCity(AsStr(old(biz.city)[i])))
    ensures forall i :: 0 <= i < |biz.zip5| ==> biz.zip5[i] == Text(Zip5(biz.zip9[i]))
    ensures |opp.naics| == |old(opp.naics)|
    ensures forall i :: 0 <= i < |opp.naics| ==> opp.naics[i] == Text(NormalizeNaics(old(opp.naics)[i]))
    ensures ref == BuildReference(zips.Rows())
    ensures SortedDesc(table, OppCount)
    ensures NoDuplicates(RowKeys(table))
    ensures forall k :: k in RowKeys(table) <==>
      k in opp.Codes() || k in NaicsOf(CityBiz(biz.Rows(), ref))
      || k in NaicsOf(CountyBiz(biz.Rows(), ref)) || k in NaicsOf(OtherBiz(biz.Rows(), ref))
    ensures forall i :: 0 <= i < |table| ==>
      table[i].counts == [Some(Occurrences(opp.Codes(), table[i].naics)),
                          Some(Occurrences(NaicsOf(CityBiz(biz.Rows(), ref)), table[i].naics)),
                          Some(Occurrences(NaicsOf(CountyBiz(biz.Rows(), ref)), table[i].naics)),
                          Some(Occurrences(NaicsOf(OtherBiz(biz.Rows(), ref)), table[i].naics))]
    ensures forall i :: 0 <= i < |table| ==> NaicsShaped(table[i].naics)
  {
    zips.Clean();
    ref := BuildReference(zips.Rows());
    ghost var rawBiz, rawOpp := biz.naics, opp.naics;
    biz.Clean();
    opp.Clean();
    var all := biz.Rows();
    var oppCodes := opp.Codes();
    table := MergeCounts(oppCodes, all, ref);
    CleanedCodesShaped(oppCodes, opp.naics, rawOpp);
    CleanedRowsShaped(all, biz.naics, rawBiz);
    TableShaped(table, oppCodes, all, ref);
  }

  lemma CleanedCodesShaped(codes: seq<string>, col: seq<Cell>, raw: seq<Cell>)
    requires |codes| == |col| == |raw|
    requires forall i :: 0 <= i < |col| ==> codes[i] == AsStr(col[i]) && col[i] == Text(NormalizeNaics(raw[i]))
    ensures forall k :: k in codes ==> NaicsShaped(k)
  {
    forall k | k in codes
      ensures NaicsShaped(k)
    {
      var j :| 0 <= j < |codes| && codes[j] == k;
      NormalizedShaped(raw[j]);
    }
  }

  lemma CleanedRowsShaped(all: seq<Business>, col: seq<Cell>, raw: seq<Cell>)
    requires |all| == |col| == |raw|
    requires forall i :: 0 <= i < |col| ==> col[i] == Text(NormalizeNaics(raw[i])) && all[i].naics == col[i].s
    ensures forall b :: b in all ==> NaicsShaped(b.naics)
  {
    forall b | b in all
      ensures NaicsShaped(b.naics)
    {
      var j :| 0 <= j < |all| && all[j] == b;
      NormalizedShaped(raw[j]);
    }
  }

  /** A merged table drawn from cleaned codes holds only cleaned codes. */
  lemma TableShaped(table: seq<Row>, oppCodes: seq<string>, all: seq<Business>, ref: Reference)
    requires forall k :: k in oppCodes ==> NaicsShaped(k)
    requires forall b :: b in all ==> NaicsShaped(b.naics)
    requires forall k :: k in RowKeys(table) ==>
      k in oppCodes || k in NaicsOf(CityBiz(all, ref)) || k in NaicsOf(CountyBiz(all, ref)) || k in NaicsOf(OtherBiz(all, ref))
    ensures forall i :: 0 <= i < |table| ==> NaicsShaped(table[i].naics)
  {
    BucketCodesShaped(all, CityMask(ref));
    BucketCodesShaped(all, CountyMask(ref));
    BucketCodesShaped(all, OtherMask(ref));
    forall i | 0 <= i < |table|
      ensures NaicsShaped(table[i].naics)
    {
      assert RowKeys(table)[i] == table[i].naics;
    }
  }

  /** The codes of a bucket of rows with cleaned codes are cleaned codes. */
  lemma BucketCodesShaped(all: seq<Business>, mask: Business -> bool)
    requires forall b :: b in all ==> NaicsShaped(b.naics)
    ensures forall k :: k in NaicsOf(Filter(all, mask)) ==> NaicsShaped(k)
  {
    forall k | k in NaicsOf(Filter(all, mask))
      ensures NaicsShaped(k)
    {
      var f := Filter(all, mask);
      var i :| 0 <= i < |f| && NaicsOf(f)[i] == k;
      FilterMember(all, mask, f[i]);
    }
  }

  /** A permutation of a table has the same size and the same keys. */
  lemma PermutedKeys(f: seq<Row>, t: seq<Row>)
    requires multiset(t) == multiset(f)
    ensures |t| == |f|
    ensures forall k :: k in RowKeys(t) <==> k in RowKeys(f)
  {
    assert |multiset(t)| == |multiset(f)|;
    forall k
      ensures k in RowKeys(t) <==> k in RowKeys(f)
    {
      if k in RowKeys(t) {
        var i :| 0 <= i < |t| && RowKeys(t)[i] == k;
        assert t[i] in multiset(f);
        var j :| 0 <= j < |f| && f[j] == t[i];
        assert RowKeys(f)[j] == k;
      }
      if k in RowKeys(f) {
        var j :| 0 <= j < |f| && RowKeys(f)[j] == k;
        assert f[j] in multiset(t);
        var i :| 0 <= i < |t| && t[i] == f[j];
        assert RowKeys(t)[i] == k;
      }
    }
  }

  /** Rows with unique keys are unique rows: each occurs at most once. */
  lemma {:induction false} UniqueKeysOnce(f: seq<Row>, x: Row)
    requires NoDuplicates(RowKeys(f))
    ensures multiset(f)[x] <= 1
  {
    if f != [] {
      assert f == [f[0]] + f[1..];
      assert RowKeys(f) == [f[0].naics] + RowKeys(f[1..]);
      NoDuplicatesCons(f[0].naics, RowKeys(f[1..]));
      UniqueKeysOnce(f[1..], x);
      MemberKey(f[1..], x);
    }
  }

  /** The key of a row of the frame is one of its keys. */
  lemma MemberKey(rows: seq<Row>, x: Row)
    ensures x in rows ==> x.naics in RowKeys(rows)
  {
    if x in rows {
      var j :| 0 <= j < |rows| && rows[j] == x;
      assert RowKeys(rows)[j] == x.naics;
    }
  }

  /** A row at two positions occurs at least twice. */
  lemma TwiceAt<T>(s: seq<T>, i: nat, j: nat)
    requires i < j < |s| && s[i] == s[j]
    ensures multiset(s)[s[i]] >= 2
  {
    assert s == s[..j] + [s[j]] + s[j + 1..];
    assert s[..j][i] == s[i];
  }

  /** Reordering rows with unique keys keeps the keys unique. */
  lemma PermutedKeysUnique(f: seq<Row>, t: seq<Row>)
    requires multiset(t) == multiset(f)
    requires NoDuplicates(RowKeys(f))
    ensures NoDuplicates(RowKeys(t))
  {
    forall i, j | 0 <= i < j < |t|
      ensures RowKeys(t)[i] != RowKeys(t)[j]
    {
      if t[i] == t[j] {
        TwiceAt(t, i, j);
        UniqueKeysOnce(f, t[i]);
      } else {
        assert t[i] in multiset(f) && t[j] in multiset(f);
        var a :| 0 <= a < |f| && f[a] == t[i];
        var b :| 0 <= b < |f| && f[b] == t[j];
        assert RowKeys(f)[a] == t[i].naics && RowKeys(f)[b] == t[j].naics;
      }
    }
  }

  /** Filling a row of four counts replaces each missing count by 0. */
  lemma FillFour(r: Row, a: Option<nat>, b: Option<nat>, c: Option<nat>, d: Option<nat>)
    requires r.counts == [a, b, c, d]
    ensures FillRow(r).counts == [Some(a.GetOr(0)), Some(b.GetOr(0)), Some(c.GetOr(0)), Some(d.GetOr(0))]
  {
  }

  /** A code missing from a tally is filled with 0, which is its number of occurrences. */
  lemma FilledLookup(codes: seq<string>, k: string)
    ensures Lookup(Tally(codes), k).GetOr(0) == Occurrences(codes, k)
  {
    LookupTally(codes, k);
  }

  /** The final table has a row for exactly the codes of the four tallies. */
  lemma FinalKeys(opp: seq<Count>, city: seq<Count>, county: seq<Count>, other: seq<Count>)
    ensures forall k :: k in RowKeys(FinalTable(opp, city, county, other)) <==>
      k in Keys(opp) || k in Keys(city) || k in Keys(county) || k in Keys(other)
  {
    var f := Fill(Merged(opp, city, county, other));
    PermutedKeys(f, SortDesc(f, OppCount));
    MergedKeys(opp, city, county, other);
  }

  /** The final table has one row per code. */
  lemma FinalKeysUnique(opp: seq<Count>, city: seq<Count>, county: seq<Count>, other: seq<Count>)
    ensures NoDuplicates(RowKeys(FinalTable(opp, city, county, other)))
  {
    var f := Fill(Merged(opp, city, county, other));
    MergedKeys(opp, city, county, other);
    PermutedKeysUnique(f, SortDesc(f, OppCount));
  }

  /** Every row of the final table holds what each tally has for its code, 0 where it has nothing. */
  lemma FinalCounts(opp: seq<Count>, city: seq<Count>, county: seq<Count>, other: seq<Count>)
    ensures var t := FinalTable(opp, city, county, other);
      forall i :: 0 <= i < |t| ==>
        t[i].counts == [Some(Lookup(opp, t[i].naics).GetOr(0)), Some(Lookup(city, t[i].naics).GetOr(0)),
                        Some(Lookup(county, t[i].naics).GetOr(0)), Some(Lookup(other, t[i].naics).GetOr(0))]
  {
    var f := Fill(Merged(opp, city, county, other));
    var t := SortDesc(f, OppCount);
    forall i | 0 <= i < |t|
      ensures t[i].counts == [Some(Lookup(opp, t[i].naics).GetOr(0)), Some(Lookup(city, t[i].naics).GetOr(0)),
                              Some(Lookup(county, t[i].naics).GetOr(0)), Some(Lookup(other, t[i].naics).GetOr(0))]
    {
      assert t[i] in multiset(f);
      FilledRowCounts(opp, city, county, other, t[i]);
    }
  }

  /** A row of the filled merge holds what each tally has for its code, 0 where it has nothing. */
  lemma FilledRowCounts(opp: seq<Count>, city: seq<Count>, county: seq<Count>, other: seq<Count>, x: Row)
    requires x in Fill(Merged(opp, city, county, other))
    ensures x.counts == [Some(Lookup(opp, x.naics).GetOr(0)), Some(Lookup(city, x.naics).GetOr(0)),
                         Some(Lookup(county, x.naics).GetOr(0)), Some(Lookup(other, x.naics).GetOr(0))]
  {
    var m := Merged(opp, city, county, other);
    var f := Fill(m);
    MergedRows(opp, city, county, other);
    var j :| 0 <= j < |f| && f[j] == x;
    var k := m[j].naics;
    assert f[j] == FillRow(m[j]);
    FillFour(m[j], Lookup(opp, k), Lookup(city, k), Lookup(county, k), Lookup(other, k));
  }

  /** The final table has a row for exactly the codes occurring in any input. */
  lemma FinalTableKeys(opp: seq<string>, city: seq<string>, county: seq<string>, other: seq<string>)
    ensures forall k :: k in RowKeys(FinalTable(Tally(opp), Tally(city), Tally(county), Tally(other))) <==>
      k in opp || k in city || k in county || k in other
  {
    FinalKeys(Tally(opp), Tally(city), Tally(county), Tally(other));
    forall k
      ensures k in Keys(Tally(opp)) <==> k in opp
      ensures k in Keys(Tally(city)) <==> k in city
      ensures k in Keys(Tally(county)) <==> k in county
      ensures k in Keys(Tally(other)) <==> k in other
    {
      TallyKeys(opp, k);
      TallyKeys(city, k);
      TallyKeys(county, k);
      TallyKeys(other, k);
    }
  }

  /** Every row of the final table holds, for its code, the number of
      occurrences in each input (0 where the code does not occur). */
  lemma FinalTableCounts(opp: seq<string>, city: seq<string>, county: seq<string>, other: seq<string>)
    ensures var t := FinalTable(Tally(opp), Tally(city), Tally(county), Tally(other));
      forall i :: 0 <= i < |t| ==>
        t[i].counts == [Some(Occurrences(opp, t[i].naics)), Some(Occurrences(city, t[i].naics)),
                        Some(Occurrences(county, t[i].naics)), Some(Occurrences(other, t[i].naics))]
  {
    var t := FinalTable(Tally(opp), Tally(city), Tally(county), Tally(other));
    FinalCounts(Tally(opp), Tally(city), Tally(county), Tally(other));
    forall i | 0 <= i < |t|
      ensures t[i].counts == [Some(Occurrences(opp, t[i].naics)), Some(Occurrences(city, t[i].naics)),
                              Some(Occurrences(county, t[i].naics)), Some(Occurrences(other, t[i].naics))]
    {
      FilledLookup(opp, t[i].naics);
      FilledLookup(city, t[i].naics);
      FilledLookup(county, t[i].naics);
      FilledLookup(other, t[i].naics);
    }
  }
}
