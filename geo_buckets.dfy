/** The reference collections built from the ZIP-to-postal-city table and the
    boolean masks of src/geography.py that sort businesses into city / county /
    other and awards into city / county / in-state / out-of-state. The masks
    are modelled exactly as written: the two ZIP collections may share codes,
    the business buckets need not cover every business, and the award
    buckets may overlap. The "sanity check" expressions of the script are
    modelled too, with lemmas saying exactly what they measure. */
module GeoBuckets {
  import opened Seqs
  import opened GeoNormalize

  /** `city_zips`, `county_zips` and `county_names`, each as `unique()` leaves it. */
  datatype Reference = Reference(cityZips: seq<string>, countyZips: seq<string>, countyNames: seq<string>)

  function Zips(rows: seq<ZipRow>): (r: seq<string>)
    ensures |r| == |rows| && forall i :: 0 <= i < |rows| ==> r[i] == rows[i].zip
  {
    seq(|rows|, i requires 0 <= i < |rows| => rows[i].zip)
  }

  function Cities(rows: seq<ZipRow>): (r: seq<string>)
    ensures |r| == |rows| && forall i :: 0 <= i < |rows| ==> r[i] == rows[i].city
  {
    seq(|rows|, i requires 0 <= i < |rows| => rows[i].city)
  }

  predicate InPrimaryCity(r: ZipRow) {
    r.city == LosAngeles
  }

  predicate OutsidePrimaryCity(r: ZipRow) {
    r.city != LosAngeles
  }

  /** src/geography.py lines 35-48, over the table whose city names line 28 has
      already normalised: ZIPs of rows in the primary city; ZIPs and names of
      rows in any other city. */
  function BuildReference(rows: seq<ZipRow>): (ref: Reference)
    ensures NoDuplicates(ref.cityZips) && NoDuplicates(ref.countyZips) && NoDuplicates(ref.countyNames)
  {
    var inCity := Filter(rows, InPrimaryCity);
    var outside := Filter(rows, OutsidePrimaryCity);
    Reference(Unique(Zips(inCity)), Unique(Zips(outside)), Unique(Cities(outside)))
  }

  /** The values of a column contain `z` exactly when some row carries it. */
  lemma ColumnMember(rows: seq<ZipRow>, col: seq<string>, z: string, p: ZipRow -> bool, field: ZipRow -> string)
    requires |col| == |Filter(rows, p)|
    requires forall j :: 0 <= j < |col| ==> col[j] == field(Filter(rows, p)[j])
    ensures z in col <==> exists i :: 0 <= i < |rows| && p(rows[i]) && field(rows[i]) == z
  {
    if z in col {
      ColumnValueFromRow(rows, col, z, p, field);
    }
    if exists i :: 0 <= i < |rows| && p(rows[i]) && field(rows[i]) == z {
      var i :| 0 <= i < |rows| && p(rows[i]) && field(rows[i]) == z;
      ColumnValueOfRow(rows, col, i, p, field);
    }
  }

  lemma ColumnValueFromRow(rows: seq<ZipRow>, col: seq<string>, z: string, p: ZipRow -> bool, field: ZipRow -> string)
    requires |col| == |Filter(rows, p)|
    requires forall j :: 0 <= j < |col| ==> col[j] == field(Filter(rows, p)[j])
    requires z in col
    ensures exists i :: 0 <= i < |rows| && p(rows[i]) && field(rows[i]) == z
  {
    var f := Filter(rows, p);
    var j :| 0 <= j < |col| && col[j] == z;
    var x := f[j];
    FilterMember(rows, p, x);
    var i :| 0 <= i < |rows| && rows[i] == x;
    assert p(rows[i]) && field(rows[i]) == z;
  }

  lemma ColumnValueOfRow(rows: seq<ZipRow>, col: seq<string>, i: int, p: ZipRow -> bool, field: ZipRow -> string)
    requires |col| == |Filter(rows, p)|
    requires forall j :: 0 <= j < |col| ==> col[j] == field(Filter(rows, p)[j])
    requires 0 <= i < |rows| && p(rows[i])
    ensures field(rows[i]) in col
  {
    var f := Filter(rows, p);
    var x := rows[i];
    FilterMember(rows, p, x);
    var j :| 0 <= j < |f| && f[j] == x;
    assert col[j] == field(x);
  }

  /** A ZIP is a city ZIP exactly when some row of the primary city carries it. */
  lemma CityZipsMembers(rows: seq<ZipRow>, z: string)
    ensures z in BuildReference(rows).cityZips
        <==> exists i :: 0 <= i < |rows| && rows[i].city == LosAngeles && rows[i].zip == z
  {
    ColumnMember(rows, Zips(Filter(rows, InPrimaryCity)), z, InPrimaryCity, (r: ZipRow) => r.zip);
  }

  /** A ZIP is a county ZIP exactly when some row of another city carries it. */
  lemma CountyZipsMembers(rows: seq<ZipRow>, z: string)
    ensures z in BuildReference(rows).countyZips
        <==> exists i :: 0 <= i < |rows| && rows[i].city != LosAngeles && rows[i].zip == z
  {
    ColumnMember(rows, Zips(Filter(rows, OutsidePrimaryCity)), z, OutsidePrimaryCity, (r: ZipRow) => r.zip);
  }

  /** The county names are exactly the names of the other cities. */
  lemma CountyNamesMembers(rows: seq<ZipRow>, z: string)
    ensures z in BuildReference(rows).countyNames
        <==> exists i :: 0 <= i < |rows| && rows[i].city != LosAngeles && rows[i].city == z
  {
    ColumnMember(rows, Cities(Filter(rows, OutsidePrimaryCity)), z, OutsidePrimaryCity, (r: ZipRow) => r.city);
  }

  /** The primary city's own name is never a county name. */
  lemma PrimaryCityNotCountyName(rows: seq<ZipRow>)
    ensures LosAngeles !in BuildReference(rows).countyNames
  {
    CountyNamesMembers(rows, LosAngeles);
  }

  /** The ZIP collections are not disjoint in general: a ZIP listed for the
      primary city and for a neighbouring city lands in both, which is what the
      loop of lines 50-52 prints. */
  lemma ZipSetsMayOverlap()
    ensures var ref := BuildReference([ZipRow(LosAngeles, "90058"), ZipRow("vernon", "90058")]);
            "90058" in ref.cityZips && "90058" in ref.countyZips
  {
    var rows := [ZipRow(LosAngeles, "90058"), ZipRow("vernon", "90058")];
    CityZipsMembers(rows, "90058");
    CountyZipsMembers(rows, "90058");
    assert rows[0].city == LosAngeles && rows[0].zip == "90058";
    assert rows[1].city != LosAngeles && rows[1].zip == "90058";
  }

  /** The ZIPs the loop of lines 50-52 prints: city ZIPs that are also county ZIPs, in order. */
  method ReportSharedZips(ref: Reference) returns (printed: seq<string>)
    ensures printed == Filter(ref.cityZips, (z: string) => z in ref.countyZips)
    ensures forall z :: z in printed <==> z in ref.cityZips && z in ref.countyZips
  {
    printed := [];
    var i := 0;
    while i < |ref.cityZips|
      invariant 0 <= i <= |ref.cityZips|
      invariant printed == Filter(ref.cityZips[..i], (z: string) => z in ref.countyZips)
    {
      var x := ref.cityZips[i];
      assert ref.cityZips[..i + 1] == ref.cityZips[..i] + [x];
      FilterAppend(ref.cityZips[..i], [x], (z: string) => z in ref.countyZips);
      if x in ref.countyZips {
        printed := printed + [x];
      }
      i := i + 1;
    }
    assert ref.cityZips[..i] == ref.cityZips;
  }

  // ---------------------------------------------------------------- businesses

  /** Line 110: ZIP in the city ZIPs, or the city name is the primary city. */
  predicate InCityBiz(b: Business, ref: Reference) {
    b.zip5 in ref.cityZips || b.city == LosAngeles
  }

  /** Line 119: ZIP in the county ZIPs and the city name is not the primary city. */
  predicate InCountyBiz(b: Business, ref: Reference) {
    b.zip5 in ref.countyZips && b.city != LosAngeles
  }

  /** Line 131: ZIP in neither collection, not the primary city, not a county name. */
  predicate InOtherBiz(b: Business, ref: Reference) {
    b.zip5 !in ref.cityZips && b.zip5 !in ref.countyZips && b.city != LosAngeles && b.city !in ref.countyNames
  }

  predicate Unbucketed(b: Business, ref: Reference) {
    !InCityBiz(b, ref) && !InCountyBiz(b, ref) && !InOtherBiz(b, ref)
  }

  function CityMask(ref: Reference): Business -> bool {
    b => InCityBiz(b, ref)
  }

  function CountyMask(ref: Reference): Business -> bool {
    b => InCountyBiz(b, ref)
  }

  function OtherMask(ref: Reference): Business -> bool {
    b => InOtherBiz(b, ref)
  }

  function CityBiz(all: seq<Business>, ref: Reference): seq<Business> {
    Filter(all, CityMask(ref))
  }

  function CountyBiz(all: seq<Business>, ref: Reference): seq<Business> {
    Filter(all, CountyMask(ref))
  }

  function OtherBiz(all: seq<Business>, ref: Reference): seq<Business> {
    Filter(all, OtherMask(ref))
  }

  /** A business whose city is the primary city is a city business and
      neither a county nor an other business. */
  lemma PrimaryCityBusiness(all: seq<Business>, ref: Reference, i: nat)
    requires i < |all| && all[i].city == LosAngeles
    ensures all[i] in CityBiz(all, ref)
    ensures all[i] !in CountyBiz(all, ref) && all[i] !in OtherBiz(all, ref)
  {
    assert InCityBiz(all[i], ref);
  }

  /** Other businesses are neither city nor county businesses. */
  lemma OtherBizDisjoint(all: seq<Business>, ref: Reference)
    ensures forall b :: b in OtherBiz(all, ref) ==> b !in CityBiz(all, ref) && b !in CountyBiz(all, ref)
  {
  }

  /** A business is both a city and a county business exactly when its ZIP is
      in both collections and its city is not the primary city. */
  lemma CityAndCountyBiz(b: Business, ref: Reference)
    ensures InCityBiz(b, ref) && InCountyBiz(b, ref)
        <==> b.zip5 in ref.cityZips && b.zip5 in ref.countyZips && b.city != LosAngeles
  {
  }

  /** A business falls in no bucket exactly when its ZIP is in neither
      collection, its city is not the primary city, and its city is a county name. */
  lemma UnbucketedExactly(b: Business, ref: Reference)
    ensures Unbucketed(b, ref)
        <==> b.zip5 !in ref.cityZips && b.zip5 !in ref.countyZips && b.city != LosAngeles && b.city in ref.countyNames
  {
  }

  /** A business can be both a city and a county business. */
  lemma BucketOverlapExample()
    ensures var ref := BuildReference([ZipRow(LosAngeles, "90058"), ZipRow("vernon", "90058")]);
            && InCityBiz(Business("541213", "vernon", "90058", "90058-1234", ""), ref)
            && InCountyBiz(Business("541213", "vernon", "90058", "90058-1234", ""), ref)
  {
    var rows := [ZipRow(LosAngeles, "90058"), ZipRow("vernon", "90058")];
    assert "vernon" != LosAngeles by {
      assert "vernon"[0] != LosAngeles[0];
    }
    CityZipsMembers(rows, "90058");
    CountyZipsMembers(rows, "90058");
    assert rows[0].city == LosAngeles && rows[0].zip == "90058";
    assert rows[1].city != LosAngeles && rows[1].zip == "90058";
  }

  /** A business can fall in no bucket. */
  lemma BucketGapExample()
    ensures var ref := BuildReference([ZipRow("pasadena", "91101")]);
            Unbucketed(Business("541213", "pasadena", "91001", "91001-1234", ""), ref)
  {
    var rows := [ZipRow("pasadena", "91101")];
    assert "pasadena" != LosAngeles by {
      assert "pasadena"[0] != LosAngeles[0];
    }
    assert "91001" != "91101" by {
      assert "91001"[2] != "91101"[2];
    }
    CityZipsMembers(rows, "91001");
    CountyZipsMembers(rows, "91001");
    CountyNamesMembers(rows, "pasadena");
    assert rows[0].city != LosAngeles && rows[0].city == "pasadena";
  }

  /** The row-count form of the sanity check of line 143 (each `size` there is
      the row count times the common column count): what it reports is the
      number of unbucketed businesses minus the number counted twice. */
  lemma {:induction false} SanityCount(all: seq<Business>, ref: Reference)
    ensures |all| - |CityBiz(all, ref)| - |CountyBiz(all, ref)| - |OtherBiz(all, ref)|
         == |Filter(all, (b: Business) => Unbucketed(b, ref))| - |Filter(all, (b: Business) => InCityBiz(b, ref) && InCountyBiz(b, ref))|
  {
    if all != [] {
      SanityCount(all[1..], ref);
    }
  }

  /** Line 140: `drop_duplicates(keep=False)` over the three buckets followed by
      the whole table keeps the rows that occur exactly once in that concatenation. */
  function SanityResidue(all: seq<Business>, ref: Reference): seq<Business> {
    var cat := CityBiz(all, ref) + CountyBiz(all, ref) + OtherBiz(all, ref) + all;
    Filter(cat, (b: Business) => Occurrences(cat, b) == 1)
  }

  /** How often a business occurs in the concatenation of line 140: once for
      the table plus once more for each bucket that selects it. */
  lemma ResidueOccurrences(all: seq<Business>, ref: Reference, b: Business)
    ensures var cat := CityBiz(all, ref) + CountyBiz(all, ref) + OtherBiz(all, ref) + all;
            Occurrences(cat, b) == Occurrences(all, b) * (1 + (if InCityBiz(b, ref) then 1 else 0)
              + (if InCountyBiz(b, ref) then 1 else 0) + (if InOtherBiz(b, ref) then 1 else 0))
  {
    var c, k, o := CityBiz(all, ref), CountyBiz(all, ref), OtherBiz(all, ref);
    OccurrencesAppend(c + k + o, all, b);
    OccurrencesAppend(c + k, o, b);
    OccurrencesAppend(c, k, b);
    OccurrencesFilter(all, CityMask(ref), b);
    OccurrencesFilter(all, CountyMask(ref), b);
    OccurrencesFilter(all, OtherMask(ref), b);
  }

  /** No row of a bucket occurs exactly once in the concatenation: it is also in the table. */
  lemma NoSingleInBucket(all: seq<Business>, ref: Reference, bucket: seq<Business>, once: Business -> bool)
    requires bucket == CityBiz(all, ref) || bucket == CountyBiz(all, ref) || bucket == OtherBiz(all, ref)
    requires forall b :: once(b) == (Occurrences(CityBiz(all, ref) + CountyBiz(all, ref) + OtherBiz(all, ref) + all, b) == 1)
    ensures Filter(bucket, once) == []
  {
    var f := Filter(bucket, once);
    if f != [] {
      var b := f[0];
      assert b in bucket && b in all;
      ResidueOccurrences(all, ref, b);
      assert false;
    }
  }

  /** What line 140 shows: exactly the businesses, in table order, that are in no
      bucket and have no identical copy elsewhere in the table. */
  lemma SanityResidueExactly(all: seq<Business>, ref: Reference)
    ensures SanityResidue(all, ref) == Filter(all, (b: Business) => Occurrences(all, b) == 1 && Unbucketed(b, ref))
  {
    var c, k, o := CityBiz(all, ref), CountyBiz(all, ref), OtherBiz(all, ref);
    var cat := c + k + o + all;
    var once := (b: Business) => Occurrences(cat, b) == 1;
    FilterAppend(c + k + o, all, once);
    FilterAppend(c + k, o, once);
    FilterAppend(c, k, once);
    NoSingleInBucket(all, ref, c, once);
    NoSingleInBucket(all, ref, k, once);
    NoSingleInBucket(all, ref, o, once);
    forall b | b in all
      ensures once(b) == (Occurrences(all, b) == 1 && Unbucketed(b, ref))
    {
      ResidueOccurrences(all, ref, b);
    }
    FilterCongruent(all, once, (b: Business) => Occurrences(all, b) == 1 && Unbucketed(b, ref));
  }

  // -------------------------------------------------------------------- awards

  /** `STATE == 'CA'`; a missing state compares unequal. */
  predicate InCalifornia(a: Award) {
    a.state == Text("CA")
  }

  /** Line 291. The postal code is compared through `astype(str)`. */
  predicate InCountyAward(a: Award, ref: Reference) {
    AsStr(a.zip) in ref.countyZips && a.city != LosAngeles
  }

  /** Line 292. */
  predicate InCityAward(a: Award, ref: Reference) {
    AsStr(a.zip) in ref.cityZips || a.city == LosAngeles
  }

  /** Line 293. */
  predicate InStateAward(a: Award, ref: Reference) {
    InCalifornia(a) && AsStr(a.zip) !in ref.countyZips && AsStr(a.zip) !in ref.cityZips
  }

  /** Lines 288 and 294 (the same mask). */
  predicate OutOfStateAward(a: Award) {
    !InCalifornia(a)
  }

  function CountyAwardMask(ref: Reference): Award -> bool {
    a => InCountyAward(a, ref)
  }

  function CityAwardMask(ref: Reference): Award -> bool {
    a => InCityAward(a, ref)
  }

  function StateAwardMask(ref: Reference): Award -> bool {
    a => InStateAward(a, ref)
  }

  function AwardsInCounty(awards: seq<Award>, ref: Reference): seq<Award> {
    Filter(awards, CountyAwardMask(ref))
  }

  function AwardsInCity(awards: seq<Award>, ref: Reference): seq<Award> {
    Filter(awards, CityAwardMask(ref))
  }

  function AwardsInState(awards: seq<Award>, ref: Reference): seq<Award> {
    Filter(awards, StateAwardMask(ref))
  }

  function AwardsOutOfState(awards: seq<Award>): seq<Award> {
    Filter(awards, OutOfStateAward)
  }

  /** In-state awards are neither county awards nor out-of-state awards. */
  lemma InStateDisjoint(awards: seq<Award>, ref: Reference)
    ensures forall a :: a in AwardsInState(awards, ref) ==>
      a !in AwardsInCounty(awards, ref) && a !in AwardsOutOfState(awards)
  {
  }

  /** Out-of-state awards are exactly the awards whose state is not "CA"
      (missing included); with the California awards of line 300 they make
      up the whole table. */
  lemma StatePartition(awards: seq<Award>)
    ensures forall a :: a in AwardsOutOfState(awards) <==> a in awards && a.state != Text("CA")
    ensures |Filter(awards, InCalifornia)| + |AwardsOutOfState(awards)| == |awards|
  {
    FilterComplement(awards, InCalifornia);
    FilterCongruent(awards, (a: Award) => !InCalifornia(a), OutOfStateAward);
  }

  /** In-state and city awards can overlap, through the city name. */
  lemma InStateCityOverlapExample(ref: Reference)
    requires "90012" !in ref.cityZips && "90012" !in ref.countyZips
    ensures var a := Award(LosAngeles, Text("90012"), Text("CA"), "");
            InStateAward(a, ref) && InCityAward(a, ref)
  {
  }

  /** Unlike the business buckets, every award lands in at least one bucket. */
  lemma AwardBucketsCover(a: Award, ref: Reference)
    ensures InCityAward(a, ref) || InCountyAward(a, ref) || InStateAward(a, ref) || OutOfStateAward(a)
  {
  }

  /** Hence the sanity check of line 305 is never positive: it is minus the
      number of extra bucket memberships. */
  lemma AwardSanityNonPositive(awards: seq<Award>, ref: Reference)
    ensures |awards| - |AwardsInCity(awards, ref)| - |AwardsInCounty(awards, ref)|
                     - |AwardsInState(awards, ref)| - |AwardsOutOfState(awards)| <= 0
  {
    forall a | a in awards
      ensures InCityAward(a, ref) || InCountyAward(a, ref) || InStateAward(a, ref) || OutOfStateAward(a)
    {
      AwardBucketsCover(a, ref);
    }
    FilterCover(awards, CityAwardMask(ref), CountyAwardMask(ref), StateAwardMask(ref), OutOfStateAward);
  }

  /** The sanity check of line 302 is never positive either: every
      California award is an in-state, a city or a county award. */
  lemma AwardStateSanityNonPositive(awards: seq<Award>, ref: Reference)
    ensures |Filter(awards, InCalifornia)| - |AwardsInState(awards, ref)|
            - |AwardsInCity(awards, ref)| - |AwardsInCounty(awards, ref)| <= 0
  {
    FilterCover(awards, CityAwardMask(ref), CountyAwardMask(ref), StateAwardMask(ref), OutOfStateAward);
    StatePartition(awards);
  }

  /** Lines 285-305 on the award table: the city column is cleaned in place,
      the awards are bucketed, and the two sanity checks are computed; both
      are never positive. */
  method AwardSanityChecks(awards: AwardFrame, ref: Reference) returns (stateCheck: int, totalCheck: int)
    requires awards.Valid()
    modifies awards
    ensures awards.Valid()
    ensures awards.zip == old(awards.zip) && awards.state == old(awards.state) && awards.details == old(awards.details)
    ensures forall i :: 0 <= i < |awards.city| ==> awards.city[i] == NormalizeCity(old(awards.city)[i])
    ensures var rows := awards.Rows();
      && stateCheck == |Filter(rows, InCalifornia)| - |AwardsInState(rows, ref)| - |AwardsInCity(rows, ref)| - |AwardsInCounty(rows, ref)|
      && totalCheck == |rows| - |AwardsInCity(rows, ref)| - |AwardsInCounty(rows, ref)| - |AwardsInState(rows, ref)| - |AwardsOutOfState(rows)|
    ensures stateCheck <= 0 && totalCheck <= 0
  {
    awards.Clean();
    var rows := awards.Rows();
    var inCounty, inCity, inState, outOfState := AwardsInCounty(rows, ref), AwardsInCity(rows, ref), AwardsInState(rows, ref), AwardsOutOfState(rows);
    var inStateAll := Filter(rows, InCalifornia);
    stateCheck := |inStateAll| - |inState| - |inCity| - |inCounty|;
    totalCheck := |rows| - |inCity| - |inCounty| - |inState| - |outOfState|;
    AwardStateSanityNonPositive(rows, ref);
    AwardSanityNonPositive(rows, ref);
  }
}
