/** The value-level cleaning that src/geography.py applies to its tables:
    city names (strip, lower-case, drop spaces), five-character ZIP codes and
    six-character NAICS codes, and the tables themselves, whose columns the
    script overwrites in place one step at a time. */
module GeoNormalize {
  import opened Seqs

  /** The normalised name of the primary city. */
  const LosAngeles: string := "losangeles"

  /** A pandas cell of an object column: NaN, a string, or an integer. A
      numeric value read from a CSV file is given by its `str()` text. */
  datatype Cell = Missing | Text(s: string) | Int(n: int)

  /** Every character is a decimal digit. */
  predicate IsDigits(s: string) {
    forall i :: 0 <= i < |s| ==> '0' <= s[i] <= '9'
  }

  /** The number a string of decimal digits denotes. */
  function DigitsValue(s: string): nat
    requires IsDigits(s)
  {
    if s == [] then 0 else 10 * DigitsValue(s[..|s| - 1]) + (s[|s| - 1] as int - '0' as int)
  }

  /** `str(n)` for an integer: the digits of |n| without leading zeros,
      after a '-' when n is negative. */
  function Decimal(n: int): (r: string)
    ensures r != []
    ensures n >= 0 ==> IsDigits(r) && DigitsValue(r) == n && (r[0] == '0' ==> r == "0")
    ensures n < 0 ==> r[0] == '-' && IsDigits(r[1..]) && DigitsValue(r[1..]) == -n && r[1] != '0'
    decreases if n < 0 then 1 - n else n
  {
    if n < 0 then
      var t := Decimal(-n);
      assert ("-" + t)[1..] == t;
      "-" + t
    else if n < 10 then [Digit(n)]
    else
      var u := Decimal(n / 10);
      var r := u + [Digit(n % 10)];
      assert r[..|r| - 1] == u;
      r
  }

  function Digit(d: int): (c: char)
    requires 0 <= d < 10
    ensures '0' <= c <= '9' && c as int - '0' as int == d
  {
    ('0' as int + d) as char
  }

  /** `str(x)` of a cell; NaN prints as "nan". */
  function AsStr(c: Cell): string {
    match c
    case Missing => "nan"
    case Text(s) => s
    case Int(n) => Decimal(n)
  }

  /** `fillna(v)` on one cell. */
  function FillNa(c: Cell, v: string): Cell {
    if c.Missing? then Text(v) else c
  }

  // ---------------------------------------------------------------- city names

  /** Python's `str.isspace`, the characters `str.strip()` removes. */
  predicate IsWhitespace(c: char) {
    var n := c as int;
    (9 <= n <= 13) || (28 <= n <= 32) || n == 0x85 || n == 0xA0 || n == 0x1680
    || (0x2000 <= n <= 0x200A) || n == 0x2028 || n == 0x2029 || n == 0x202F
    || n == 0x205F || n == 0x3000
  }

  predicate Trimmed(s: string) {
    s == [] || (!IsWhitespace(s[0]) && !IsWhitespace(s[|s| - 1]))
  }

  /** The number of whitespace characters at the start of `s`. */
  function LeadingSpace(s: string): (i: nat)
    ensures i <= |s|
    ensures forall k :: 0 <= k < i ==> IsWhitespace(s[k])
    ensures i < |s| ==> !IsWhitespace(s[i])
  {
    if s != [] && IsWhitespace(s[0]) then
      var i := 1 + LeadingSpace(s[1..]);
      assert forall k :: 1 <= k < |s| ==> s[k] == s[1..][k - 1];
      i
    else 0
  }

  /** The length of `s` without its trailing whitespace. */
  function TrailingEnd(s: string): (j: nat)
    ensures j <= |s|
    ensures forall k :: j <= k < |s| ==> IsWhitespace(s[k])
    ensures 0 < j ==> !IsWhitespace(s[j - 1])
  {
    if s != [] && IsWhitespace(s[|s| - 1]) then TrailingEnd(s[..|s| - 1]) else |s|
  }

  /** `r` is `s[i..j]` and everything of `s` outside it is whitespace. */
  predicate StrippedAt(s: string, r: string, i: int, j: int) {
    && 0 <= i <= j <= |s| && r == s[i..j]
    && (forall k :: 0 <= k < i ==> IsWhitespace(s[k]))
    && (forall k :: j <= k < |s| ==> IsWhitespace(s[k]))
  }

  /** `str.strip()`: the text between the leading and the trailing whitespace. */
  function Strip(s: string): (r: string)
    ensures Trimmed(r)
    ensures Trimmed(s) ==> r == s
    ensures exists i, j :: StrippedAt(s, r, i, j)
  {
    var i := LeadingSpace(s);
    var j := i + TrailingEnd(s[i..]);
    StripFacts(s, i, j);
    s[i..j]
  }

  lemma StripFacts(s: string, i: nat, j: nat)
    requires i == LeadingSpace(s) && j == i + TrailingEnd(s[i..])
    ensures StrippedAt(s, s[i..j], i, j)
    ensures Trimmed(s[i..j])
    ensures Trimmed(s) ==> s[i..j] == s
  {
    StripTail(s, i, j);
    StripEnds(s, i, j);
    if Trimmed(s) {
      StripKeeps(s, i, j);
    }
  }

  lemma StripTail(s: string, i: nat, j: nat)
    requires i <= j <= |s|
    requires forall k :: j - i <= k < |s[i..]| ==> IsWhitespace(s[i..][k])
    ensures forall k :: j <= k < |s| ==> IsWhitespace(s[k])
  {
    forall k | j <= k < |s|
      ensures IsWhitespace(s[k])
    {
      assert s[k] == s[i..][k - i];
    }
  }

  lemma StripEnds(s: string, i: nat, j: nat)
    requires i <= j <= |s|
    requires i < |s| ==> !IsWhitespace(s[i])
    requires 0 < j - i ==> !IsWhitespace(s[i..][j - i - 1])
    ensures Trimmed(s[i..j])
  {
    if i < j {
      assert s[i..j][0] == s[i];
      assert s[i..j][|s[i..j]| - 1] == s[i..][j - i - 1];
    }
  }

  lemma StripKeeps(s: string, i: nat, j: nat)
    requires Trimmed(s)
    requires i == LeadingSpace(s) && j == i + TrailingEnd(s[i..])
    ensures s[i..j] == s
  {
    if s != [] {
      assert !IsWhitespace(s[0]);
      assert i == 0;
      assert s[i..] == s;
      assert !IsWhitespace(s[|s| - 1]);
      assert j == |s|;
    }
  }

  /** `str.lower()` on one character (ASCII letters only). */
  function LowerChar(c: char): (d: char)
    ensures !('A' <= d <= 'Z')
    ensures 'A' <= c <= 'Z' ==> d as int == c as int + 32
    ensures !('A' <= c <= 'Z') ==> d == c
    ensures IsWhitespace(d) == IsWhitespace(c)
  {
    if 'A' <= c <= 'Z' then (c as int + 32) as char else c
  }

  predicate IsLowered(s: string) {
    forall i :: 0 <= i < |s| ==> !('A' <= s[i] <= 'Z')
  }

  /** `str.lower()`. */
  function Lower(s: string): (r: string)
    ensures |r| == |s| && IsLowered(r)
    ensures forall i :: 0 <= i < |s| ==> r[i] == LowerChar(s[i])
    ensures forall i :: 0 <= i < |s| ==> IsWhitespace(r[i]) == IsWhitespace(s[i])
    ensures IsLowered(s) ==> r == s
  {
    seq(|s|, i requires 0 <= i < |s| => LowerChar(s[i]))
  }

  predicate NotSpace(c: char) {
    c != ' '
  }

  /** `str.replace(' ', '')`: drops every U+0020 and keeps everything else in order. */
  function RemoveSpaces(s: string): (r: string)
    ensures ' ' !in r
    ensures forall c :: c != ' ' ==> Occurrences(r, c) == Occurrences(s, c)
    ensures ' ' !in s ==> r == s
  {
    OccurrencesFilterAll(s, NotSpace);
    assert ' ' !in s ==> Filter(s, NotSpace) == s by {
      if ' ' !in s {
        FilterAll(s, NotSpace);
      }
    }
    Filter(s, NotSpace)
  }

  /** Removing spaces from a concatenation removes them from each part, so
      the characters kept stay in their order. */
  lemma RemoveSpacesAppend(a: string, b: string)
    ensures RemoveSpaces(a + b) == RemoveSpaces(a) + RemoveSpaces(b)
  {
    FilterAppend(a, b, NotSpace);
  }

  /** The city-name cleaning `x.strip().lower().replace(' ', '')`
      (src/geography.py lines 28, 77 and 285). */
  function NormalizeCity(x: string): (r: string)
    ensures ' ' !in r
    ensures IsLowered(r)
    ensures Trimmed(r)
  {
    var t := Strip(x);
    var l := Lower(t);
    var r := RemoveSpaces(l);
    CleanedCity(t, l, r);
    r
  }

  lemma CleanedCity(t: string, l: string, r: string)
    requires Trimmed(t) && l == Lower(t) && r == RemoveSpaces(l)
    ensures IsLowered(r) && Trimmed(r)
  {
    FilterFirstLast(l, NotSpace);
    forall i | 0 <= i < |r|
      ensures !('A' <= r[i] <= 'Z')
    {
      FilterMember(l, NotSpace, r[i]);
      var k :| 0 <= k < |l| && l[k] == r[i];
    }
    if l == [] {
      assert r == [];
    } else {
      assert !IsWhitespace(l[0]) && !IsWhitespace(l[|l| - 1]);
    }
  }

  /** Dropping values that fail a mask keeps a kept first and last value in place. */
  lemma {:induction false} FilterFirstLast(s: seq<char>, p: char -> bool)
    ensures s != [] && p(s[0]) ==> Filter(s, p) != [] && Filter(s, p)[0] == s[0]
    ensures s != [] && p(s[|s| - 1]) ==> Filter(s, p) != [] && Filter(s, p)[|Filter(s, p)| - 1] == s[|s| - 1]
  {
    if s != [] {
      var init, last := s[..|s| - 1], s[|s| - 1];
      assert s == init + [last];
      FilterAppend(init, [last], p);
      assert Filter([last], p) == (if p(last) then [last] else []) + Filter([], p);
    }
  }

  /** Normalising a normalised city name changes nothing. */
  lemma {:induction false} NormalizeCityIdempotent(x: string)
    ensures NormalizeCity(NormalizeCity(x)) == NormalizeCity(x)
  {
    var y := NormalizeCity(x);
    assert Strip(y) == y;
    assert Lower(y) == y;
    assert forall c :: c in y ==> c != ' ';
    FilterAll(y, NotSpace);
  }

  // ----------------------------------------------------------------- ZIP codes

  /** `x[:n]` on a string. */
  function Prefix(s: string, n: nat): (r: string)
    ensures r <= s
    ensures |r| == if |s| < n then |s| else n
  {
    if |s| <= n then s else s[..n]
  }

  /** `replace('-', 000000)`: a cell holding exactly "-" becomes the integer 0. */
  function ReplaceDash(c: Cell): Cell {
    if c == Text("-") then Int(0) else c
  }

  /** The ZIP5 column of a business: `x[:5]`, then `replace('-', 000000)`,
      then `astype(str)` (src/geography.py lines 80-85). */
  function Zip5(zip9: string): (r: string)
    ensures |r| <= 5
    ensures zip9 == "-" ==> r == "0"
    ensures zip9 != "-" ==> r == zip9[..if |zip9| < 5 then |zip9| else 5]
  {
    AsStr(ReplaceDash(Text(Prefix(zip9, 5))))
  }

  // --------------------------------------------------------------- NAICS codes

  /** `str(x).split('.')[0]`: the text before the first '.'. */
  function CutAtDot(s: string): (r: string)
    ensures '.' !in r && r <= s
    ensures |r| < |s| ==> s[|r|] == '.'
  {
    if s == [] || s[0] == '.' then [] else [s[0]] + CutAtDot(s[1..])
  }

  /** `x + '0'*(6-len(x))`; a repeat count below zero gives no zeros. */
  function PadNaics(s: string): (r: string)
    ensures |r| == if |s| >= 6 then |s| else 6
    ensures s <= r
    ensures forall i :: |s| <= i < |r| ==> r[i] == '0'
  {
    if |s| >= 6 then s else s + seq(6 - |s|, _ => '0')
  }

  /** The whole NAICS cleaning of src/geography.py: `fillna('999999')`,
      `astype(str)`, cut at the first '.', pad with '0' to six characters. */
  function NormalizeNaics(c: Cell): string {
    PadNaics(CutAtDot(AsStr(FillNa(c, "999999"))))
  }

  /** A missing code becomes the legacy code 999999. */
  lemma NaicsMissing()
    ensures NormalizeNaics(Missing) == "999999"
  {
    var s := "999999";
    assert CutAtDot(s[5..]) == s[5..];
    assert CutAtDot(s[4..]) == s[4..];
    assert CutAtDot(s[3..]) == s[3..];
    assert CutAtDot(s[2..]) == s[2..];
    assert CutAtDot(s[1..]) == s[1..];
    assert CutAtDot(s) == s;
  }

  /** A present code is cut at its first '.' and padded on the right with '0';
      the result has length max(6, length of the cut code) and no '.'. */
  lemma NaicsShape(s: string)
    ensures NormalizeNaics(Text(s)) == PadNaics(CutAtDot(s))
    ensures var cut := CutAtDot(s);
            && cut <= NormalizeNaics(Text(s))
            && |NormalizeNaics(Text(s))| == (if |cut| >= 6 then |cut| else 6)
            && '.' !in NormalizeNaics(Text(s))
            && (forall i :: |cut| <= i < |NormalizeNaics(Text(s))| ==> NormalizeNaics(Text(s))[i] == '0')
  {
    var cut := CutAtDot(s);
    var r := PadNaics(cut);
    assert forall i :: 0 <= i < |r| ==> r[i] != '.' by {
      forall i | 0 <= i < |r| ensures r[i] != '.' {
        if i < |cut| { assert r[i] == cut[i]; }
      }
    }
  }

  /** The shape every cleaned NAICS code has. */
  predicate NaicsShaped(k: string) {
    '.' !in k && |k| >= 6
  }

  /** Whatever the cell held, its cleaned code has no '.' and at least six characters. */
  lemma NormalizedShaped(c: Cell)
    ensures NaicsShaped(NormalizeNaics(c))
  {
    var cut := CutAtDot(AsStr(FillNa(c, "999999")));
    var r := PadNaics(cut);
    forall i | 0 <= i < |r|
      ensures r[i] != '.'
    {
      if i < |cut| {
        assert r[i] == cut[i];
      }
    }
  }

  /** A code without '.' that already has six or more characters is kept as is. */
  lemma {:induction false} NaicsLongUnchanged(s: string)
    requires '.' !in s && |s| >= 6
    ensures NormalizeNaics(Text(s)) == s
  {
    CutAtDotNoDot(s);
  }

  lemma {:induction false} CutAtDotNoDot(s: string)
    requires '.' !in s
    ensures CutAtDot(s) == s
  {
    if s != [] {
      assert s == [s[0]] + s[1..];
      CutAtDotNoDot(s[1..]);
    }
  }

  /** The worked examples: "54" becomes "540000" and "541213.0" becomes "541213". */
  lemma NaicsExamples()
    ensures NormalizeNaics(Text("54")) == "540000"
    ensures NormalizeNaics(Text("541213.0")) == "541213"
  {
    CutAtDotNoDot("54");
    CutExample();
  }

  lemma CutExample()
    ensures CutAtDot("541213.0") == "541213"
  {
    var s := "541213.0";
    assert s[6..] == ".0";
    assert CutAtDot(s[6..]) == [];
    assert CutAtDot(s[5..]) == "3";
    assert CutAtDot(s[4..]) == "13";
    assert CutAtDot(s[3..]) == "213";
    assert CutAtDot(s[2..]) == "1213";
    assert CutAtDot(s[1..]) == "41213";
  }

  // -------------------------------------------------------------------- tables

  /** One cleaned business row: its NAICS, CITY, ZIP5 and ZIP9 columns, and
      `details` standing for every other column. */
  datatype Business = Business(naics: string, city: string, zip5: string, zip9: string, details: string)

  /** The NAICS steps shared by the business and opportunity tables:
      `fillna('999999')`, `astype(str)`, cut at '.', pad with '0'. */
  method RewriteNaics(col: seq<Cell>) returns (out: seq<Cell>)
    ensures |out| == |col|
    ensures forall i :: 0 <= i < |col| ==> out[i] == Text(NormalizeNaics(col[i]))
  {
    out := seq(|col|, i requires 0 <= i < |col| => FillNa(col[i], "999999"));
    out := seq(|out|, i requires 0 <= i < |out| => Text(AsStr(out[i])));
    out := seq(|out|, i requires 0 <= i < |out| => Text(CutAtDot(AsStr(out[i]))));
    out := seq(|out|, i requires 0 <= i < |out| => Text(PadNaics(AsStr(out[i]))));
  }

  /** The business listing `all_biz`, column by column. */
  class BusinessFrame {
    var naics: seq<Cell>
    var city: seq<Cell>
    var zip9: seq<string>
    var zip5: seq<Cell>
    var details: seq<string>

    ghost predicate Valid()
      reads this
    {
      |naics| == |city| == |zip9| == |details|
    }

    /** After cleaning every column is text and ZIP5 has one cell per row. */
    ghost predicate Cleaned()
      reads this
    {
      Valid() && |zip5| == |zip9|
      && (forall i :: 0 <= i < |naics| ==> naics[i].Text?)
      && (forall i :: 0 <= i < |city| ==> city[i].Text?)
      && (forall i :: 0 <= i < |zip5| ==> zip5[i].Text?)
    }

    /** `read_csv`: the ZIP5 column does not exist yet. */
    constructor (naics: seq<Cell>, city: seq<Cell>, zip9: seq<string>, details: seq<string>)
      requires |naics| == |city| == |zip9| == |details|
      ensures Valid() && this.zip5 == []
      ensures this.naics == naics && this.city == city && this.zip9 == zip9 && this.details == details
    {
      this.naics, this.city, this.zip9, this.details := naics, city, zip9, details;
      this.zip5 := [];
    }

    /** src/geography.py lines 65-92, overwriting the columns in place. */
    method Clean()
      requires Valid()
      modifies this
      ensures Cleaned()
      ensures zip9 == old(zip9) && details == old(details)
      ensures forall i :: 0 <= i < |naics| ==> naics[i] == Text(NormalizeNaics(old(naics)[i]))
      ensures forall i :: 0 <= i < |city| ==> city[i] == Text(NormalizeCity(AsStr(old(city)[i])))
      ensures forall i :: 0 <= i < |zip5| ==> zip5[i] == Text(Zip5(zip9[i]))
    {
      naics := RewriteNaics(naics);
      var c, z9 := city, zip9;
      city := seq(|c|, i requires 0 <= i < |c| => Text(NormalizeCity(AsStr(c[i]))));
      var z := seq(|z9|, i requires 0 <= i < |z9| => Text(Prefix(z9[i], 5)));
      z := seq(|z|, i requires 0 <= i < |z| => ReplaceDash(z[i]));
      z := seq(|z|, i requires 0 <= i < |z| => Text(AsStr(z[i])));
      zip5 := z;
    }

    /** The cleaned table as rows. */
    function Rows(): (r: seq<Business>)
      reads this
      requires Cleaned()
      ensures |r| == |naics|
      ensures forall i :: 0 <= i < |r| ==>
        r[i] == Business(naics[i].s, city[i].s, zip5[i].s, zip9[i], details[i])
    {
      var n, c, z, z9, d := naics, city, zip5, zip9, details;
      seq(|n|, i requires 0 <= i < |n| && n[i].Text? && c[i].Text? && z[i].Text? =>
        Business(n[i].s, c[i].s, z[i].s, z9[i], d[i]))
    }
  }

  /** The opportunity report `all_opp`; only its NAICS column is cleaned. */
  class OpportunityFrame {
    var naics: seq<Cell>

    constructor (naics: seq<Cell>)
      ensures this.naics == naics
    {
      this.naics := naics;
    }

    /** src/geography.py lines 173-181. */
    method Clean()
      modifies this
      ensures |naics| == |old(naics)|
      ensures forall i :: 0 <= i < |naics| ==> naics[i] == Text(NormalizeNaics(old(naics)[i]))
    {
      naics := RewriteNaics(naics);
    }

    /** The NAICS column as text. */
    function Codes(): (r: seq<string>)
      reads this
      ensures |r| == |naics| && forall i :: 0 <= i < |naics| ==> r[i] == AsStr(naics[i])
    {
      var n := naics;
      seq(|n|, i requires 0 <= i < |n| => AsStr(n[i]))
    }
  }

  /** One award row after its columns are renamed; the billing postal code is
      kept whole (it is not cut to five characters) and compared as `str`. */
  datatype Award = Award(city: string, zip: Cell, state: Cell, details: string)

  /** The award table `awards`, column by column. */
  class AwardFrame {
    var city: seq<string>
    var zip: seq<Cell>
    var state: seq<Cell>
    var details: seq<string>

    ghost predicate Valid()
      reads this
    {
      |city| == |zip| == |state| == |details|
    }

    constructor (city: seq<string>, zip: seq<Cell>, state: seq<Cell>, details: seq<string>)
      requires |city| == |zip| == |state| == |details|
      ensures Valid()
      ensures this.city == city && this.zip == zip && this.state == state && this.details == details
    {
      this.city, this.zip, this.state, this.details := city, zip, state, details;
    }

    /** src/geography.py line 285. */
    method Clean()
      requires Valid()
      modifies this
      ensures Valid()
      ensures zip == old(zip) && state == old(state) && details == old(details)
      ensures forall i :: 0 <= i < |city| ==> city[i] == NormalizeCity(old(city)[i])
    {
      var c := city;
      city := seq(|c|, i requires 0 <= i < |c| => NormalizeCity(c[i]));
    }

    function Rows(): (r: seq<Award>)
      reads this
      requires Valid()
      ensures |r| == |city|
      ensures forall i :: 0 <= i < |r| ==> r[i] == Award(city[i], zip[i], state[i], details[i])
    {
      var c, z, st, d := city, zip, state, details;
      seq(|c|, i requires 0 <= i < |c| => Award(c[i], z[i], st[i], d[i]))
    }
  }

  /** One row of the ZIP-to-postal-city table. */
  datatype ZipRow = ZipRow(city: string, zip: string)

  /** The ZIP reference table `zips`, column by column. */
  class ZipFrame {
    var postalCity: seq<string>
    var zip: seq<string>

    ghost predicate Valid()
      reads this
    {
      |postalCity| == |zip|
    }

    constructor (postalCity: seq<string>, zip: seq<string>)
      requires |postalCity| == |zip|
      ensures Valid() && this.postalCity == postalCity && this.zip == zip
    {
      this.postalCity, this.zip := postalCity, zip;
    }

    /** src/geography.py line 28. */
    method Clean()
      requires Valid()
      modifies this
      ensures Valid() && zip == old(zip)
      ensures forall i :: 0 <= i < |postalCity| ==> postalCity[i] == NormalizeCity(old(postalCity)[i])
    {
      var c := postalCity;
      postalCity := seq(|c|, i requires 0 <= i < |c| => NormalizeCity(c[i]));
    }

    function Rows(): (r: seq<ZipRow>)
      reads this
      requires Valid()
      ensures |r| == |zip|
      ensures forall i :: 0 <= i < |r| ==> r[i] == ZipRow(postalCity[i], zip[i])
    {
      var c, z := postalCity, zip;
      seq(|z|, i requires 0 <= i < |z| => ZipRow(c[i], z[i]))
    }
  }
}
