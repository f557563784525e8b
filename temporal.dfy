/** src/temporal.py: the share of contracts, and of awarded dollars, that went
    to DBE, MBE and WBE firms in each timeframe (a bid year or a bid month),
    with the guard that makes an empty timeframe report 0. */
module Temporal {
  import opened Seqs

  /** A row of `all_data`: the enterprise flag columns (a missing cell is
      `None`), the timeframe columns such as `bid_due_year` (a missing cell is
      `None`), and `Award_Amount__c` (`None` when missing). */
  datatype Record = Record(flags: map<string, Option<bool>>, periods: map<string, Option<string>>, amount: Option<real>)

  /** Lines 24-26: the flag columns and the output columns fed from them, index by index. */
  const FlagColumns: seq<string> := ["DBE__c", "MBE__c", "WBE__c"]
  const ContractColumns: seq<string> := ["percent_dbe_contracts", "percent_mbe_contracts", "percent_wbe_contracts"]
  const DollarColumns: seq<string> := ["percent_dbe_dollars", "percent_mbe_dollars", "percent_wbe_dollars"]

  /** The frame `get_percents` returns: the `timeframe` column and the six percentage columns. */
  datatype Table = Table(timeframe: seq<string>, columns: map<string, seq<real>>)

  /** The mask `all_data[timeframe_column] == t`; a missing cell equals nothing. */
  function PeriodMask(column: string, t: string): Record -> bool {
    (r: Record) => column in r.periods && r.periods[column] == Some(t)
  }

  /** The mask `all_data[x] == True`. */
  function FlagMask(flag: string): Record -> bool {
    (r: Record) => flag in r.flags && r.flags[flag] == Some(true)
  }

  /** `b` of line 33: the records of the timeframe. */
  function FrameCount(data: seq<Record>, column: string, t: string): nat {
    |Filter(data, PeriodMask(column, t))|
  }

  /** `a` of line 32: the records of the timeframe with the flag set. */
  function FlaggedCount(data: seq<Record>, column: string, t: string, flag: string): nat {
    |Filter(data, Both(PeriodMask(column, t), FlagMask(flag)))|
  }

  /** `Award_Amount__c.sum()`: the present amounts added up; 0 for no rows. */
  function AmountSum(s: seq<Record>): real {
    if s == [] then 0.0 else s[0].amount.GetOr(0.0) + AmountSum(s[1..])
  }

  /** `b` of line 43: the dollars awarded in the timeframe. */
  function FrameAmount(data: seq<Record>, column: string, t: string): real {
    AmountSum(Filter(data, PeriodMask(column, t)))
  }

  /** `a` of line 42: the dollars awarded in the timeframe to flagged records. */
  function FlaggedAmount(data: seq<Record>, column: string, t: string, flag: string): real {
    AmountSum(Filter(data, Both(PeriodMask(column, t), FlagMask(flag))))
  }

  /** Lines 34 and 44: `100*a/b if b != 0 else 0`. */
  function Percent(a: real, b: real): (r: real)
    ensures b == 0.0 ==> r == 0.0
    ensures b != 0.0 ==> r * b == 100.0 * a
  {
    if b != 0.0 then 100.0 * a / b else 0.0
  }

  /** A part of a non-negative whole is between 0 and 100 percent of it. */
  lemma PercentBounds(a: real, b: real)
    requires 0.0 <= a <= b
    ensures 0.0 <= Percent(a, b) <= 100.0
  {
    if b != 0.0 {
      var r := Percent(a, b);
      assert (100.0 - r) * b == 100.0 * (b - a);
      assert r * b == 100.0 * a;
    }
  }

  /** The guarded percentage is 0 exactly when the whole or the part is 0. */
  lemma PercentZero(a: real, b: real)
    ensures Percent(a, b) == 0.0 <==> b == 0.0 || a == 0.0
  {
    var r := Percent(a, b);
    if b != 0.0 && r == 0.0 {
      assert r * b == 0.0;
    }
  }

  /** Of a non-zero whole, it is 100 exactly when the part is the whole. */
  lemma PercentFull(a: real, b: real)
    requires b != 0.0
    ensures Percent(a, b) == 100.0 <==> a == b
  {
    var r := Percent(a, b);
    if r == 100.0 {
      assert 100.0 * b == 100.0 * a;
    }
  }

  function ContractPercent(data: seq<Record>, column: string, t: string, flag: string): real {
    Percent(FlaggedCount(data, column, t, flag) as real, FrameCount(data, column, t) as real)
  }

  function DollarPercent(data: seq<Record>, column: string, t: string, flag: string): real {
    Percent(FlaggedAmount(data, column, t, flag), FrameAmount(data, column, t))
  }

  /** Whether the frame has the columns `get_percents` reads (a missing one raises `KeyError`). */
  predicate HasColumns(data: seq<Record>, column: string) {
    forall r :: r in data ==>
      column in r.periods && FlagColumns[0] in r.flags && FlagColumns[1] in r.flags && FlagColumns[2] in r.flags
  }

  /** The six output names are pairwise different. */
  lemma ColumnNamesDistinct()
    ensures forall i, j :: 0 <= i < j < 3 ==> ContractColumns[i] != ContractColumns[j]
    ensures forall i, j :: 0 <= i < j < 3 ==> DollarColumns[i] != DollarColumns[j]
    ensures forall i, j :: 0 <= i < 3 && 0 <= j < 3 ==> ContractColumns[i] != DollarColumns[j]
  {
    assert ContractColumns[0][8] == DollarColumns[0][8] == 'd';
    assert ContractColumns[1][8] == DollarColumns[1][8] == 'm';
    assert ContractColumns[2][8] == DollarColumns[2][8] == 'w';
  }

  /** The inner loops of lines 30-35 and 40-45: for each timeframe in turn,
      compute its percentage and append it to `value`. */
  method PerTimeframe(timeframes: seq<string>, share: string -> real) returns (value: seq<real>)
    ensures |value| == |timeframes|
    ensures forall k :: 0 <= k < |timeframes| ==> value[k] == share(timeframes[k])
  {
    value := [];
    var k := 0;
    while k < |timeframes|
      invariant 0 <= k <= |timeframes|
      invariant |value| == k
      invariant forall m :: 0 <= m < k ==> value[m] == share(timeframes[m])
    {
      var percent := share(timeframes[k]);
      value := value + [percent];
      k := k + 1;
    }
  }

  /** Lines 30-35: the contract percentage of every timeframe for flag `x`. */
  method ContractValues(data: seq<Record>, timeframes: seq<string>, column: string, x: string)
    returns (value: seq<real>)
    ensures |value| == |timeframes|
    ensures forall k :: 0 <= k < |timeframes| ==> value[k] == ContractPercent(data, column, timeframes[k], x)
  {
    value := PerTimeframe(timeframes, t => ContractPercent(data, column, t, x));
  }

  /** Lines 40-45: the dollar percentage of every timeframe for flag `x`. */
  method DollarValues(data: seq<Record>, timeframes: seq<string>, column: string, x: string)
    returns (value: seq<real>)
    ensures |value| == |timeframes|
    ensures forall k :: 0 <= k < |timeframes| ==> value[k] == DollarPercent(data, column, timeframes[k], x)
  {
    value := PerTimeframe(timeframes, t => DollarPercent(data, column, t, x));
  }

  /** Lines 7-51, `get_percents`: one row per timeframe, in the given order;
      column `ContractColumns[i]` holds the percentage of the timeframe's
      records flagged in `FlagColumns[i]`, and `DollarColumns[i]` the
      percentage of its dollars. */
  method GetPercents(data: seq<Record>, timeframes: seq<string>, column: string) returns (df: Table)
    requires HasColumns(data, column)
    ensures df.timeframe == timeframes
    ensures forall c :: c in df.columns <==> c in ContractColumns || c in DollarColumns
    ensures forall i :: 0 <= i < 3 ==>
      && |df.columns[ContractColumns[i]]| == |timeframes|
      && |df.columns[DollarColumns[i]]| == |timeframes|
    ensures forall i, k :: 0 <= i < 3 && 0 <= k < |timeframes| ==>
      && df.columns[ContractColumns[i]][k] == ContractPercent(data, column, timeframes[k], FlagColumns[i])
      && df.columns[DollarColumns[i]][k] == DollarPercent(data, column, timeframes[k], FlagColumns[i])
  {
    ColumnNamesDistinct();
    var columns: map<string, seq<real>> := map[];

    // percentages of the number of contracts
    var i := 0;
    while i < 3
      invariant 0 <= i <= 3
      invariant forall c :: c in columns <==> c in ContractColumns[..i]
      invariant forall j :: 0 <= j < i ==> columns[ContractColumns[j]] == Contracts(data, timeframes, column, j)
    {
      var value := ContractValues(data, timeframes, column, FlagColumns[i]);
      columns := columns[ContractColumns[i] := value];
      i := i + 1;
    }

    // percentages of the dollar value of contracts
    i := 0;
    while i < 3
      invariant 0 <= i <= 3
      invariant forall c :: c in columns <==> c in ContractColumns || c in DollarColumns[..i]
      invariant forall j :: 0 <= j < 3 ==> columns[ContractColumns[j]] == Contracts(data, timeframes, column, j)
      invariant forall j :: 0 <= j < i ==> columns[DollarColumns[j]] == Dollars(data, timeframes, column, j)
    {
      var value := DollarValues(data, timeframes, column, FlagColumns[i]);
      columns := columns[DollarColumns[i] := value];
      i := i + 1;
    }

    df := Table(timeframes, columns);
  }

  /** The expected contents of column `ContractColumns[i]`. */
  function Contracts(data: seq<Record>, timeframes: seq<string>, column: string, i: nat): seq<real>
    requires i < 3
  {
    seq(|timeframes|, k requires 0 <= k < |timeframes| => ContractPercent(data, column, timeframes[k], FlagColumns[i]))
  }

  /** The expected contents of column `DollarColumns[i]`. */
  function Dollars(data: seq<Record>, timeframes: seq<string>, column: string, i: nat): seq<real>
    requires i < 3
  {
    seq(|timeframes|, k requires 0 <= k < |timeframes| => DollarPercent(data, column, timeframes[k], FlagColumns[i]))
  }

  // ------------------------------------------------------------- properties

  /** The flagged records of a timeframe are some of its records. */
  lemma FlaggedWithinFrame(data: seq<Record>, column: string, t: string, flag: string)
    ensures FlaggedCount(data, column, t, flag) <= FrameCount(data, column, t)
  {
    FilterFilter(data, PeriodMask(column, t), FlagMask(flag));
  }

  /** The contract percentage lies between 0 and 100. */
  lemma ContractPercentBounds(data: seq<Record>, column: string, t: string, flag: string)
    ensures 0.0 <= ContractPercent(data, column, t, flag) <= 100.0
  {
    FlaggedWithinFrame(data, column, t, flag);
    PercentBounds(FlaggedCount(data, column, t, flag) as real, FrameCount(data, column, t) as real);
  }

  /** It is 0 exactly when the timeframe has no record or no flagged record. */
  lemma ContractPercentZero(data: seq<Record>, column: string, t: string, flag: string)
    ensures ContractPercent(data, column, t, flag) == 0.0 <==>
      FrameCount(data, column, t) == 0 || FlaggedCount(data, column, t, flag) == 0
  {
    PercentZero(FlaggedCount(data, column, t, flag) as real, FrameCount(data, column, t) as real);
  }

  /** The flagged records of a timeframe are all of them exactly when every record of it is flagged. */
  lemma AllFlagged(data: seq<Record>, column: string, t: string, flag: string)
    ensures FlaggedCount(data, column, t, flag) == FrameCount(data, column, t) <==>
      forall r :: r in data && PeriodMask(column, t)(r) ==> FlagMask(flag)(r)
  {
    var frame := Filter(data, PeriodMask(column, t));
    FilterFilter(data, PeriodMask(column, t), FlagMask(flag));
    FilterFull(frame, FlagMask(flag));
    forall r | r in data
      ensures r in frame <==> PeriodMask(column, t)(r)
    {
      FilterMember(data, PeriodMask(column, t), r);
    }
    if forall r :: r in frame ==> FlagMask(flag)(r) {
      forall r | r in data && PeriodMask(column, t)(r)
        ensures FlagMask(flag)(r)
      {
        assert r in frame;
      }
    }
  }

  /** It is 100 exactly when the timeframe has records and all of them are flagged. */
  lemma ContractPercentFull(data: seq<Record>, column: string, t: string, flag: string)
    ensures ContractPercent(data, column, t, flag) == 100.0 <==>
      FrameCount(data, column, t) > 0 && forall r :: r in data && PeriodMask(column, t)(r) ==> FlagMask(flag)(r)
  {
    AllFlagged(data, column, t, flag);
    if FrameCount(data, column, t) > 0 {
      PercentFull(FlaggedCount(data, column, t, flag) as real, FrameCount(data, column, t) as real);
    }
  }

  /** The dollar percentage of a timeframe without dollars is 0. */
  lemma DollarPercentNoDollars(data: seq<Record>, column: string, t: string, flag: string)
    requires FrameAmount(data, column, t) == 0.0
    ensures DollarPercent(data, column, t, flag) == 0.0
  {
  }

  /** A timeframe without records has no dollars. */
  lemma EmptyFrameNoDollars(data: seq<Record>, column: string, t: string, flag: string)
    requires FrameCount(data, column, t) == 0
    ensures FrameAmount(data, column, t) == 0.0 && DollarPercent(data, column, t, flag) == 0.0
  {
  }

  /** With no negative amount, a part of the rows adds up to at most the whole. */
  lemma {:induction false} AmountSumFilter(s: seq<Record>, p: Record -> bool)
    requires forall r :: r in s && r.amount.Some? ==> r.amount.value >= 0.0
    ensures 0.0 <= AmountSum(Filter(s, p)) <= AmountSum(s)
  {
    if s != [] {
      assert forall r :: r in s[1..] ==> r in s;
      AmountSumFilter(s[1..], p);
      var rest := Filter(s[1..], p);
      if p(s[0]) {
        assert Filter(s, p) == [s[0]] + rest;
        assert ([s[0]] + rest)[1..] == rest;
      } else {
        assert Filter(s, p) == rest;
      }
    }
  }

  /** With no negative amount, the dollar percentage lies between 0 and 100. */
  lemma DollarPercentBounds(data: seq<Record>, column: string, t: string, flag: string)
    requires forall r :: r in data && r.amount.Some? ==> r.amount.value >= 0.0
    ensures 0.0 <= DollarPercent(data, column, t, flag) <= 100.0
  {
    var frame := Filter(data, PeriodMask(column, t));
    FilterFilter(data, PeriodMask(column, t), FlagMask(flag));
    AmountSumFilter(data, PeriodMask(column, t));
    AmountSumFilter(frame, FlagMask(flag));
    PercentBounds(FlaggedAmount(data, column, t, flag), FrameAmount(data, column, t));
  }

  /** Two frames that agree, row by row, on the timeframe cell, one flag and
      the amount. */
  predicate AgreeOn(d1: seq<Record>, d2: seq<Record>, column: string, t: string, flag: string) {
    && |d1| == |d2|
    && (forall i :: 0 <= i < |d1| ==> PeriodMask(column, t)(d1[i]) == PeriodMask(column, t)(d2[i]))
    && (forall i :: 0 <= i < |d1| ==> FlagMask(flag)(d1[i]) == FlagMask(flag)(d2[i]))
    && (forall i :: 0 <= i < |d1| ==> d1[i].amount == d2[i].amount)
  }

  /** Rows that agree pointwise on the mask and the amount give the same sum. */
  lemma {:induction false} AmountSumSame(s1: seq<Record>, s2: seq<Record>, p: Record -> bool)
    requires |s1| == |s2|
    requires forall i :: 0 <= i < |s1| ==> p(s1[i]) == p(s2[i]) && s1[i].amount == s2[i].amount
    ensures AmountSum(Filter(s1, p)) == AmountSum(Filter(s2, p))
  {
    if s1 != [] {
      var t1, t2 := s1[1..], s2[1..];
      forall i | 0 <= i < |t1|
        ensures p(t1[i]) == p(t2[i]) && t1[i].amount == t2[i].amount
      {
        assert t1[i] == s1[i + 1] && t2[i] == s2[i + 1];
      }
      AmountSumSame(t1, t2, p);
      AmountSumHead(s1, p);
      AmountSumHead(s2, p);
    }
  }

  /** The sum of a filter splits into the first row, when selected, and the rest. */
  lemma {:induction false} AmountSumHead(s: seq<Record>, p: Record -> bool)
    requires s != []
    ensures AmountSum(Filter(s, p)) ==
      (if p(s[0]) then s[0].amount.GetOr(0.0) else 0.0) + AmountSum(Filter(s[1..], p))
  {
    var rest := Filter(s[1..], p);
    if p(s[0]) {
      assert Filter(s, p) == [s[0]] + rest;
      assert ([s[0]] + rest)[1..] == rest;
    } else {
      assert Filter(s, p) == rest;
    }
  }

  /** A flag's columns depend on that flag alone: changing the other flags
      changes neither its contract nor its dollar percentage. */
  lemma OwnFlagOnly(d1: seq<Record>, d2: seq<Record>, column: string, t: string, flag: string)
    requires AgreeOn(d1, d2, column, t, flag)
    ensures ContractPercent(d1, column, t, flag) == ContractPercent(d2, column, t, flag)
    ensures DollarPercent(d1, column, t, flag) == DollarPercent(d2, column, t, flag)
  {
    var both := Both(PeriodMask(column, t), FlagMask(flag));
    FilterSameLength(d1, d2, PeriodMask(column, t), PeriodMask(column, t));
    FilterSameLength(d1, d2, both, both);
    AmountSumSame(d1, d2, PeriodMask(column, t));
    AmountSumSame(d1, d2, both);
  }
}
