/**
 The aggregates of the data pilot cache (scratch/sc-dptest/source/dpcachetable.cxx), over
 the real numbers: rows are filtered by interned string ids, and function objects
 accumulate over the cells that are left.
 */
module DataTable {

  // ------------------------------------------------------------------ string table

  class SharedStringTable {
    var strings: seq<string>
    var ids: map<string, nat>
    var strCount: nat

    constructor ()
      ensures Valid() && strings == [""]
    {
      strings, ids, strCount := [""], map["" := 0], 1;
    }

    ghost predicate Valid()
      reads this
    {
      && |strings| == strCount
      && (forall i :: 0 <= i < |strings| ==> strings[i] in ids && ids[strings[i]] == i)
      && (forall s :: s in ids ==> ids[s] < |strings| && strings[ids[s]] == s)
    }

    /** The id of a string; ids handed out before stay what they are. */
    method InsertString(s: string) returns (id: nat)
      requires Valid()
      modifies this
      ensures Valid() && old(strings) <= strings && id < |strings| && strings[id] == s
      ensures s in old(strings) ==> strings == old(strings)
      ensures s !in old(strings) ==> strings == old(strings) + [s]
    {
      if s !in ids {
        strings := strings + [s];
        ids := ids[s := strCount];
        strCount := strCount + 1;
        return strCount - 1;
      }
      id := ids[s];
    }

    method GetString(id: nat) returns (s: string)
      requires Valid()
      ensures s == if id < |strings| then strings[id] else ""
    {
      if id >= strCount { return ""; }
      s := strings[id];
    }

    /** Ids are equal exactly when their strings are. */
    lemma SameIdSameString(i: nat, j: nat)
      requires Valid() && i < |strings| && j < |strings|
      ensures i == j <==> strings[i] == strings[j]
    {
      assert ids[strings[i]] == i && ids[strings[j]] == j;
    }

    /** Looking for an id in a list of ids is looking for its string in their strings. */
    lemma MatchingIdsIsMatchingStrings(id: int, wanted: seq<int>)
      requires Valid() && 0 <= id < |strings| && forall k :: 0 <= k < |wanted| ==> 0 <= wanted[k] < |strings|
      ensures id in wanted <==> exists k :: 0 <= k < |wanted| && strings[wanted[k]] == strings[id]
    {
      forall k | 0 <= k < |wanted| ensures wanted[k] == id <==> strings[wanted[k]] == strings[id] {
        SameIdSameString(wanted[k], id);
      }
    }
  }

  // ----------------------------------------------------------------------- cells

  datatype CellType = Empty | Value | String | Error

  datatype Cell = Cell(strId: int, value: real, kind: CellType)

  /** The values of the cells that hold one, in order. */
  function Values(cells: seq<Cell>): seq<real> {
    if cells == [] then []
    else Values(cells[..|cells| - 1]) + if cells[|cells| - 1].kind == Value then [cells[|cells| - 1].value] else []
  }

  function Sum(xs: seq<real>): real {
    if xs == [] then 0.0 else Sum(xs[..|xs| - 1]) + xs[|xs| - 1]
  }

  function Product(xs: seq<real>): real {
    if xs == [] then 1.0 else Product(xs[..|xs| - 1]) * xs[|xs| - 1]
  }

  /** Sums and products over parts. */
  lemma {:induction false} SumOfParts(xs: seq<real>, ys: seq<real>)
    ensures Sum(xs + ys) == Sum(xs) + Sum(ys)
    ensures forall x :: Sum([x]) == x && Product([x]) == x
    decreases |ys|
  {
    forall x: real ensures Sum([x]) == x && Product([x]) == x { assert [x][..0] == []; }
    if ys == [] {
      assert xs + ys == xs;
    } else {
      assert (xs + ys)[..|xs + ys| - 1] == xs + ys[..|ys| - 1];
      SumOfParts(xs, ys[..|ys| - 1]);
    }
  }

  lemma TimesAssociates(a: real, b: real, c: real)
    ensures a * b * c == a * (b * c)
  {}

  lemma {:induction false} ProductOfParts(xs: seq<real>, ys: seq<real>)
    ensures Product(xs + ys) == Product(xs) * Product(ys)
    decreases |ys|
  {
    if ys == [] {
      assert xs + ys == xs;
    } else {
      var n := |ys| - 1;
      assert (xs + ys)[..|xs + ys| - 1] == xs + ys[..n] && (xs + ys)[|xs + ys| - 1] == ys[n];
      ProductOfParts(xs, ys[..n]);
      TimesAssociates(Product(xs), Product(ys[..n]), ys[n]);
    }
  }

  function Squared(a: real): real { a * a }

  /** Sum of the squared deviations from m. */
  function Deviations(xs: seq<real>, m: real): real {
    if xs == [] then 0.0
    else Deviations(xs[..|xs| - 1], m) + Squared(xs[|xs| - 1] - m)
  }

  function Mean(xs: seq<real>): real {
    if xs == [] then 0.0 else Sum(xs) / (|xs| as real)
  }

  // --------------------------------------------------------------------- variance

  datatype Number = Real(r: real) | NotANumber

  /** Mean first, then the deviations from it. */
  function TwoPass(xs: seq<real>, isPopulation: bool): Number {
    var d := if isPopulation then |xs| as real else |xs| as real - 1.0;
    if d == 0.0 then NotANumber else Real(Deviations(xs, Mean(xs)) / d)
  }

  lemma SquareNotNegative(a: real)
    ensures Squared(a) >= 0.0
  {}

  lemma {:induction false} DeviationsNotNegative(xs: seq<real>, m: real)
    ensures Deviations(xs, m) >= 0.0
  {
    if xs != [] {
      SquareNotNegative(xs[|xs| - 1] - m);
      DeviationsNotNegative(xs[..|xs| - 1], m);
    }
  }

  lemma NotNegativeOver(a: real, d: real)
    requires a >= 0.0 && d > 0.0
    ensures a / d >= 0.0
  {}

  lemma VarianceNotNegative(xs: seq<real>, isPopulation: bool)
    ensures TwoPass(xs, isPopulation).Real? ==> TwoPass(xs, isPopulation).r >= 0.0
  {
    var d := if isPopulation then |xs| as real else |xs| as real - 1.0;
    DeviationsNotNegative(xs, Mean(xs));
    if d > 0.0 {
      NotNegativeOver(Deviations(xs, Mean(xs)), d);
    }
  }

  function Times(k: nat, v: real): real { if k == 0 then 0.0 else Times(k - 1, v) + v }

  lemma {:induction false} TimesIs(k: nat, n: real, v: real)
    requires n == k as real
    ensures Times(k, v) == n * v
  {
    if k > 0 {
      TimesIs(k - 1, n - 1.0, v);
      assert (n - 1.0) * v + v == n * v;
    }
  }

  /** The sum of the differences from m. */
  function Excess(xs: seq<real>, m: real): real {
    if xs == [] then 0.0 else Excess(xs[..|xs| - 1], m) + (xs[|xs| - 1] - m)
  }

  lemma {:induction false} ExcessIs(xs: seq<real>, m: real)
    ensures Excess(xs, m) == Sum(xs) - Times(|xs|, m)
  {
    if xs != [] {
      ExcessIs(xs[..|xs| - 1], m);
    }
  }

  lemma ShiftAlgebra(d: real, t: real, e: real)
    ensures Squared(e - d) == Squared(e) - 2.0 * (d * (t + e)) + 2.0 * (d * t) + d * d
  {}

  /** Deviations from another centre. */
  lemma {:induction false} Shift(xs: seq<real>, m: real, d: real)
    ensures Deviations(xs, m + d) == Deviations(xs, m) - 2.0 * (d * Excess(xs, m)) + Times(|xs|, d * d)
    decreases |xs|
  {
    if xs == [] {
      assert d * Excess(xs, m) == 0.0;
    } else {
      var front, e := xs[..|xs| - 1], xs[|xs| - 1] - m;
      Shift(front, m, d);
      assert xs[|xs| - 1] - (m + d) == e - d;
      ShiftAlgebra(d, Excess(front, m), e);
    }
  }

  /** The divisors: two values that differ by d have sample variance d*d/2 and population
      variance d*d/4; one value has no sample variance. */
  lemma VarianceOfTwo(a: real, b: real)
    ensures TwoPass([a, b], false) == Real(Squared(a - b) / 2.0)
    ensures TwoPass([a, b], true) == Real(Squared(a - b) / 4.0)
    ensures TwoPass([a], false) == NotANumber && TwoPass([a], true) == Real(0.0)
  {
    var xs, half := [a, b], (a - b) / 2.0;
    assert xs[..1] == [a] && [a][..0] == [];
    assert Sum([a]) == a && Mean([a]) == a && Deviations([a], a) == Squared(0.0) == 0.0;
    assert Sum(xs) == a + b && a - Mean(xs) == half && b - Mean(xs) == -half;
    assert Deviations([a], Mean(xs)) == Squared(half);
    assert Deviations(xs, Mean(xs)) == Squared(half) + Squared(-half);
    TwiceHalf(a - b, half);
  }

  lemma TwiceHalf(d: real, half: real)
    requires half == d / 2.0
    ensures Squared(half) + Squared(-half) == Squared(d) / 2.0
    ensures (Squared(half) + Squared(-half)) / 2.0 == Squared(d) / 4.0
  {
    assert d == 2.0 * half;
    assert Squared(d) == 4.0 * Squared(half);
  }

  class CalcVariance {
    var n: real
    var mean: real
    var s: real
    ghost var seen: seq<real>

    constructor ()
      ensures Valid() && seen == []
    {
      n, mean, s, seen := 0.0, 0.0, 0.0, [];
    }

    /** The running mean and the sum of squared deviations from it. */
    ghost predicate Valid()
      reads this
    {
      n == |seen| as real && mean == Mean(seen) && s == Deviations(seen, mean)
    }

    method Apply(cell: Cell)
      requires Valid()
      modifies this
      ensures Valid() && seen == old(seen) + if cell.kind == Value then [cell.value] else []
    {
      if cell.kind != Value { return; }
      n := n + 1.0;
      var delta := cell.value - mean;
      ghost var mean0 := mean;
      mean := mean + delta / n;
      var distance := cell.value - mean;
      s := s + delta * distance;
      WelfordStep(seen, cell.value, mean0, n, delta, mean, distance);
      seen := seen + [cell.value];
    }

    method GetVariance(isPopulation: bool) returns (v: Number)
      requires Valid()
      ensures v == TwoPass(seen, isPopulation)
    {
      var d := if isPopulation then n else n - 1.0;
      v := if d == 0.0 then NotANumber else Real(s / d);
    }
  }

  lemma MeanTimesCount(xs: seq<real>, mean: real, n: real)
    requires mean == Mean(xs) && n == |xs| as real
    ensures mean * n == Sum(xs)
  {}

  lemma Divided(total: real, n: real, q: real)
    requires n != 0.0 && q * n == total
    ensures q == total / n
  {}

  lemma Quotient(d: real, delta: real, n: real)
    requires n != 0.0 && d == delta / n
    ensures d * n == delta
  {}

  lemma MeanStep(xs: seq<real>, x: real, mean: real, n: real, d: real)
    requires n == |xs| as real && mean * n == Sum(xs) && d * (n + 1.0) == x - mean
    ensures mean + d == Mean(xs + [x])
  {
    var all, q, k := xs + [x], mean + d, n + 1.0;
    assert all[..|xs|] == xs;
    assert q * k == Sum(all) by { assert q * k == mean * n + mean + d * k; }
    Divided(Sum(all), k, q);
  }

  /** From the mean, the linear term vanishes. */
  lemma ShiftFromMean(xs: seq<real>, mean: real, n: real, d: real)
    requires n == |xs| as real && mean * n == Sum(xs)
    ensures Deviations(xs, mean + d) == Deviations(xs, mean) + Times(|xs|, d * d)
  {
    Shift(xs, mean, d);
    ExcessIs(xs, mean);
    TimesIs(|xs|, n, mean);
    TimesZero(d, Excess(xs, mean));
  }

  lemma TimesZero(d: real, t: real)
    requires t == 0.0
    ensures d * t == 0.0
  {}

  lemma DeviationsStep(xs: seq<real>, x: real, mean: real, n: real, d: real, delta: real, mean': real, e: real)
    requires n == |xs| as real && mean * n == Sum(xs) && d * (n + 1.0) == delta
    requires delta == x - mean && mean' == mean + d && e == x - mean'
    ensures Deviations(xs + [x], mean') == Deviations(xs, mean) + delta * e
  {
    ShiftFromMean(xs, mean, n, d);
    assert (xs + [x])[..|xs|] == xs;
    WelfordAlgebra(|xs|, n, d, delta, e);
  }

  lemma WelfordAlgebra(k: nat, n: real, d: real, delta: real, e: real)
    requires n == k as real && delta == d * (n + 1.0) && e == delta - d
    ensures Times(k, d * d) + Squared(e) == delta * e
  {
    TimesIs(k, n, d * d);
    var a := d * n;
    assert delta == a + d;
    assert (a + d) * a == a * a + d * a;
    assert d * a == n * (d * d);
  }

  /** One cell more: k is the new count, delta the distance to the old mean, e to the new. */
  lemma WelfordStep(xs: seq<real>, x: real, mean: real, k: real, delta: real, mean': real, e: real)
    requires mean == Mean(xs) && k == |xs| as real + 1.0 && delta == x - mean
    requires mean' == mean + delta / k && e == x - mean'
    ensures mean' == Mean(xs + [x])
    ensures Deviations(xs + [x], mean') == Deviations(xs, mean) + delta * e
  {
    var n, d := |xs| as real, delta / k;
    MeanTimesCount(xs, mean, n);
    Quotient(d, delta, k);
    MeanStep(xs, x, mean, n, d);
    DeviationsStep(xs, x, mean, n, d, delta, mean', e);
  }

  // ------------------------------------------------------------------- other sums

  ghost predicate IsMax(xs: seq<real>, m: real) { m in xs && forall x :: x in xs ==> x <= m }

  ghost predicate IsMin(xs: seq<real>, m: real) { m in xs && forall x :: x in xs ==> m <= x }

  class CellAccumulator {
    var count: nat
    var total: real
    var max: real
    var min: real
    var prod: real
    ghost var seen: seq<real>

    constructor ()
      ensures Valid() && seen == []
    {
      count, total, max, min, prod, seen := 0, 0.0, 0.0, 0.0, 1.0, [];
    }

    ghost predicate Valid()
      reads this
    {
      && count == |seen| && total == Sum(seen) && prod == Product(seen)
      && (if seen == [] then max == 0.0 && min == 0.0 else IsMax(seen, max) && IsMin(seen, min))
    }

    method Apply(cell: Cell)
      requires Valid()
      modifies this
      ensures Valid() && seen == old(seen) + if cell.kind == Value then [cell.value] else []
    {
      if cell.kind != Value { return; }
      count := count + 1;
      total := total + cell.value;
      prod := prod * cell.value;
      if count == 1 {
        max, min := cell.value, cell.value;
      } else {
        max := if cell.value > max then cell.value else max;
        min := if cell.value < min then cell.value else min;
      }
      seen := seen + [cell.value];
    }

    method GetAverage() returns (r: real)
      requires Valid()
      ensures r == Mean(seen)
    {
      r := if count > 0 then total / count as real else 0.0;
    }
  }

  // -------------------------------------------------------------------- filtering

  type Row = seq<Cell>

  datatype Filter = Filter(fieldIndex: int, matchStrId: int)

  datatype MultiFilter = MultiFilter(fieldIndex: int, matchStrIds: seq<int>)

  /** The row passes every filter on a field that it has. */
  ghost predicate Passes(row: Row, filters: seq<MultiFilter>) {
    forall k :: 0 <= k < |filters| && 0 <= filters[k].fieldIndex < |row| ==>
      row[filters[k].fieldIndex].strId in filters[k].matchStrIds
  }

  ghost predicate PassesSingle(row: Row, filters: seq<Filter>) {
    forall k :: 0 <= k < |filters| && 0 <= filters[k].fieldIndex < |row| ==>
      row[filters[k].fieldIndex].strId == filters[k].matchStrId
  }

  function ToMulti(filters: seq<Filter>): seq<MultiFilter> {
    seq(|filters|, k requires 0 <= k < |filters| => MultiFilter(filters[k].fieldIndex, [filters[k].matchStrId]))
  }

  method Filter2MultiFilter(filters: seq<Filter>) returns (multi: seq<MultiFilter>)
    ensures multi == ToMulti(filters)
    ensures forall row: Row :: Passes(row, multi) <==> PassesSingle(row, filters)
  {
    multi := [];
    for k := 0 to |filters|
      invariant multi == ToMulti(filters)[..k]
    {
      multi := multi + [MultiFilter(filters[k].fieldIndex, [filters[k].matchStrId])];
    }
    forall row: Row ensures Passes(row, multi) <==> PassesSingle(row, filters) { SingleIsMulti(row, filters); }
  }

  lemma SingleIsMulti(row: Row, filters: seq<Filter>)
    ensures Passes(row, ToMulti(filters)) <==> PassesSingle(row, filters)
  {
    var multi := ToMulti(filters);
    if Passes(row, multi) {
      forall k | 0 <= k < |filters| && 0 <= filters[k].fieldIndex < |row|
        ensures row[filters[k].fieldIndex].strId == filters[k].matchStrId
      {
        assert multi[k] == MultiFilter(filters[k].fieldIndex, [filters[k].matchStrId]);
      }
    }
  }

  /** The strings of the row pass: a filter lists the strings that it lets through. */
  ghost predicate PassesTexts(strings: seq<string>, row: Row, filters: seq<MultiFilter>)
    requires Interned(strings, row, filters)
  {
    forall k :: 0 <= k < |filters| && 0 <= filters[k].fieldIndex < |row| ==>
      strings[row[filters[k].fieldIndex].strId] in Texts(strings, filters[k].matchStrIds)
  }

  ghost predicate InTable(strings: seq<string>, wanted: seq<int>) {
    forall m :: 0 <= m < |wanted| ==> 0 <= wanted[m] < |strings|
  }

  ghost predicate Interned(strings: seq<string>, row: Row, filters: seq<MultiFilter>) {
    && (forall i :: 0 <= i < |row| ==> 0 <= row[i].strId < |strings|)
    && forall k :: 0 <= k < |filters| ==> InTable(strings, filters[k].matchStrIds)
  }

  ghost function Texts(strings: seq<string>, wanted: seq<int>): set<string>
    requires InTable(strings, wanted)
  {
    set m | 0 <= m < |wanted| :: strings[wanted[m]]
  }

  /** Filtering by ids is filtering by strings. */
  lemma FiltersByText(table: SharedStringTable, row: Row, filters: seq<MultiFilter>)
    requires table.Valid() && Interned(table.strings, row, filters)
    ensures Passes(row, filters) <==> PassesTexts(table.strings, row, filters)
  {
    forall k | 0 <= k < |filters| && 0 <= filters[k].fieldIndex < |row|
      ensures row[filters[k].fieldIndex].strId in filters[k].matchStrIds
         <==> table.strings[row[filters[k].fieldIndex].strId] in Texts(table.strings, filters[k].matchStrIds)
    {
      table.MatchingIdsIsMatchingStrings(row[filters[k].fieldIndex].strId, filters[k].matchStrIds);
    }
  }

  /** The cells of the data field, of the rows that pass and have the field. */
  ghost function Selected(rows: seq<Row>, filters: seq<MultiFilter>, field: nat): seq<Cell> {
    if rows == [] then []
    else
      var row := rows[|rows| - 1];
      Selected(rows[..|rows| - 1], filters, field) + if field < |row| && Passes(row, filters) then [row[field]] else []
  }

  // ------------------------------------------------------------------- aggregates

  datatype Function =
    NoFunction | Auto | SumOf | Average | Count | Max | Min | ProductOf | CountNums | StDev | StDevP | Var | VarP

  /** The square root of the platform, exact over the real numbers. */
  ghost predicate IsSqrt(sqrt: real -> real) {
    forall x :: x >= 0.0 ==> sqrt(x) >= 0.0 && Squared(sqrt(x)) == x
  }

  ghost predicate IsRoot(r: Number, v: Number) {
    if v.Real? then r.Real? && r.r >= 0.0 && Squared(r.r) == v.r else r == NotANumber
  }

  function CountNumText(cells: seq<Cell>): nat {
    if cells == [] then 0
    else
      var kind := cells[|cells| - 1].kind;
      CountNumText(cells[..|cells| - 1]) + if kind == Value || kind == String then 1 else 0
  }

  function AllValues(cells: seq<Cell>): seq<real> {
    seq(|cells|, i requires 0 <= i < |cells| => cells[i].value)
  }

  /** What each aggregate of the selected cells means. Sums add the number stored in any
      cell; the other aggregates look at cells of type value alone. */
  ghost predicate IsAggregate(func: Function, cells: seq<Cell>, r: Number) {
    var xs := Values(cells);
    if cells == [] then r == Real(0.0)
    else
      match func
      case NoFunction => r == Real(0.0)
      case Auto => r == Real(Sum(AllValues(cells)))
      case SumOf => r == Real(Sum(AllValues(cells)))
      case Average => r == Real(Mean(xs))
      case Count => r == Real(CountNumText(cells) as real)
      case CountNums => r == Real(|xs| as real)
      case Max => r.Real? && if xs == [] then r.r == 0.0 else IsMax(xs, r.r)
      case Min => r.Real? && if xs == [] then r.r == 0.0 else IsMin(xs, r.r)
      case ProductOf => r == Real(if xs == [] then 0.0 else Product(xs))
      case StDev => IsRoot(r, TwoPass(xs, false))
      case StDevP => IsRoot(r, TwoPass(xs, true))
      case Var => r == TwoPass(xs, false)
      case VarP => r == TwoPass(xs, true)
  }

  // ------------------------------------------------- which rows and cells are taken

  /** Places below n in ascending order. */
  ghost predicate Ascending(places: seq<nat>, n: nat) {
    && (forall k :: 0 <= k < |places| ==> places[k] < n)
    && forall j, k :: 0 <= j < k < |places| ==> places[j] < places[k]
  }

  lemma AscendingMore(places: seq<nat>, n: nat)
    requires Ascending(places, n)
    ensures Ascending(places, n + 1) && Ascending(places + [n], n + 1)
    ensures n !in places && forall i :: i in places + [n] <==> i in places || i == n
  {}

  /** taken is what stands at the places of all, in order. */
  ghost predicate Picked<T(!new)>(taken: seq<T>, all: seq<T>, places: seq<nat>) {
    Ascending(places, |all|) && |taken| == |places| && forall k :: 0 <= k < |places| ==> taken[k] == all[places[k]]
  }

  lemma PickedMore<T(!new)>(taken: seq<T>, all: seq<T>, places: seq<nat>, x: T)
    requires Picked(taken, all, places)
    ensures Picked(taken, all + [x], places) && Picked(taken + [x], all + [x], places + [|all|])
  {
    AscendingMore(places, |all|);
  }

  /** The values are those of the cells of type value, each once and in order. */
  lemma {:induction false} ValueCells(cells: seq<Cell>) returns (places: seq<nat>)
    ensures Picked(Values(cells), AllValues(cells), places)
    ensures forall i: nat :: i < |cells| ==> (i in places <==> cells[i].kind == Value)
    decreases |cells|
  {
    places := [];
    if cells != [] {
      var n := |cells| - 1;
      var front, last := cells[..n], cells[n];
      places := ValueCells(front);
      AscendingMore(places, n);
      PickedMore(Values(front), AllValues(front), places, last.value);
      assert AllValues(cells) == AllValues(front) + [last.value];
      if last.kind == Value {
        places := places + [n];
      } else {
        assert Values(front) + [] == Values(front);
      }
    }
  }

  /** The cells of a column; any cell where a row lacks the field. */
  function Column(rows: seq<Row>, field: nat): seq<Cell> {
    seq(|rows|, i requires 0 <= i < |rows| =>
      if field < |rows[i]| then rows[i][field] else Cell(0, 0.0, Empty))
  }

  /** The selected cells are those of the rows that have the field and pass, each once and in
      the order of the rows. */
  lemma {:induction false} SelectedRows(rows: seq<Row>, filters: seq<MultiFilter>, field: nat)
    returns (places: seq<nat>)
    ensures Picked(Selected(rows, filters, field), Column(rows, field), places)
    ensures forall i: nat :: i < |rows| ==> (i in places <==> field < |rows[i]| && Passes(rows[i], filters))
    decreases |rows|
  {
    places := [];
    if rows != [] {
      var n := |rows| - 1;
      var front, last := rows[..n], rows[n];
      var cell := if field < |last| then last[field] else Cell(0, 0.0, Empty);
      places := SelectedRows(front, filters, field);
      forall i: nat | i < n ensures i in places <==> field < |rows[i]| && Passes(rows[i], filters) {
        assert front[i] == rows[i];
      }
      AscendingMore(places, n);
      PickedMore(Selected(front, filters, field), Column(front, field), places, cell);
      assert Column(rows, field) == Column(front, field) + [cell];
      if field < |last| && Passes(last, filters) {
        places := places + [n];
      } else {
        assert Selected(front, filters, field) + [] == Selected(front, filters, field);
      }
    }
  }

  /** Each number and each text counts one. */
  lemma {:induction false} CountedCells(cells: seq<Cell>) returns (places: seq<nat>)
    ensures Ascending(places, |cells|) && CountNumText(cells) == |places|
    ensures forall i: nat :: i < |cells| ==> (i in places <==> cells[i].kind in {Value, String})
    decreases |cells|
  {
    places := [];
    if cells != [] {
      var n := |cells| - 1;
      places := CountedCells(cells[..n]);
      AscendingMore(places, n);
      if cells[n].kind == Value || cells[n].kind == String { places := places + [n]; }
    }
  }

  // ------------------------------------------------------ the automatic aggregate

  /** What the comment promises: the sum of numbers, or the count when some cell is none. */
  ghost function PromisedAuto(cells: seq<Cell>): real {
    if AllNumbers(cells) then Sum(AllValues(cells))
    else CountNumText(cells) as real
  }

  /** Other numbers in the cells of type value; all other cells hold zero. */
  ghost predicate SameKinds(cells: seq<Cell>, other: seq<Cell>) {
    && |other| == |cells|
    && forall i :: 0 <= i < |cells| ==>
         other[i].kind == cells[i].kind && (other[i].kind != Value ==> other[i].value == 0.0)
  }

  lemma {:induction false} SumOfZeros(xs: seq<real>)
    requires forall i :: 0 <= i < |xs| ==> xs[i] == 0.0
    ensures Sum(xs) == 0.0
  {
    if xs != [] { SumOfZeros(xs[..|xs| - 1]); }
  }

  predicate Counted(cell: Cell) { cell.kind == Value || cell.kind == String }

  lemma {:induction false} CountsSome(cells: seq<Cell>)
    ensures CountNumText(cells) > 0 <==> exists i :: 0 <= i < |cells| && Counted(cells[i])
  {
    if cells != [] {
      var front := cells[..|cells| - 1];
      CountsSome(front);
      assert forall i :: 0 <= i < |front| ==> front[i] == cells[i];
      assert Counted(cells[|cells| - 1]) ==> exists i :: 0 <= i < |cells| && Counted(cells[i]);
    }
  }

  ghost predicate AllNumbers(cells: seq<Cell>) { forall i :: 0 <= i < |cells| ==> cells[i].kind == Value }

  ghost predicate NoneCounted(cells: seq<Cell>) { forall i :: 0 <= i < |cells| ==> !Counted(cells[i]) }

  /** The code sums in both cases. It does what the comment promises, whatever the numbers
      are, if and only if all cells are numbers, or none is a number or a text. */
  lemma AutoAsPromised(cells: seq<Cell>)
    requires cells != []
    ensures (forall other, r :: SameKinds(cells, other) && IsAggregate(Auto, other, r) ==>
               r == Real(PromisedAuto(other)))
       <==> AllNumbers(cells) || NoneCounted(cells)
  {
    if AllNumbers(cells) || NoneCounted(cells) {
      forall other, r | SameKinds(cells, other) && IsAggregate(Auto, other, r) ensures r == Real(PromisedAuto(other)) {
        if cells[0].kind != Value {
          SumOfZeros(AllValues(other));
          CountsSome(other);
        }
      }
    } else {
      var other := seq(|cells|, i requires 0 <= i < |cells| => Cell(cells[i].strId, 0.0, cells[i].kind));
      SumOfZeros(AllValues(other));
      CountsSome(other);
      assert SameKinds(cells, other) && IsAggregate(Auto, other, Real(0.0));
    }
  }

  class ResultAggregator {
    const filters: seq<MultiFilter>
    const dataFieldId: nat
    const func: Function
    var values: seq<real>
    var cells: seq<Cell>

    constructor (filters: seq<MultiFilter>, dataFieldId: nat, func: Function)
      ensures this.filters == filters && this.dataFieldId == dataFieldId && this.func == func
      ensures values == [] && cells == []
    {
      this.filters, this.dataFieldId, this.func := filters, dataFieldId, func;
      values, cells := [], [];
    }

    constructor FromSingle(filters: seq<Filter>, dataFieldId: nat, func: Function)
      ensures this.filters == ToMulti(filters) && this.dataFieldId == dataFieldId && this.func == func
      ensures values == [] && cells == []
    {
      var multi := Filter2MultiFilter(filters);
      this.filters, this.dataFieldId, this.func := multi, dataFieldId, func;
      values, cells := [], [];
    }

    method Apply(row: Row)
      requires values == AllValues(cells)
      modifies this
      ensures values == AllValues(cells)
      ensures cells == old(cells) + if dataFieldId < |row| && Passes(row, filters) then [row[dataFieldId]] else []
    {
      if dataFieldId >= |row| { return; }
      var includeRow := true;
      for k := 0 to |filters|
        invariant includeRow
        invariant forall j :: 0 <= j < k && 0 <= filters[j].fieldIndex < |row| ==>
                    row[filters[j].fieldIndex].strId in filters[j].matchStrIds
      {
        var fieldId := filters[k].fieldIndex;
        if fieldId >= |row| || fieldId < 0 { continue; }
        if row[fieldId].strId !in filters[k].matchStrIds {
          includeRow := false;
          break;
        }
      }
      if includeRow {
        values := values + [row[dataFieldId].value];
        cells := cells + [row[dataFieldId]];
      }
    }

    method GetValue(sqrt: real -> real) returns (r: Number)
      requires values == AllValues(cells) && IsSqrt(sqrt)
      ensures IsAggregate(func, cells, r)
    {
      if |values| == 0 { return Real(0.0); }
      match func {
        case NoFunction => return Real(0.0);
        case Auto => r := Accumulate();
        case SumOf => r := Accumulate();
        case Count => r := CountCells();
        case CountNums =>
          var acc := AccumulateCells();
          return Real(acc.count as real);
        case Average =>
          var acc := AccumulateCells();
          var average := acc.GetAverage();
          return Real(average);
        case Max =>
          var acc := AccumulateCells();
          return Real(acc.max);
        case Min =>
          var acc := AccumulateCells();
          return Real(acc.min);
        case ProductOf =>
          var acc := AccumulateCells();
          return Real(if acc.count > 0 then acc.prod else 0.0);
        case StDev =>
          var variance := Variance(false);
          VarianceNotNegative(Values(cells), false);
          return if variance.Real? then Real(sqrt(variance.r)) else NotANumber;
        case StDevP =>
          var variance := Variance(true);
          VarianceNotNegative(Values(cells), true);
          return if variance.Real? then Real(sqrt(variance.r)) else NotANumber;
        case Var => r := Variance(false);
        case VarP => r := Variance(true);
      }
    }

    method Accumulate() returns (r: Number)
      ensures r == Real(Sum(values))
    {
      var total := 0.0;
      for i := 0 to |values|
        invariant total == Sum(values[..i])
      {
        assert values[..i + 1][..i] == values[..i];
        total := total + values[i];
      }
      assert values[..|values|] == values;
      r := Real(total);
    }

    method CountCells() returns (r: Number)
      ensures r == Real(CountNumText(cells) as real)
    {
      var n := 0;
      for i := 0 to |cells|
        invariant n == CountNumText(cells[..i])
      {
        assert cells[..i + 1][..i] == cells[..i];
        if cells[i].kind == Value || cells[i].kind == String { n := n + 1; }
      }
      assert cells[..|cells|] == cells;
      r := Real(n as real);
    }

    method AccumulateCells() returns (acc: CellAccumulator)
      ensures acc.Valid() && acc.seen == Values(cells)
    {
      acc := new CellAccumulator();
      for i := 0 to |cells|
        invariant fresh(acc) && acc.Valid() && acc.seen == Values(cells[..i])
      {
        assert cells[..i + 1][..i] == cells[..i];
        acc.Apply(cells[i]);
      }
      assert cells[..|cells|] == cells;
    }

    method Variance(isPopulation: bool) returns (r: Number)
      ensures r == TwoPass(Values(cells), isPopulation)
    {
      var variance := new CalcVariance();
      for i := 0 to |cells|
        invariant fresh(variance) && variance.Valid() && variance.seen == Values(cells[..i])
      {
        assert cells[..i + 1][..i] == cells[..i];
        variance.Apply(cells[i]);
      }
      assert cells[..|cells|] == cells;
      r := variance.GetVariance(isPopulation);
    }
  }

  /** The aggregate over the rows that pass the filters. */
  method AggregateValue(rows: seq<Row>, filters: seq<MultiFilter>, dataFieldId: nat, func: Function, sqrt: real -> real)
    returns (r: Number)
    requires IsSqrt(sqrt)
    ensures IsAggregate(func, Selected(rows, filters, dataFieldId), r)
  {
    var aggregator := new ResultAggregator(filters, dataFieldId, func);
    r := Aggregate(aggregator, rows, sqrt);
  }

  /** The same with filters of one string each. */
  method AggregateSingle(rows: seq<Row>, filters: seq<Filter>, dataFieldId: nat, func: Function, sqrt: real -> real)
    returns (r: Number)
    requires IsSqrt(sqrt)
    ensures IsAggregate(func, Selected(rows, ToMulti(filters), dataFieldId), r)
  {
    var aggregator := new ResultAggregator.FromSingle(filters, dataFieldId, func);
    r := Aggregate(aggregator, rows, sqrt);
  }

  method Aggregate(aggregator: ResultAggregator, rows: seq<Row>, sqrt: real -> real) returns (r: Number)
    requires IsSqrt(sqrt)
    requires aggregator.values == [] && aggregator.cells == []
    modifies aggregator
    ensures IsAggregate(aggregator.func, Selected(rows, aggregator.filters, aggregator.dataFieldId), r)
  {
    for i := 0 to |rows|
      invariant aggregator.values == AllValues(aggregator.cells)
      invariant aggregator.cells == Selected(rows[..i], aggregator.filters, aggregator.dataFieldId)
    {
      assert rows[..i + 1][..i] == rows[..i];
      aggregator.Apply(rows[i]);
    }
    assert rows[..|rows|] == rows;
    r := aggregator.GetValue(sqrt);
  }
}
