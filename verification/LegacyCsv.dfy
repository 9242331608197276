/**
 Reading a CSV written before the record format existed.

 The loops of the converter are proved against the list of candidate cells: a
 wide or long file becomes metrics exactly when that list is non-empty and its
 keys are distinct, and then the metrics are that list. Between two files of a
 run, it is decided exactly which headers let them claim one key.
*/
module LegacyCsv {
  import opened Wrappers

  /** A number as read from a cell. */
  datatype Float = Finite(digits: string) | NotFinite

  /** How cells are read: `i64` and `f64` parsing. */
  datatype Reading = Reading(asInt: string -> Option<int>, asFloat: string -> Option<Float>)

  datatype Metric = Metric(step: Option<int>, stepUnit: Option<string>, scope: string, name: string, value: string)

  datatype Key = Key(name: string, step: Option<int>, stepUnit: Option<string>, scope: string)

  function KeyOf(m: Metric): Key {
    Key(m.name, m.step, m.stepUnit, m.scope)
  }

  /** Why a file stayed a table. */
  datatype Reason = ManyRowsNoAxis | Collision(name: string, step: Option<int>) | NothingReadable

  datatype Converted = Metrics(metrics: seq<Metric>) | Table(reason: Reason)

  datatype Axis = Axis(column: nat, unit: string)

  /** The unit of a column that can serve as the axis. */
  function TimeUnit(column: string): Option<string> {
    if column == "step" || column == "t" || column == "iteration" then Some("step")
    else if column in {"round", "epoch", "turn", "generation", "day", "month", "year"} then Some(column)
    else None
  }

  /** The grammar of slugs: at most 64 characters, lower case, starting with a letter or digit. */
  predicate Slug(value: string) {
    && 0 < |value| <= 64
    && LowerOrDigit(value[0])
    && forall i :: 0 < i < |value| ==> LowerOrDigit(value[i]) || value[i] in ['.', '_', '-']
  }

  predicate LowerOrDigit(c: char) {
    'a' <= c <= 'z' || '0' <= c <= '9'
  }

  function IntAt(reading: Reading, row: seq<string>, i: nat): Option<int> {
    if i < |row| then reading.asInt(row[i]) else None
  }

  /** The finite number in a cell, if there is one. */
  function NumberAt(reading: Reading, row: seq<string>, i: nat): Option<string> {
    if i >= |row| then None
    else match reading.asFloat(row[i])
      case Some(Finite(digits)) => Some(digits)
      case _ => None
  }

  // The shape of a file

  /** What a file puts before its own names. */
  function Prefix(stem: string): string {
    if stem == "metrics" then "" else stem + "."
  }

  /** The time axes of a header, in order. */
  function Axes(header: seq<string>): seq<Axis> {
    if header == [] then []
    else
      var last := |header| - 1;
      Axes(header[..last]) + (match TimeUnit(header[last]) case Some(unit) => [Axis(last, unit)] case None => [])
  }

  /** The first column that satisfies a test. */
  function Position(header: seq<string>, wanted: string -> bool): (r: Option<nat>)
    ensures r.Some? ==> r.value < |header| && wanted(header[r.value])
    ensures r.Some? ==> forall i :: 0 <= i < r.value ==> !wanted(header[i])
    ensures r.None? ==> forall i :: 0 <= i < |header| ==> !wanted(header[i])
  {
    if header == [] then None
    else if wanted(header[0]) then Some(0)
    else
      match Position(header[1..], wanted)
      case None => None
      case Some(i) => Some(i + 1)
  }

  function NameColumn(header: seq<string>): Option<nat> {
    Position(header, h => h == "name" || h == "metric")
  }

  /** The first column of this name. */
  predicate FirstNamed(header: seq<string>, name: string, i: nat) {
    i < |header| && header[i] == name && forall j :: 0 <= j < i ==> header[j] != name
  }

  /** The column of the values: the first named for the name column, and if there is none the first called "value". */
  ghost predicate IsValueColumn(header: seq<string>, nameColumn: nat, i: nat)
    requires nameColumn < |header|
  {
    var paired := header[nameColumn] + "_value";
    FirstNamed(header, paired, i) || (paired !in header && FirstNamed(header, "value", i))
  }

  /** Where a header has such a column. */
  function ValueColumn(header: seq<string>, nameColumn: nat): (r: Option<nat>)
    requires nameColumn < |header|
    ensures r.Some? ==> IsValueColumn(header, nameColumn, r.value)
    ensures r.None? ==> header[nameColumn] + "_value" !in header && "value" !in header
  {
    var paired := Position(header, h => h == header[nameColumn] + "_value");
    if paired.Some? then paired else Position(header, h => h == "value")
  }

  // Candidates

  datatype Wide = Wide(reading: Reading, header: seq<string>, axis: Option<Axis>, prefix: string)

  /** The step of a row; an absent result skips the row. */
  function StepOf(reading: Reading, axis: Option<Axis>, row: seq<string>): Option<Option<int>> {
    match axis
    case None => Some(None)
    case Some(a) => match IntAt(reading, row, a.column) case Some(step) => Some(Some(step)) case None => None
  }

  function UnitOf(axis: Option<Axis>): Option<string> {
    match axis case Some(a) => Some(a.unit) case None => None
  }

  predicate IsAxisColumn(axis: Option<Axis>, i: nat) {
    axis.Some? && axis.value.column == i
  }

  /** What one cell yields: a metric, or nothing. */
  function WideCell(w: Wide, row: seq<string>, step: Option<int>, i: nat): Option<Metric>
    requires i < |w.header|
  {
    var name := w.prefix + w.header[i];
    match NumberAt(w.reading, row, i)
    case Some(digits) =>
      if IsAxisColumn(w.axis, i) || !Slug(name) then None else Some(Metric(step, UnitOf(w.axis), "run", name, digits))
    case None => None
  }

  function OneOrNone(m: Option<Metric>): seq<Metric> {
    if m.Some? then [m.value] else []
  }

  /** The candidates of a row's first `n` columns. */
  function WideRow(w: Wide, row: seq<string>, step: Option<int>, n: nat): seq<Metric>
    requires n <= |w.header|
  {
    if n == 0 then [] else WideRow(w, row, step, n - 1) + OneOrNone(WideCell(w, row, step, n - 1))
  }

  function RowCandidates(w: Wide, row: seq<string>): seq<Metric> {
    match StepOf(w.reading, w.axis, row)
    case Some(step) => WideRow(w, row, step, |w.header|)
    case None => []
  }

  function WideCandidates(w: Wide, rows: seq<seq<string>>): seq<Metric> {
    if rows == [] then [] else WideCandidates(w, rows[..|rows| - 1]) + RowCandidates(w, rows[|rows| - 1])
  }

  datatype Long = Long(reading: Reading, header: seq<string>, axis: Option<Axis>, nameColumn: nat, valueColumn: nat,
      prefix: string)

  function ScopeOf(l: Long, row: seq<string>): string {
    match Position(l.header, h => h == "scope")
    case None => "run"
    case Some(i) => if i < |row| && row[i] != "" then row[i] else "run"
  }

  function LongCandidate(l: Long, row: seq<string>): Option<Metric> {
    match StepOf(l.reading, l.axis, row)
    case None => None
    case Some(step) =>
      if l.nameColumn >= |row| then None
      else
        var name, scope := l.prefix + row[l.nameColumn], ScopeOf(l, row);
        match NumberAt(l.reading, row, l.valueColumn)
        case Some(digits) => if Slug(name) && Slug(scope) then Some(Metric(step, UnitOf(l.axis), scope, name, digits))
            else None
        case None => None
  }

  function LongCandidates(l: Long, rows: seq<seq<string>>): seq<Metric> {
    if rows == [] then [] else LongCandidates(l, rows[..|rows| - 1]) + OneOrNone(LongCandidate(l, rows[|rows| - 1]))
  }

  // Keys

  ghost function Keys(metrics: seq<Metric>): set<Key> {
    set m | m in metrics :: KeyOf(m)
  }

  /** No two metrics share a key. */
  ghost predicate Distinct(metrics: seq<Metric>) {
    forall i, j :: 0 <= i < j < |metrics| ==> KeyOf(metrics[i]) != KeyOf(metrics[j])
  }

  lemma DistinctAppend(metrics: seq<Metric>, m: Metric)
    ensures Distinct(metrics + [m]) <==> Distinct(metrics) && KeyOf(m) !in Keys(metrics)
    ensures Keys(metrics + [m]) == Keys(metrics) + {KeyOf(m)}
  {
    var longer := metrics + [m];
    assert longer[|metrics|] == m && forall i :: 0 <= i < |metrics| ==> longer[i] == metrics[i];
    if KeyOf(m) in Keys(metrics) {
      var i :| 0 <= i < |metrics| && KeyOf(metrics[i]) == KeyOf(m);
      assert !Distinct(longer);
    }
    forall k
      ensures k in Keys(longer) <==> k in Keys(metrics) || k == KeyOf(m)
    {
      if k in Keys(metrics) {
        var n :| n in metrics && KeyOf(n) == k;
        assert n in longer;
      }
      assert m in longer;
    }
  }

  /** The collision that is reported is the first in the list. */
  ghost predicate FirstCollision(metrics: seq<Metric>, reason: Reason) {
    exists k :: 0 <= k < |metrics| && Distinct(metrics[..k]) && KeyOf(metrics[k]) in Keys(metrics[..k])
      && reason == Collision(metrics[k].name, metrics[k].step)
  }

  /** What the candidates decide. */
  ghost predicate Decides(candidates: seq<Metric>, r: Converted) {
    && (r.Metrics? <==> candidates != [] && Distinct(candidates))
    && (r.Metrics? ==> r.metrics == candidates)
    && (r.Table? ==> if candidates == [] then r.reason.NothingReadable? else FirstCollision(candidates, r.reason))
  }

  /** A candidate that collides with those before it settles the whole file. */
  lemma CollisionDecides(out: seq<Metric>, m: Metric, candidates: seq<Metric>)
    requires out + [m] <= candidates && Distinct(out) && KeyOf(m) in Keys(out)
    ensures Decides(candidates, Table(Collision(m.name, m.step)))
  {
    DistinctAppend(out, m);
    assert candidates[..|out|] == out && candidates[|out|] == m;
  }

  lemma {:induction false} WideRowGrows(w: Wide, row: seq<string>, step: Option<int>, m: nat, n: nat)
    requires m <= n <= |w.header|
    ensures WideRow(w, row, step, m) <= WideRow(w, row, step, n)
    decreases n
  {
    if m < n { WideRowGrows(w, row, step, m, n - 1); }
  }

  lemma {:induction false} WideCandidatesGrow(w: Wide, rows: seq<seq<string>>, n: nat)
    requires n <= |rows|
    ensures WideCandidates(w, rows[..n]) <= WideCandidates(w, rows)
    decreases |rows|
  {
    if n == |rows| {
      assert rows[..n] == rows;
    } else {
      assert rows[..|rows| - 1][..n] == rows[..n];
      WideCandidatesGrow(w, rows[..|rows| - 1], n);
    }
  }

  lemma {:induction false} LongCandidatesGrow(l: Long, rows: seq<seq<string>>, n: nat)
    requires n <= |rows|
    ensures LongCandidates(l, rows[..n]) <= LongCandidates(l, rows)
    decreases |rows|
  {
    if n == |rows| {
      assert rows[..n] == rows;
    } else {
      assert rows[..|rows| - 1][..n] == rows[..n];
      LongCandidatesGrow(l, rows[..|rows| - 1], n);
    }
  }

  /** One more cell of a row, behind whatever came before. */
  lemma RowExtends(w: Wide, row: seq<string>, step: Option<int>, i: nat, before: seq<Metric>, m: Metric)
    requires i < |w.header| && WideCell(w, row, step, i) == Some(m)
    ensures before + WideRow(w, row, step, i + 1) == before + WideRow(w, row, step, i) + [m]
    ensures before + WideRow(w, row, step, i) + [m] <= before + WideRow(w, row, step, |w.header|)
  {
    WideRowGrows(w, row, step, i + 1, |w.header|);
  }

  /** The metrics gathered so far, with the keys they claim. */
  class Gathered {
    var out: seq<Metric>
    var seen: set<Key>

    ghost predicate Valid()
      reads this
    {
      Distinct(out) && seen == Keys(out)
    }

    constructor ()
      ensures Valid() && out == []
    {
      out, seen := [], {};
    }

    /** Adds a metric, unless its key is taken. */
    method Offer(m: Metric) returns (taken: bool)
      requires Valid()
      modifies this
      ensures Valid()
      ensures taken <==> KeyOf(m) in Keys(old(out))
      ensures out == if taken then old(out) else old(out) + [m]
    {
      taken := KeyOf(m) in seen;
      if !taken {
        DistinctAppend(out, m);
        out := out + [m];
        seen := seen + {KeyOf(m)};
      }
    }

    /** The cells of one row; stops at the first whose key is taken. */
    method OfferRow(w: Wide, row: seq<string>, step: Option<int>) returns (clash: Option<Metric>)
      requires Valid()
      modifies this
      ensures Valid()
      ensures clash.None? ==> out == old(out) + WideRow(w, row, step, |w.header|)
      ensures clash.Some? ==>
        KeyOf(clash.value) in Keys(out) && out + [clash.value] <= old(out) + WideRow(w, row, step, |w.header|)
    {
      for i := 0 to |w.header|
        invariant Valid() && out == old(out) + WideRow(w, row, step, i)
      {
        var cell := WideCell(w, row, step, i);
        if cell.Some? {
          RowExtends(w, row, step, i, old(out), cell.value);
          var taken := Offer(cell.value);
          if taken { return cell; }
        }
      }
      clash := None;
    }
  }

  /** What becomes of a wide file is what its candidates decide. */
  method ConvertWide(w: Wide, rows: seq<seq<string>>) returns (r: Converted)
    ensures w.axis.None? && |rows| > 1 ==> r == Table(ManyRowsNoAxis)
    ensures w.axis.Some? || |rows| <= 1 ==> Decides(WideCandidates(w, rows), r)
  {
    if w.axis.None? && |rows| > 1 { return Table(ManyRowsNoAxis); }
    var g := new Gathered();
    for i := 0 to |rows|
      invariant g.Valid() && g.out == WideCandidates(w, rows[..i])
    {
      assert rows[..i + 1][..i] == rows[..i];
      WideCandidatesGrow(w, rows, i + 1);
      var step := StepOf(w.reading, w.axis, rows[i]);
      if step.Some? {
        var clash := g.OfferRow(w, rows[i], step.value);
        if clash.Some? {
          CollisionDecides(g.out, clash.value, WideCandidates(w, rows));
          return Table(Collision(clash.value.name, clash.value.step));
        }
      }
    }
    assert rows[..|rows|] == rows;
    r := if g.out == [] then Table(NothingReadable) else Metrics(g.out);
  }

  /** Reads a file that is already long: one candidate in each row. */
  method ConvertLong(l: Long, rows: seq<seq<string>>) returns (r: Converted)
    ensures Decides(LongCandidates(l, rows), r)
  {
    var g := new Gathered();
    for i := 0 to |rows|
      invariant g.Valid() && g.out == LongCandidates(l, rows[..i])
    {
      assert rows[..i + 1][..i] == rows[..i];
      LongCandidatesGrow(l, rows, i + 1);
      var m := LongCandidate(l, rows[i]);
      if m.Some? {
        var taken := g.Offer(m.value);
        if taken {
          CollisionDecides(g.out, m.value, LongCandidates(l, rows));
          return Table(Collision(m.value.name, m.value.step));
        }
      }
    }
    assert rows[..|rows|] == rows;
    r := if g.out == [] then Table(NothingReadable) else Metrics(g.out);
  }

  // A whole file

  /** The first axis that is neither the name nor the value of a long file. */
  function LongAxis(axes: seq<Axis>, nameColumn: nat, valueColumn: nat): Option<Axis> {
    if axes == [] then None
    else if axes[0].column != nameColumn && axes[0].column != valueColumn then Some(axes[0])
    else LongAxis(axes[1..], nameColumn, valueColumn)
  }

  /** A file is long when it has a name column and a column for its value. */
  function LongShape(reading: Reading, stem: string, header: seq<string>): Option<Long> {
    match NameColumn(header)
    case None => None
    case Some(n) =>
      match ValueColumn(header, n)
      case None => None
      case Some(v) => Some(Long(reading, header, LongAxis(Axes(header), n, v), n, v, Prefix(stem)))
  }

  function WideShape(reading: Reading, stem: string, header: seq<string>): Wide {
    var axes := Axes(header);
    Wide(reading, header, if axes == [] then None else Some(axes[0]), Prefix(stem))
  }

  /** The candidates of a file, in the shape its header gives it. */
  function Candidates(reading: Reading, stem: string, header: seq<string>, rows: seq<seq<string>>): seq<Metric> {
    match LongShape(reading, stem, header)
    case Some(l) => LongCandidates(l, rows)
    case None => WideCandidates(WideShape(reading, stem, header), rows)
  }

  /** A wide file without an axis has one row at most. */
  predicate Fits(reading: Reading, stem: string, header: seq<string>, rows: seq<seq<string>>) {
    LongShape(reading, stem, header).Some? || WideShape(reading, stem, header).axis.Some? || |rows| <= 1
  }

  /**
   One CSV file: metrics exactly when it fits and its candidates are non-empty with distinct keys,
   and then those candidates.
  */
  method Convert(reading: Reading, stem: string, header: seq<string>, rows: seq<seq<string>>) returns (r: Converted)
    ensures r.Metrics? <==>
              && Fits(reading, stem, header, rows)
              && Candidates(reading, stem, header, rows) != []
              && Distinct(Candidates(reading, stem, header, rows))
    ensures r.Metrics? ==> r.metrics == Candidates(reading, stem, header, rows)
    ensures r.Table? && Fits(reading, stem, header, rows) ==> Decides(Candidates(reading, stem, header, rows), r)
  {
    var long := LongShape(reading, stem, header);
    if long.Some? {
      r := ConvertLong(long.value, rows);
    } else {
      r := ConvertWide(WideShape(reading, stem, header), rows);
    }
  }

  // What a candidate is

  /** The cells a wide row offers: every column but the axis, with a finite number under a usable name. */
  lemma {:induction false} WideRowHolds(w: Wide, row: seq<string>, step: Option<int>, n: nat, m: Metric)
    requires n <= |w.header|
    ensures m in WideRow(w, row, step, n) <==> exists i :: 0 <= i < n && WideCell(w, row, step, i) == Some(m)
  {
    if n > 0 {
      WideRowHolds(w, row, step, n - 1, m);
    }
  }

  predicate FromCell(w: Wide, row: seq<string>, i: nat, m: Metric)
    requires i < |w.header|
  {
    && !IsAxisColumn(w.axis, i)
    && m.scope == "run" && m.stepUnit == UnitOf(w.axis) && m.name == w.prefix + w.header[i] && Slug(m.name)
    && IsStep(w.reading, w.axis, row, m.step)
    && HoldsNumber(w.reading, row, i, m.value)
  }

  /** The cell is there and reads as a finite number with these digits. */
  predicate HoldsNumber(reading: Reading, row: seq<string>, i: nat, digits: string) {
    i < |row| && reading.asFloat(row[i]) == Some(Finite(digits))
  }

  /** The step a row has: the integer in its axis column, and none in a file without an axis. */
  predicate IsStep(reading: Reading, axis: Option<Axis>, row: seq<string>, step: Option<int>) {
    match axis
    case None => step == None
    case Some(a) => a.column < |row| && step.Some? && reading.asInt(row[a.column]) == step
  }

  /** The scope of a long row: its cell under "scope", or "run" when there is none or it is empty. */
  ghost predicate IsScope(header: seq<string>, row: seq<string>, scope: string) {
    if exists i: nat :: FirstNamed(header, "scope", i) && i < |row| && row[i] != "" then
      exists i: nat :: FirstNamed(header, "scope", i) && i < |row| && row[i] == scope
    else scope == "run"
  }

  /** What one row of a long file says. */
  ghost predicate FromRow(l: Long, row: seq<string>, m: Metric) {
    && l.nameColumn < |row| && m.name == l.prefix + row[l.nameColumn] && Slug(m.name)
    && m.stepUnit == UnitOf(l.axis) && IsStep(l.reading, l.axis, row, m.step)
    && HoldsNumber(l.reading, row, l.valueColumn, m.value)
    && IsScope(l.header, row, m.scope) && Slug(m.scope)
  }

  lemma ScopeIs(l: Long, row: seq<string>, scope: string)
    ensures IsScope(l.header, row, scope) <==> scope == ScopeOf(l, row)
  {
    var at := Position(l.header, h => h == "scope");
    if at.Some? {
      assert FirstNamed(l.header, "scope", at.value);
      forall i: nat | FirstNamed(l.header, "scope", i)
        ensures i == at.value
      {
      }
    }
  }

  lemma RowSays(l: Long, row: seq<string>, m: Metric)
    ensures LongCandidate(l, row) == Some(m) <==> FromRow(l, row, m)
  {
    ScopeIs(l, row, m.scope);
  }

  lemma CellSays(w: Wide, row: seq<string>, i: nat, m: Metric)
    requires i < |w.header|
    ensures FromCell(w, row, i, m) <==>
            var step := StepOf(w.reading, w.axis, row); step.Some? && WideCell(w, row, step.value, i) == Some(m)
  {
  }

  lemma WideRowSays(w: Wide, row: seq<string>, m: Metric)
    ensures m in RowCandidates(w, row) <==> exists i :: 0 <= i < |w.header| && FromCell(w, row, i, m)
  {
    var step := StepOf(w.reading, w.axis, row);
    forall i | 0 <= i < |w.header|
      ensures FromCell(w, row, i, m) <==> step.Some? && WideCell(w, row, step.value, i) == Some(m)
    {
      CellSays(w, row, i, m);
    }
    if step.Some? { WideRowHolds(w, row, step.value, |w.header|, m); }
  }

  /** A metric is a candidate of a wide file exactly when some cell of some row says so. */
  lemma {:induction false} WideCandidateIff(w: Wide, rows: seq<seq<string>>, m: Metric)
    ensures m in WideCandidates(w, rows) <==>
            exists r, i :: 0 <= r < |rows| && 0 <= i < |w.header| && FromCell(w, rows[r], i, m)
  {
    if rows != [] {
      var last := |rows| - 1;
      WideCandidateIff(w, rows[..last], m);
      WideRowSays(w, rows[last], m);
      SplitLast(w, rows, m);
    }
  }

  lemma SplitLast(w: Wide, rows: seq<seq<string>>, m: Metric)
    requires rows != []
    ensures var last := |rows| - 1;
            (exists r, i :: 0 <= r < |rows| && 0 <= i < |w.header| && FromCell(w, rows[r], i, m)) <==>
            (exists r, i :: 0 <= r < last && 0 <= i < |w.header| && FromCell(w, rows[..last][r], i, m)) ||
            (exists i :: 0 <= i < |w.header| && FromCell(w, rows[last], i, m))
  {
    var last := |rows| - 1;
    if r, i :| 0 <= r < |rows| && 0 <= i < |w.header| && FromCell(w, rows[r], i, m) {
      if r < last { assert FromCell(w, rows[..last][r], i, m); }
    }
    if r, i :| 0 <= r < last && 0 <= i < |w.header| && FromCell(w, rows[..last][r], i, m) {
      assert FromCell(w, rows[r], i, m);
    }
  }

  /** The time columns and their units: ten, three of which count in steps. */
  lemma TimeColumnsAre(column: string, unit: string)
    ensures TimeUnit(column) == Some(unit) <==>
            (column, unit) in { ("step", "step"), ("t", "step"), ("iteration", "step"), ("round", "round"),
                                ("epoch", "epoch"), ("turn", "turn"), ("generation", "generation"), ("day", "day"),
                                ("month", "month"), ("year", "year") }
  {
  }

  /** The columns the converter takes for the axis are real axes of the header. */
  lemma {:induction false} AxesAreTimeColumns(header: seq<string>)
    ensures forall a :: a in Axes(header) <==> a.column < |header| && TimeUnit(header[a.column]) == Some(a.unit)
  {
    if header != [] {
      AxesAreTimeColumns(header[..|header| - 1]);
    }
  }

  /** A metric is a candidate of a long file exactly when some row says so. */
  lemma {:induction false} LongCandidateIff(l: Long, rows: seq<seq<string>>, m: Metric)
    ensures m in LongCandidates(l, rows) <==> exists row :: row in rows && FromRow(l, row, m)
  {
    if rows != [] {
      var last := |rows| - 1;
      LongCandidateIff(l, rows[..last], m);
      RowSays(l, rows[last], m);
      assert rows == rows[..last] + [rows[last]];
    }
  }

  // What shape a file has

  /** The first column of a test, if there is one. */
  predicate FirstOf(header: seq<string>, names: set<string>, i: nat) {
    i < |header| && header[i] in names && forall j :: 0 <= j < i ==> header[j] !in names
  }

  /** A time column, and not one that a long file needs for its names or values. */
  predicate IsAxisOf(header: seq<string>, a: Axis, others: set<nat>) {
    a.column < |header| && TimeUnit(header[a.column]) == Some(a.unit) && a.column !in others
  }

  ghost predicate IsFirstAxis(header: seq<string>, axis: Option<Axis>, others: set<nat>) {
    match axis
    case None => forall a :: !IsAxisOf(header, a, others)
    case Some(a) => IsAxisOf(header, a, others) && forall b :: IsAxisOf(header, b, others) ==> a.column <= b.column
  }

  predicate Ascends(axes: seq<Axis>) {
    forall i, j :: 0 <= i < j < |axes| ==> axes[i].column < axes[j].column
  }

  lemma {:induction false} AxesAscend(header: seq<string>)
    ensures Ascends(Axes(header))
  {
    if header != [] {
      var before := Axes(header[..|header| - 1]);
      AxesAscend(header[..|header| - 1]);
      AxesAreTimeColumns(header[..|header| - 1]);
      forall k | 0 <= k < |before|
        ensures before[k].column < |header| - 1
      {
        assert before[k] in before;
      }
    }
  }

  lemma {:induction false} LongAxisIsFirst(axes: seq<Axis>, n: nat, v: nat)
    requires Ascends(axes)
    ensures match LongAxis(axes, n, v)
            case None => forall a :: a in axes ==> a.column == n || a.column == v
            case Some(a) =>
              a in axes && a.column != n && a.column != v &&
              forall b :: b in axes && b.column != n && b.column != v ==> a.column <= b.column
  {
    if axes != [] {
      LongAxisIsFirst(axes[1..], n, v);
      assert forall b :: b in axes <==> b == axes[0] || b in axes[1..] by { assert axes == [axes[0]] + axes[1..]; }
    }
  }

  lemma FirstAxis(header: seq<string>, n: nat, v: nat)
    ensures IsFirstAxis(header, LongAxis(Axes(header), n, v), {n, v})
    ensures IsFirstAxis(header, if Axes(header) == [] then None else Some(Axes(header)[0]), {})
  {
    AxesAreTimeColumns(header);
    AxesAscend(header);
    LongAxisIsFirst(Axes(header), n, v);
    forall a: Axis
      ensures a in Axes(header) <==> a.column < |header| && TimeUnit(header[a.column]) == Some(a.unit)
    {
    }
    if Axes(header) != [] {
      assert Axes(header)[0] in Axes(header);
      forall b | b in Axes(header)
        ensures Axes(header)[0].column <= b.column
      {
        var k :| 0 <= k < |Axes(header)| && Axes(header)[k] == b;
      }
    }
  }

  /** A file is long exactly when it has a column called "name" or "metric" and one for its values; these it reads. */
  lemma LongShapeIff(reading: Reading, stem: string, header: seq<string>)
    ensures LongShape(reading, stem, header).Some? <==>
            exists n: nat, v: nat :: FirstOf(header, {"name", "metric"}, n) && IsValueColumn(header, n, v)
    ensures LongShape(reading, stem, header).Some? ==>
            var l := LongShape(reading, stem, header).value;
            && l.reading == reading && l.header == header && l.prefix == Prefix(stem)
            && FirstOf(header, {"name", "metric"}, l.nameColumn) && IsValueColumn(header, l.nameColumn, l.valueColumn)
            && IsFirstAxis(header, l.axis, {l.nameColumn, l.valueColumn})
  {
    var n := NameColumn(header);
    if n.Some? {
      assert FirstOf(header, {"name", "metric"}, n.value);
      forall k: nat | FirstOf(header, {"name", "metric"}, k)
        ensures k == n.value
      {
      }
      ValueColumnIff(header, n.value);
      if ValueColumn(header, n.value).Some? { FirstAxis(header, n.value, ValueColumn(header, n.value).value); }
    }
  }

  lemma ValueColumnIff(header: seq<string>, n: nat)
    requires n < |header|
    ensures ValueColumn(header, n).Some? <==> exists v: nat :: IsValueColumn(header, n, v)
    ensures ValueColumn(header, n).Some? ==> IsValueColumn(header, n, ValueColumn(header, n).value)
  {
  }

  /** A wide file takes the first time column of all. */
  lemma WideShapeIs(reading: Reading, stem: string, header: seq<string>)
    ensures var w := WideShape(reading, stem, header);
            && w.reading == reading && w.header == header && w.prefix == Prefix(stem)
            && IsFirstAxis(header, w.axis, {})
  {
    FirstAxis(header, 0, 0);
  }

  // Two files of one run

  predicate EndsWith(text: string, end: string) {
    |end| <= |text| && text[|text| - |end|..] == end
  }

  /** The files whose columns are read as metrics, by the name before `.csv`. */
  predicate IsMetricFile(stem: string) {
    "metrics" <= stem || EndsWith(stem, "_metrics") || EndsWith(stem, "_summary")
  }

  /** The longer stem goes on where the shorter one ends, and the name under the shorter one says the rest. */
  predicate Overlap(stem: string, base: string, longer: string, base2: string) {
    |stem| < |longer| && longer[..|stem| + 1] == stem + "." && base == longer[|stem| + 1..] + "." + base2
  }

  /** Two names in two files that come out the same. */
  predicate Meet(stem: string, base: string, stem2: string, base2: string) {
    if stem == "metrics" then base == stem2 + "." + base2
    else if stem2 == "metrics" then base2 == stem + "." + base
    else Overlap(stem, base, stem2, base2) || Overlap(stem2, base2, stem, base)
  }

  lemma OverlapIsSameName(stem: string, base: string, longer: string, base2: string)
    requires Overlap(stem, base, longer, base2)
    ensures stem + "." + base == longer + "." + base2
  {
    var rest := longer[|stem| + 1..];
    assert longer == longer[..|stem| + 1] + rest;
    assert stem + "." + (rest + "." + base2) == (stem + "." + rest) + "." + base2;
  }

  lemma SameNameOverlaps(stem: string, base: string, longer: string, base2: string)
    requires stem != longer && |stem| <= |longer| && stem + "." + base == longer + "." + base2
    ensures Overlap(stem, base, longer, base2)
  {
    var name := stem + "." + base;
    assert stem == name[..|stem|] && longer == name[..|longer|];
    assert |stem| < |longer|;
    assert longer[..|stem| + 1] == name[..|stem| + 1] == stem + ".";
    var rest := longer[|stem| + 1..];
    assert name[|stem| + 1..] == base;
    assert (longer + "." + base2)[|stem| + 1..] == rest + "." + base2;
  }

  /** Two files give one metric name exactly when their stems and names overlap at a dot. */
  lemma NamesMeetIff(stem: string, base: string, stem2: string, base2: string)
    requires stem != stem2
    ensures Prefix(stem) + base == Prefix(stem2) + base2 <==> Meet(stem, base, stem2, base2)
  {
    if stem == "metrics" || stem2 == "metrics" {
      assert "" + base == base && "" + base2 == base2;
    } else {
      if Overlap(stem, base, stem2, base2) { OverlapIsSameName(stem, base, stem2, base2); }
      if Overlap(stem2, base2, stem, base) { OverlapIsSameName(stem2, base2, stem, base); }
      if Prefix(stem) + base == Prefix(stem2) + base2 {
        if |stem| <= |stem2| {
          SameNameOverlaps(stem, base, stem2, base2);
        } else {
          SameNameOverlaps(stem2, base2, stem, base);
        }
      }
    }
  }

  /** Names without a dot of their own never meet. */
  lemma PlainNamesNeverMeet(stem: string, base: string, stem2: string, base2: string)
    requires '.' !in base && '.' !in base2
    ensures !Meet(stem, base, stem2, base2)
  {
    forall a: string, b: string
      ensures '.' in a + "." + b
    {
      assert (a + "." + b)[|a|] == '.';
    }
  }

  /** The name a file gives a metric, before its prefix. */
  function BaseOf(stem: string, m: Metric): string {
    if |Prefix(stem)| <= |m.name| then m.name[|Prefix(stem)|..] else ""
  }

  lemma CandidateNames(reading: Reading, stem: string, header: seq<string>, rows: seq<seq<string>>, m: Metric)
    requires m in Candidates(reading, stem, header, rows)
    ensures m.name == Prefix(stem) + BaseOf(stem, m)
  {
    var long := LongShape(reading, stem, header);
    var base: string;
    if long.Some? {
      LongCandidateIff(long.value, rows, m);
      var row :| row in rows && FromRow(long.value, row, m);
      base := row[long.value.nameColumn];
    } else {
      var w := WideShape(reading, stem, header);
      WideCandidateIff(w, rows, m);
      var r, i :| 0 <= r < |rows| && 0 <= i < |w.header| && FromCell(w, rows[r], i, m);
      base := header[i];
    }
    assert (Prefix(stem) + base)[|Prefix(stem)|..] == base;
  }

  /** Candidates of two files claim one key exactly when they agree on the step and the scope, and their names meet. */
  lemma KeysMeetIff(
    reading: Reading, stem: string, header: seq<string>, rows: seq<seq<string>>, m: Metric,
    stem2: string, header2: seq<string>, rows2: seq<seq<string>>, n: Metric)
    requires stem != stem2
    requires m in Candidates(reading, stem, header, rows) && n in Candidates(reading, stem2, header2, rows2)
    ensures KeyOf(m) == KeyOf(n) <==>
            m.step == n.step && m.stepUnit == n.stepUnit && m.scope == n.scope &&
            Meet(stem, BaseOf(stem, m), stem2, BaseOf(stem2, n))
  {
    CandidateNames(reading, stem, header, rows, m);
    CandidateNames(reading, stem2, header2, rows2, n);
    NamesMeetIff(stem, BaseOf(stem, m), stem2, BaseOf(stem2, n));
  }

  // Which headers let two files meet

  /** The file becomes metrics: what `Convert` decides. */
  ghost predicate Converts(reading: Reading, stem: string, header: seq<string>, rows: seq<seq<string>>) {
    && Fits(reading, stem, header, rows)
    && Candidates(reading, stem, header, rows) != []
    && Distinct(Candidates(reading, stem, header, rows))
  }

  /** Both files become metrics, and claim a key in common. */
  ghost predicate ClaimOneKey(
    reading: Reading, stem: string, header: seq<string>, rows: seq<seq<string>>,
    stem2: string, header2: seq<string>, rows2: seq<seq<string>>)
  {
    && Converts(reading, stem, header, rows) && Converts(reading, stem2, header2, rows2)
    && !(Keys(Candidates(reading, stem, header, rows)) !! Keys(Candidates(reading, stem2, header2, rows2)))
  }

  /** A column of a wide file that can become a metric. */
  predicate Offers(w: Wide, i: nat) {
    i < |w.header| && !IsAxisColumn(w.axis, i) && Slug(w.prefix + w.header[i])
  }

  /** Two columns, on the same kind of axis, whose names meet. */
  ghost predicate ColumnsMeet(stem: string, w: Wide, stem2: string, w2: Wide) {
    UnitOf(w.axis) == UnitOf(w2.axis) &&
    exists i: nat, j: nat :: Offers(w, i) && Offers(w2, j) && Meet(stem, w.header[i], stem2, w2.header[j])
  }

  /** "0" reads as a number, and an empty cell does not. */
  ghost predicate ReadsZero(reading: Reading) {
    reading.asInt("0") == Some(0) && reading.asFloat("0") == Some(Finite("0")) && reading.asFloat("").None?
  }

  lemma AxisIsColumn(header: seq<string>)
    ensures Axes(header) != [] ==> Axes(header)[0].column < |header|
  {
    AxesAreTimeColumns(header);
    if Axes(header) != [] { assert Axes(header)[0] in Axes(header); }
  }

  /** A row that offers one column only. */
  function OneCell(w: Wide, i: nat): seq<string> {
    seq(|w.header|, (k: nat) => if k == i || IsAxisColumn(w.axis, k) then "0" else "")
  }

  function MetricOf(w: Wide, i: nat): Metric
    requires i < |w.header|
  {
    Metric(if w.axis.Some? then Some(0) else None, UnitOf(w.axis), "run", w.prefix + w.header[i], "0")
  }

  lemma OneCellAt(w: Wide, i: nat, step: Option<int>, k: nat)
    requires ReadsZero(w.reading) && Offers(w, i) && k < |w.header|
    requires step == if w.axis.Some? then Some(0) else None
    ensures WideCell(w, OneCell(w, i), step, k) == if k == i then Some(MetricOf(w, i)) else None
  {
  }

  lemma {:induction false} OneCellOffers(w: Wide, i: nat, step: Option<int>, n: nat)
    requires ReadsZero(w.reading) && Offers(w, i) && n <= |w.header|
    requires step == if w.axis.Some? then Some(0) else None
    ensures WideRow(w, OneCell(w, i), step, n) == if n <= i then [] else [MetricOf(w, i)]
  {
    if n > 0 {
      var row := OneCell(w, i);
      OneCellOffers(w, i, step, n - 1);
      assert WideCell(w, row, step, n - 1) == if n - 1 == i then Some(MetricOf(w, i)) else None by {
        OneCellAt(w, i, step, n - 1);
      }
      assert WideRow(w, row, step, n) == WideRow(w, row, step, n - 1) + OneOrNone(WideCell(w, row, step, n - 1));
    }
  }

  lemma OneCellConverts(reading: Reading, stem: string, header: seq<string>, i: nat)
    requires ReadsZero(reading) && LongShape(reading, stem, header).None?
    requires Offers(WideShape(reading, stem, header), i)
    ensures var w := WideShape(reading, stem, header);
            Candidates(reading, stem, header, [OneCell(w, i)]) == [MetricOf(w, i)]
            && Converts(reading, stem, header, [OneCell(w, i)])
  {
    var w := WideShape(reading, stem, header);
    var row := OneCell(w, i);
    AxisIsColumn(header);
    OneCellOffers(w, i, if w.axis.Some? then Some(0) else None, |header|);
    assert [row][..0] == [] && RowCandidates(w, row) == [MetricOf(w, i)];
    assert WideCandidates(w, [row]) == WideCandidates(w, []) + [MetricOf(w, i)];
  }

  lemma SharedKeyMeets(
    reading: Reading, stem: string, header: seq<string>, rows: seq<seq<string>>,
    stem2: string, header2: seq<string>, rows2: seq<seq<string>>, m: Metric, n: Metric)
    requires stem != stem2 && LongShape(reading, stem, header).None? && LongShape(reading, stem2, header2).None?
    requires m in Candidates(reading, stem, header, rows) && n in Candidates(reading, stem2, header2, rows2)
    requires KeyOf(m) == KeyOf(n)
    ensures ColumnsMeet(stem, WideShape(reading, stem, header), stem2, WideShape(reading, stem2, header2))
  {
    var w, w2 := WideShape(reading, stem, header), WideShape(reading, stem2, header2);
    WideCandidateIff(w, rows, m);
    WideCandidateIff(w2, rows2, n);
    var r, i :| 0 <= r < |rows| && 0 <= i < |w.header| && FromCell(w, rows[r], i, m);
    var r2, j :| 0 <= r2 < |rows2| && 0 <= j < |w2.header| && FromCell(w2, rows2[r2], j, n);
    NamesMeetIff(stem, header[i], stem2, header2[j]);
    assert Offers(w, i) && Offers(w2, j);
  }

  /** Under some rows, two wide files both convert and claim a key in common, exactly when two of their columns meet. */
  lemma HeadersDecide(reading: Reading, stem: string, header: seq<string>, stem2: string, header2: seq<string>)
    requires ReadsZero(reading) && stem != stem2
    requires LongShape(reading, stem, header).None? && LongShape(reading, stem2, header2).None?
    ensures (exists rows, rows2 :: ClaimOneKey(reading, stem, header, rows, stem2, header2, rows2)) <==>
            ColumnsMeet(stem, WideShape(reading, stem, header), stem2, WideShape(reading, stem2, header2))
  {
    var w, w2 := WideShape(reading, stem, header), WideShape(reading, stem2, header2);
    if rows, rows2 :| ClaimOneKey(reading, stem, header, rows, stem2, header2, rows2) {
      var k :| k in Keys(Candidates(reading, stem, header, rows)) &&
          k in Keys(Candidates(reading, stem2, header2, rows2));
      var m :| m in Candidates(reading, stem, header, rows) && KeyOf(m) == k;
      var n :| n in Candidates(reading, stem2, header2, rows2) && KeyOf(n) == k;
      SharedKeyMeets(reading, stem, header, rows, stem2, header2, rows2, m, n);
    }
    if ColumnsMeet(stem, w, stem2, w2) {
      var i: nat, j: nat :| Offers(w, i) && Offers(w2, j) && Meet(stem, w.header[i], stem2, w2.header[j]);
      MeetingColumnsClaimOneKey(reading, stem, header, i, stem2, header2, j);
    }
  }

  lemma MeetingColumnsClaimOneKey(
    reading: Reading, stem: string, header: seq<string>, i: nat, stem2: string, header2: seq<string>, j: nat)
    requires ReadsZero(reading) && stem != stem2
    requires LongShape(reading, stem, header).None? && LongShape(reading, stem2, header2).None?
    requires
      var w, w2 := WideShape(reading, stem, header), WideShape(reading, stem2, header2);
      UnitOf(w.axis) == UnitOf(w2.axis) && Offers(w, i) && Offers(w2, j) && Meet(stem, header[i], stem2, header2[j])
    ensures
      var w, w2 := WideShape(reading, stem, header), WideShape(reading, stem2, header2);
      ClaimOneKey(reading, stem, header, [OneCell(w, i)], stem2, header2, [OneCell(w2, j)])
  {
    var w, w2 := WideShape(reading, stem, header), WideShape(reading, stem2, header2);
    OneCellConverts(reading, stem, header, i);
    OneCellConverts(reading, stem2, header2, j);
    NamesMeetIff(stem, header[i], stem2, header2[j]);
    var m, n := MetricOf(w, i), MetricOf(w2, j);
    assert m in [m] && n in [n] && KeyOf(m) == KeyOf(n);
    assert KeyOf(m) in Keys([m]) && KeyOf(m) in Keys([n]);
  }

  /** `metrics.csv` and `a_summary.csv` are both read as metrics, and the prefix does not keep them apart. */
  lemma TwoFilesClaimOneMetric(reading: Reading)
    requires ReadsZero(reading)
    ensures IsMetricFile("metrics") && IsMetricFile("a_summary")
    ensures ClaimOneKey(reading, "metrics", ["a_summary.b"], [["0"]], "a_summary", ["b"], [["0"]])
  {
    OneColumn(reading, "metrics", "a_summary.b");
    OneColumn(reading, "a_summary", "b");
    assert Meet("metrics", "a_summary.b", "a_summary", "b");
    MeetingColumnsClaimOneKey(reading, "metrics", ["a_summary.b"], 0, "a_summary", ["b"], 0);
  }

  lemma PrefixedNamesMeet()
    ensures Slug(Prefix("metrics_a") + "b.c") && Slug(Prefix("metrics_a.b") + "c")
    ensures Meet("metrics_a", "b.c", "metrics_a.b", "c")
  {
    assert Prefix("metrics_a") == "metrics_a." && Prefix("metrics_a.b") == "metrics_a.b.";
    assert "metrics_a.b"[..10] == "metrics_a.";
    assert Overlap("metrics_a", "b.c", "metrics_a.b", "c");
  }

  /** Nor two files that both have a prefix, `metrics_a.csv` and `metrics_a.b.csv`. */
  lemma TwoPrefixedFilesClaimOneMetric(reading: Reading)
    requires ReadsZero(reading)
    ensures IsMetricFile("metrics_a") && IsMetricFile("metrics_a.b")
    ensures ClaimOneKey(reading, "metrics_a", ["b.c"], [["0"]], "metrics_a.b", ["c"], [["0"]])
  {
    PrefixedNamesMeet();
    OneColumn(reading, "metrics_a", "b.c");
    OneColumn(reading, "metrics_a.b", "c");
    MeetingColumnsClaimOneKey(reading, "metrics_a", ["b.c"], 0, "metrics_a.b", ["c"], 0);
  }

  /** A file of one column that is neither an axis nor a name. */
  lemma OneColumn(reading: Reading, stem: string, column: string)
    requires ReadsZero(reading) && TimeUnit(column).None? && column != "name" && column != "metric"
    requires Slug(Prefix(stem) + column)
    ensures LongShape(reading, stem, [column]).None? && WideShape(reading, stem, [column]).axis.None?
    ensures Offers(WideShape(reading, stem, [column]), 0) && OneCell(WideShape(reading, stem, [column]), 0) == ["0"]
  {
    assert [column][..0] == [] && Axes([column]) == Axes([]) + [];
    assert [column][1..] == [];
  }
}
