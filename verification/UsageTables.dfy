/**
 The tables themselves: the triggers that mark the hours of every row a statement touched, the marking of
 the whole history, and the refresh. Each method is one of the steps the protocol is made of, or, for the
 refresh, the three it takes in one transaction.
 */
module UsageTables {
  import opened Common
  import opened Totals
  import opened UsageRollups
  import opened UsageMeasures

  class UsageLogs {
    var rows: Rows
    var rollups: Rollups
    var marks: Marks
    var nextMark: MarkId

    /** The mark ids are handed out in order. */
    ghost predicate Valid()
      reads this
    {
      forall m :: m in marks ==> m < nextMark
    }

    /** The committed tables, beside whatever a refresh is doing. */
    ghost function State(refresh: Refresh): Tables
      reads this
    {
      Tables(rows, rollups, marks, refresh)
    }

    method MarkHour(h: Hour)
      requires Valid()
      modifies this`marks, this`nextMark
      ensures Valid()
      ensures marks == old(marks)[old(nextMark) := h] && nextMark == old(nextMark) + 1
    {
      marks, nextMark := marks[nextMark := h], nextMark + 1;
    }

    /** INSERT INTO usage_rollup_dirty_hours SELECT DISTINCT. */
    method MarkHours(hours: set<Hour>)
      requires Valid()
      modifies this`marks, this`nextMark
      ensures Valid() && MarksAdded(old(marks), marks, hours)
    {
      var rest := hours;
      assert hours - rest == {};
      while rest != {}
        invariant Valid() && rest <= hours
        invariant MarksAdded(old(marks), marks, hours - rest)
        decreases |rest|
      {
        var h :| h in rest;
        OneMoreMark(old(marks), marks, hours - rest, h, nextMark);
        MarkHour(h);
        rest := rest - {h};
        assert hours - rest == (hours - (rest + {h})) + {h};
      }
      assert hours - rest == hours;
    }

    // ---- the statements and their triggers ------------------------------------------------------

    method InsertRows(added: Rows)
      requires Valid() && added.Keys !! rows.Keys
      modifies this
      ensures Valid()
      ensures forall r :: Next(old(State(r)), Insert(added), State(r))
    {
      rows := rows + added;
      MarkHours(HoursOf(added));
    }

    method UpdateRows(changed: Rows)
      requires Valid() && changed.Keys <= rows.Keys
      modifies this
      ensures Valid()
      ensures forall r :: Next(old(State(r)), Update(changed), State(r))
    {
      var replaced := Only(rows, changed.Keys);
      rows := rows + changed;
      MarkHours(HoursOf(changed) + HoursOf(replaced));
    }

    method DeleteRows(gone: set<RowId>)
      requires Valid() && gone <= rows.Keys
      modifies this
      ensures Valid()
      ensures forall r :: Next(old(State(r)), Delete(gone), State(r))
    {
      var removed := Only(rows, gone);
      rows := rows - gone;
      MarkHours(HoursOf(removed));
    }

    // ---- marking the history --------------------------------------------------------------------

    /** The earliest and the latest row. */
    method Bounds() returns (first: RowId, last: RowId)
      requires rows != map[]
      ensures first in rows && last in rows
      ensures forall id :: id in rows ==> rows[first].at <= rows[id].at <= rows[last].at
    {
      first :| first in rows;
      last := first;
      var rest := rows.Keys - {first};
      while rest != {}
        invariant rest <= rows.Keys && first in rows && last in rows
        invariant forall id :: id in rows && id !in rest ==> rows[first].at <= rows[id].at <= rows[last].at
        decreases |rest|
      {
        var id :| id in rest;
        if rows[id].at < rows[first].at { first := id; }
        if rows[id].at > rows[last].at { last := id; }
        rest := rest - {id};
      }
    }

    /** A mark for each hour the history spans, one at a time. */
    method MarkHistory() returns (ghost hours: set<Hour>)
      requires Valid()
      modifies this`marks, this`nextMark
      ensures Valid() && IsSpan(rows, hours) && MarksAdded(old(marks), marks, hours)
    {
      if rows == map[] {
        hours := {};
        return;
      }
      var first, last := Bounds();
      var from, upTo := HourOf(rows[first].at), HourOf(rows[last].at);
      hours := HoursFrom(from, upTo + 1);
      HourIsMonotone(rows[first].at, rows[last].at);
      assert IsSpanOf(rows, first, last, hours);
      MarkSeries(from, upTo);
    }

    /** INSERT INTO usage_rollup_dirty_hours SELECT generate_series. */
    method MarkSeries(from: Hour, upTo: Hour)
      requires Valid() && from <= upTo
      modifies this`marks, this`nextMark
      ensures Valid() && MarksAdded(old(marks), marks, HoursFrom(from, upTo + 1))
    {
      var h := from;
      while h <= upTo
        invariant Valid() && from <= h <= upTo + 1
        invariant MarksAdded(old(marks), marks, HoursFrom(from, h))
        decreases upTo + 1 - h
      {
        OneMoreMark(old(marks), marks, HoursFrom(from, h), h, nextMark);
        MarkHour(h);
        h := h + 1;
      }
    }

    /** The revision that adds the tables: nothing summed yet, and every hour of the history marked. */
    method Install()
      modifies this
      ensures Valid() && Installed(State(Idle)) && rows == old(rows)
    {
      rollups, marks, nextMark := map[], map[], 0;
      ghost var hours := MarkHistory();
    }

    /** The revision that adds the latencies: drop every rollup and mark every hour of the history. */
    method StartOverRollups() returns (ghost hours: set<Hour>)
      requires Valid()
      modifies this
      ensures Valid() && forall r :: Next(old(State(r)), StartOver(hours), State(r))
    {
      rollups := map[];
      hours := MarkHistory();
    }

    // ---- the refresh ----------------------------------------------------------------------------

    /** The hours a refresh takes: marked, over by `now`, the latest first. */
    method LatestMarkedHours(maxHours: nat, now: Timestamp) returns (hours: set<Hour>)
      ensures LatestMarked(marks, maxHours, now, hours)
    {
      var left := set h: Hour | h in MarkedHours(marks) && h < HourOf(now);
      ghost var over := left;
      hours := {};
      while |hours| < maxHours && left != {}
        invariant left <= over && hours <= over && |hours| <= maxHours
        invariant forall h: Hour :: h in over ==> h in left || h in hours
        invariant forall h: Hour, taken: Hour :: h in left && taken in hours ==> h < taken
        decreases |left|
      {
        var h := Latest(left);
        hours, left := hours + {h}, left - {h};
      }
    }

    static method Latest(hours: set<Hour>) returns (latest: Hour)
      requires hours != {}
      ensures latest in hours && forall h: Hour :: h in hours ==> h <= latest
    {
      latest :| latest in hours;
      var rest := hours - {latest};
      while rest != {}
        invariant rest <= hours && latest in hours
        invariant forall h: Hour :: h in hours && h !in rest ==> h <= latest
        decreases |rest|
      {
        var h :| h in rest;
        if h > latest { latest := h; }
        rest := rest - {h};
      }
    }

    /** GROUP BY hour and key, one row after another, over the rows of the given hours. */
    method SumRows(hours: set<Hour>) returns (cells: Rollups)
      ensures cells == Rebuilt(rows, hours)
      ensures MeasuresHours(rows, hours, cells) && forall c :: c in cells ==> c.0 in hours
    {
      hide SumOver, HourOf;
      cells := map[];
      var wanted := set id | id in rows && HourOf(rows[id].at) in hours;
      var rest := wanted;
      assert SummedSoFar(rows, {}, cells);
      assert wanted - rest == {};
      while rest != {}
        invariant rest <= wanted
        invariant SummedSoFar(rows, wanted - rest, cells)
        decreases |rest|
      {
        hide SummedSoFar;
        var id :| id in rest;
        var c := CellOf(rows[id]);
        OneMoreRow(rows, wanted - rest, wanted - (rest - {id}), id, cells);
        cells := cells[c := Add(RowValue(rows[id]), if c in cells then cells[c] else NOTHING)];
        rest := rest - {id};
      }
      assert wanted - rest == wanted;
      CellsOfAll(rows, hours, wanted, cells);
      RebuiltMeasures(rows, hours);
    }

    /** Rebuild up to `maxHours` marked hours that are over, in one transaction. */
    method RefreshHours(maxHours: nat, now: Timestamp) returns (count: nat, ghost hours: set<Hour>)
      requires Valid()
      modifies this
      ensures Valid() && rows == old(rows) && count == |hours|
      ensures var taken := MarksOf(old(marks), hours);
        && Next(old(State(Idle)), Take(maxHours, now), old(State(Taken(taken, hours))))
        && Next(old(State(Taken(taken, hours))), Build, old(State(Built(taken, hours, Rebuilt(rows, hours)))))
        && Next(old(State(Built(taken, hours, Rebuilt(rows, hours)))), Commit, State(Idle))
      ensures MeasuresHours(rows, hours, rollups)
      ensures forall c: Cell :: c.0 !in hours ==> CellAt(rollups, c) == CellAt(old(rollups), c)
    {
      var chosen := LatestMarkedHours(maxHours, now);
      hours, count := chosen, |chosen|;
      var taken := MarksOf(marks, chosen);
      var cells := SumRows(chosen);
      hide MeasuresHours;
      MeasuredInPlace(rows, chosen, rollups, cells);
      marks, rollups := marks - taken, WithoutHours(rollups, chosen) + cells;
    }
  }

  /** The hours from `from` up to, not including, `end`. */
  function HoursFrom(from: Hour, end: Hour): (hours: set<Hour>)
    ensures forall h: Hour :: h in hours <==> from <= h < end
    decreases end
  {
    if end <= from then {} else HoursFrom(from, end - 1) + {end - 1}
  }

  lemma OneMoreMark(original: Marks, marks: Marks, hours: set<Hour>, h: Hour, m: MarkId)
    requires MarksAdded(original, marks, hours) && m !in marks
    ensures MarksAdded(original, marks[m := h], hours + {h})
  {
  }

  lemma RebuiltMeasures(rows: Rows, hours: set<Hour>)
    ensures MeasuresHours(rows, hours, Rebuilt(rows, hours)) && forall c :: c in Rebuilt(rows, hours) ==> c.0 in hours
  {
    hide MeasuresHours, Rebuilt, Current;
    RebuiltIsCurrent(rows, hours);
    CurrentMeasures(rows, hours, Rebuilt(rows, hours));
  }

  lemma MeasuredInPlace(rows: Rows, hours: set<Hour>, rollups: Rollups, cells: Rollups)
    requires MeasuresHours(rows, hours, cells) && forall c :: c in cells ==> c.0 in hours
    ensures MeasuresHours(rows, hours, WithoutHours(rollups, hours) + cells)
    ensures forall c: Cell :: c.0 !in hours ==> CellAt(WithoutHours(rollups, hours) + cells, c) == CellAt(rollups, c)
  {
    hide Measures, RowsOfHour;
  }

  /** `cells` holds the sums of the rows in `done`. */
  ghost predicate SummedSoFar(rows: Rows, done: set<RowId>, cells: Rollups) {
    && (forall c :: c in cells <==> Members(rows, c) * done != {})
    && (forall c :: c in cells ==> cells[c] == SumOver(Members(rows, c) * done, RowSums(rows)))
  }

  /** Adding one row changes its own cell's sums and no other's. */
  lemma OneMoreRow(rows: Rows, done: set<RowId>, more: set<RowId>, id: RowId, cells: Rollups)
    requires id in rows && id !in done && more == done + {id}
    requires SummedSoFar(rows, done, cells)
    ensures var c := CellOf(rows[id]);
      SummedSoFar(rows, more, cells[c := Add(RowValue(rows[id]), if c in cells then cells[c] else NOTHING)])
  {
    hide SumOver, HourOf;
    var own := CellOf(rows[id]);
    var after := cells[own := Add(RowValue(rows[id]), if own in cells then cells[own] else NOTHING)];
    forall c
      ensures c in after <==> Members(rows, c) * more != {}
      ensures c in after ==> after[c] == SumOver(Members(rows, c) * more, RowSums(rows))
    {
      if c == own {
        assert id in Members(rows, c) * more;
        SumFrom(Members(rows, c) * more, RowSums(rows), id);
        assert Members(rows, c) * more - {id} == Members(rows, c) * done;
        SumOfNone(RowSums(rows));
      } else {
        assert Members(rows, c) * more == Members(rows, c) * done;
      }
    }
  }

  lemma CellsOfAll(rows: Rows, hours: set<Hour>, wanted: set<RowId>, cells: Rollups)
    requires wanted == set id | id in rows && HourOf(rows[id].at) in hours
    requires SummedSoFar(rows, wanted, cells)
    ensures cells == Rebuilt(rows, hours)
  {
    hide SumOver, HourOf;
    var rebuilt := Rebuilt(rows, hours);
    forall c ensures c in cells <==> c in rebuilt
             ensures c in cells ==> cells[c] == rebuilt[c]
    {
      if c in cells {
        var id :| id in Members(rows, c) * wanted;
        assert CellOf(rows[id]) == c;
        assert Members(rows, c) * wanted == Members(rows, c);
      } else {
        forall id | id in wanted ensures CellOf(rows[id]) != c {
          assert CellOf(rows[id]) == c ==> id in Members(rows, c) * wanted;
        }
      }
    }
  }
}
