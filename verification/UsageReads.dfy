/**
 Reading usage over a window: the rollups of the whole unmarked hours, and the rows of everything else.
 A read first asks which hours are marked and then queries; writes and refreshes may commit in between.
 */
module UsageReads {
  import opened Common
  import opened Totals
  import opened UsageRollups
  import opened UsageMeasures

  /**
   The rows in `[start, end)` whose key, and the bucket their hour falls in, `keep` accepts. `rollups` says
   whether the rollups can answer: the conditions name only key columns, the buckets are an hour or coarser
   and no row is asked for on its own.
   */
  datatype Read = Read(start: Timestamp, end: Timestamp, keep: (Key, Hour) -> bool, rollups: bool)

  function CeilHour(t: Timestamp): Hour {
    if HourOf(t) * HOUR == t then HourOf(t) else HourOf(t) + 1
  }

  /** The marked hours wholly inside the window. */
  function MarkedWithin(marks: Marks, read: Read): set<Hour> {
    set h | h in MarkedHours(marks) && CeilHour(read.start) <= h < HourOf(read.end)
  }

  /** Whether the read takes every hour from the rows. */
  predicate RowsOnly(read: Read, marked: set<Hour>) {
    !read.rollups || CeilHour(read.start) >= HourOf(read.end) || |marked| > MAX_DIRTY_HOURS
  }

  /** An hour the read takes from the rollups. */
  predicate FromRollups(read: Read, marked: set<Hour>, h: Hour) {
    CeilHour(read.start) <= h < HourOf(read.end) && h !in marked
  }

  predicate Kept(read: Read, row: UsageRow) {
    read.start <= row.at < read.end && read.keep(row.key, HourOf(row.at))
  }

  /** The rows the read is about. */
  function Wanted(rows: Rows, read: Read): set<RowId> {
    set id | id in rows && Kept(read, rows[id])
  }

  /** The rows it takes from the rows themselves: outside the whole hours, or in a marked one. */
  function RawRows(rows: Rows, read: Read, marked: set<Hour>): set<RowId> {
    set id | id in rows && Kept(read, rows[id]) &&
      (rows[id].at < CeilHour(read.start) * HOUR || rows[id].at >= HourOf(read.end) * HOUR
       || HourOf(rows[id].at) in marked)
  }

  function RollupCells(rollups: Rollups, read: Read, marked: set<Hour>): set<Cell> {
    set c | c in rollups && FromRollups(read, marked, c.0) && read.keep(c.1, c.0)
  }

  /** What the query adds up to, run over `rows` and `rollups` with the marked hours found earlier. */
  ghost function Answer(rows: Rows, rollups: Rollups, marked: set<Hour>, read: Read): Sums {
    if RowsOnly(read, marked) then SumOver(Wanted(rows, read), RowSums(rows))
    else Add(SumOver(RollupCells(rollups, read, marked), CellSums(rollups)),
             SumOver(RawRows(rows, read, marked), RowSums(rows)))
  }

  // ---- whole hours ------------------------------------------------------------------------------

  /** A timestamp outside the whole hours of the window is one whose hour is not among them. */
  lemma WholeHours(read: Read, t: Timestamp)
    requires read.start <= t < read.end
    ensures CeilHour(read.start) <= HourOf(t) < HourOf(read.end) <==>
            t >= CeilHour(read.start) * HOUR && t < HourOf(read.end) * HOUR
  {
  }

  /** Every timestamp of a whole hour lies in the window. */
  lemma WholeHourIsInside(read: Read, t: Timestamp)
    requires CeilHour(read.start) <= HourOf(t) < HourOf(read.end)
    ensures read.start <= t < read.end
  {
  }

  /** The wanted rows of hour `h`. */
  function HourRows(rows: Rows, read: Read, h: Hour): set<RowId> {
    set id | id in rows && HourOf(rows[id].at) == h && read.keep(rows[id].key, h)
  }

  function HourCells(rollups: Rollups, read: Read, h: Hour): set<Cell> {
    set c | c in rollups && c.0 == h && read.keep(c.1, h)
  }

  ghost function CellOfRow(rows: Rows): RowId -> Cell {
    id =>
      if id in rows then CellOf(rows[id])
      else CellOf(UsageRow(0, Key(0, "", None, None, "", false), None, None, None))
  }

  lemma RowInItsCell(rows: Rows, rollups: Rollups, read: Read, h: Hour, id: RowId)
    requires Current(rows, rollups, h) && id in HourRows(rows, read, h)
    ensures CellOfRow(rows)(id) in HourCells(rollups, read, h)
  {
    hide SumOver, HourOf, Current;
    CellOfCurrentHour(rows, rollups, h, CellOf(rows[id]));
    assert id in Members(rows, CellOf(rows[id]));
  }

  /** The rows of an hour that fall in one of its kept cells are all the rows of that cell. */
  lemma CellIsWhole(rows: Rows, rollups: Rollups, read: Read, h: Hour, c: Cell)
    requires Current(rows, rollups, h) && c in HourCells(rollups, read, h)
    ensures Fibre(HourRows(rows, read, h), CellOfRow(rows), c) == Members(rows, c)
    ensures rollups[c] == SumOver(Members(rows, c), RowSums(rows))
  {
    hide SumOver, HourOf, Current;
    CellOfCurrentHour(rows, rollups, h, c);
  }

  /** Where an hour's rollups are current, they add up to its rows, whatever keys are kept. */
  lemma HourFromRollups(rows: Rows, rollups: Rollups, read: Read, h: Hour)
    requires Current(rows, rollups, h)
    ensures SumOver(HourCells(rollups, read, h), CellSums(rollups)) == SumOver(HourRows(rows, read, h), RowSums(rows))
  {
    var ids, cells := HourRows(rows, read, h), HourCells(rollups, read, h);
    var group := CellOfRow(rows);
    assert cells <= rollups.Keys;
    hide SumOver, HourOf, Current, HourRows, HourCells, CellOfRow, Fibre, Members, RowSums;
    forall id | id in ids ensures group(id) in cells {
      RowInItsCell(rows, rollups, read, h, id);
    }
    SumByGroups(ids, group, cells, RowSums(rows));
    forall c | c in cells ensures FibreSum(ids, group, RowSums(rows))(c) == CellSums(rollups)(c) {
      CellIsWhole(rows, rollups, read, h, c);
    }
    SumAgrees(cells, FibreSum(ids, group, RowSums(rows)), CellSums(rollups));
  }

  lemma CellOfCurrentHour(rows: Rows, rollups: Rollups, h: Hour, c: Cell)
    requires Current(rows, rollups, h) && c.0 == h
    ensures c in rollups <==> Members(rows, c) != {}
    ensures c in rollups ==> rollups[c] == SumOver(Members(rows, c), RowSums(rows))
  {
  }

  // ---- a read at one moment ---------------------------------------------------------------------

  /** The hours the read takes from the rollups. */
  function RollupHours(read: Read, marked: set<Hour>): set<Hour> {
    set h | CeilHour(read.start) <= h < HourOf(read.end) && h !in marked
  }

  ghost function CellHour(): Cell -> Hour {
    (c: Cell) => c.0
  }

  ghost function HourSums(rollups: Rollups, read: Read): Hour -> Sums {
    (h: Hour) => SumOver(HourCells(rollups, read, h), CellSums(rollups))
  }

  /** The cells a read takes add up hour by hour. */
  lemma CellsByHour(rollups: Rollups, read: Read, marked: set<Hour>)
    ensures SumOver(RollupCells(rollups, read, marked), CellSums(rollups))
            == SumOver(RollupHours(read, marked), HourSums(rollups, read))
  {
    hide SumOver, HourOf, CeilHour;
    var cells, hours := RollupCells(rollups, read, marked), RollupHours(read, marked);
    SumByGroups(cells, CellHour(), hours, CellSums(rollups));
    forall h | h in hours ensures FibreSum(cells, CellHour(), CellSums(rollups))(h) == HourSums(rollups, read)(h) {
      assert Fibre(cells, CellHour(), h) == HourCells(rollups, read, h);
    }
    SumAgrees(hours, FibreSum(cells, CellHour(), CellSums(rollups)), HourSums(rollups, read));
  }

  ghost function RowHour(rows: Rows): RowId -> Hour {
    id => if id in rows then HourOf(rows[id].at) else 0
  }

  ghost function HourRowSums(rows: Rows, read: Read): Hour -> Sums {
    (h: Hour) => SumOver(HourRows(rows, read, h), RowSums(rows))
  }

  /** The wanted rows are the raw rows and, hour by hour, the rows of the hours taken from the rollups. */
  lemma WantedSplits(rows: Rows, read: Read, marked: set<Hour>)
    ensures SumOver(Wanted(rows, read), RowSums(rows))
            == Add(SumOver(RollupHours(read, marked), HourRowSums(rows, read)),
                   SumOver(RawRows(rows, read, marked), RowSums(rows)))
  {
    hide SumOver, HourOf, CeilHour;
    var hours, raw := RollupHours(read, marked), RawRows(rows, read, marked);
    var whole := Wanted(rows, read) - raw;
    SumUnion(whole, raw, RowSums(rows));
    assert whole + raw == Wanted(rows, read);
    forall id | id in rows
      ensures id in whole <==> HourOf(rows[id].at) in hours && read.keep(rows[id].key, HourOf(rows[id].at))
    {
      if read.start <= rows[id].at < read.end {
        WholeHours(read, rows[id].at);
      } else if HourOf(rows[id].at) in hours {
        WholeHourIsInside(read, rows[id].at);
      }
    }
    SumByGroups(whole, RowHour(rows), hours, RowSums(rows));
    forall h | h in hours ensures FibreSum(whole, RowHour(rows), RowSums(rows))(h) == HourRowSums(rows, read)(h) {
      assert Fibre(whole, RowHour(rows), h) == HourRows(rows, read, h);
    }
    SumAgrees(hours, FibreSum(whole, RowHour(rows), RowSums(rows)), HourRowSums(rows, read));
  }

  /** The window holds the whole of some hour. */
  ghost predicate HoldsAnHour(read: Read) {
    exists h: nat :: read.start <= h * 3_600_000_000 && (h + 1) * 3_600_000_000 <= read.end
  }

  /**
   The rollups are not read where they cannot answer, where more than 48 hours of the window are marked, or where
   no hour is whole.
   */
  lemma RowsAnswerAlone(rows: Rows, a: Rollups, b: Rollups, marked: set<Hour>, read: Read)
    requires !read.rollups || |marked| > 48 || !HoldsAnHour(read)
    ensures Answer(rows, a, marked, read) == Answer(rows, b, marked, read)
  {
    if CeilHour(read.start) < HourOf(read.end) {
      assert read.start <= CeilHour(read.start) * 3_600_000_000;
      assert (CeilHour(read.start) + 1) * 3_600_000_000 <= read.end;
    }
  }

  /** The rows of the window whose key, and the bucket the hour they were made in falls in, the read accepts. */
  function Asked(rows: Rows, read: Read): set<RowId> {
    set id | id in rows && read.start <= rows[id].at && rows[id].at < read.end
      && read.keep(rows[id].key, rows[id].at / 3_600_000_000)
  }

  /** A read of one state measures every row asked for once, whichever hours it took from the rollups. */
  lemma ReadIsExact(s: Tables, read: Read)
    requires Inv(s)
    ensures Answer(s.rows, s.rollups, MarkedWithin(s.marks, read), read)
      == SumOver(Wanted(s.rows, read), RowSums(s.rows))
    ensures Measures(s.rows, Asked(s.rows, read), Answer(s.rows, s.rollups, MarkedWithin(s.marks, read), read))
  {
    AnswerIsTheSum(s, read);
    WantedIsAsked(s.rows, read);
    hide Measures, Answer, SumOver;
    SumMeasures(s.rows, Wanted(s.rows, read));
  }

  lemma WantedIsAsked(rows: Rows, read: Read)
    ensures Wanted(rows, read) == Asked(rows, read)
  {
  }

  lemma AnswerIsTheSum(s: Tables, read: Read)
    requires Inv(s)
    ensures Answer(s.rows, s.rollups, MarkedWithin(s.marks, read), read)
      == SumOver(Wanted(s.rows, read), RowSums(s.rows))
  {
    hide SumOver, HourOf, CeilHour, Current;
    var marked := MarkedWithin(s.marks, read);
    if !RowsOnly(read, marked) {
      CellsByHour(s.rollups, read, marked);
      WantedSplits(s.rows, read, marked);
      var hours := RollupHours(read, marked);
      forall h | h in hours ensures HourSums(s.rollups, read)(h) == HourRowSums(s.rows, read)(h) {
        HourFromRollups(s.rows, s.rollups, read, h);
      }
      SumAgrees(hours, HourSums(s.rollups, read), HourRowSums(s.rows, read));
    }
  }

  // ---- a read between whose two queries others commit -------------------------------------------

  /** Between `i` and `j` the rollups of the hour are dropped, and no refresh commits the hour after that. */
  ghost predicate Dropped(states: seq<Tables>, steps: seq<Step>, i: nat, j: nat, h: Hour)
    requires IsRun(states, steps) && j < |states|
  {
    j > i && (
      steps[j - 1].StartOver?
      || (!Commits(states[j - 1], steps[j - 1], h) && Dropped(states, steps, i, j - 1, h)))
  }

  ghost predicate Commits(s: Tables, step: Step, h: Hour) {
    step.Commit? && s.refresh.Built? && h in s.refresh.hours
  }

  ghost predicate HasNoCells(rollups: Rollups, h: Hour) {
    forall c :: c in rollups ==> c.0 != h
  }

  /** What one more step makes of an hour's rollups: nothing, or what the refresh had built. */
  lemma RollupsAfterStep(s: Tables, step: Step, s': Tables, h: Hour)
    requires Next(s, step, s') && BuiltCellsCurrent(s)
    ensures step.StartOver? ==> HasNoCells(s'.rollups, h)
    ensures !step.StartOver? ==> forall rows :: Current(rows, s'.rollups, h) <==>
      Current(rows, if step.Commit? && h in s.refresh.hours then s.refresh.cells else s.rollups, h)
    ensures !Commits(s, step, h) && HasNoCells(s.rollups, h) ==> HasNoCells(s'.rollups, h)
    ensures s'.refresh.Built? ==> if step.Build? then BuiltCellsCurrent(s') && s'.rows == s.rows
                                  else s'.refresh == s.refresh
  {
    hide Summed, Current, Rebuilt;
    if step.Commit? {
      forall rows ensures Current(rows, s'.rollups, h) <==>
        Current(rows, if h in s.refresh.hours then s.refresh.cells else s.rollups, h)
      {
        CommittedCells(rows, s.rollups, s.refresh.hours, s.refresh.cells, h);
      }
    } else if step.Build? {
      RebuiltIsCurrent(s.rows, s.refresh.hours);
    }
  }

  /**
   An hour unmarked when the read looked has, when the read queries, the sums its rows had at some moment
   in between, unless its rollups were dropped: then it has none. And the sums a refresh is about to commit for it
   are those of its rows at some such moment too.
   */
  lemma {:induction false} HourAsOf(states: seq<Tables>, steps: seq<Step>, i: nat, j: nat, h: Hour)
    returns (moment: nat, pending: nat)
    requires IsRun(states, steps) && Installed(states[0])
    requires i <= j < |states|
    requires h !in MarkedHours(states[i].marks)
    ensures Dropped(states, steps, i, j, h) ==> HasNoCells(states[j].rollups, h)
    ensures !Dropped(states, steps, i, j, h) ==>
              i <= moment <= j && Current(states[moment].rows, states[j].rollups, h)
    ensures i <= pending <= j
    ensures states[j].refresh.Built? && h in states[j].refresh.hours ==>
              Current(states[pending].rows, states[j].refresh.cells, h)
    decreases j
  {
    hide Next, Current, Installed, HasNoCells;
    RunKeepsInv(states, steps, j);
    if i == j {
      moment, pending := i, i;
    } else {
      moment, pending := HourAsOf(states, steps, i, j - 1, h);
      var s, step, s' := states[j - 1], steps[j - 1], states[j];
      assert Next(states[j - 1], steps[j - 1], states[j - 1 + 1]);
      RunKeepsInv(states, steps, j - 1);
      CommitFollowsBuild(s, step, s');
      RollupsAfterStep(s, step, s', h);
      if Commits(s, step, h) {
        moment := pending;
      }
      if step.Build? && s'.refresh.Built? && h in s'.refresh.hours {
        BuildReadsTheRows(s, s', h);
        pending := j;
      }
    }
  }

  lemma CommitFollowsBuild(s: Tables, step: Step, s': Tables)
    requires Next(s, step, s')
    ensures step.Commit? ==> s.refresh.Built?
    ensures step.Build? ==> s'.refresh.Built?
  {
  }

  lemma BuildReadsTheRows(s: Tables, s': Tables, h: Hour)
    requires Next(s, Build, s') && h in s'.refresh.hours
    ensures Current(s'.rows, s'.refresh.cells, h)
  {
    hide Current, Rebuilt;
    RebuiltIsCurrent(s.rows, s.refresh.hours);
  }

  /** The rows of each hour as they were at its moment, added up. */
  ghost function SumsAsOf(states: seq<Tables>, moments: map<Hour, nat>, read: Read): Hour -> Sums {
    (h: Hour) =>
      if h in moments && moments[h] < |states| then HourRowSums(states[moments[h]].rows, read)(h)
      else NOTHING
  }

  ghost predicate IsMoment(states: seq<Tables>, i: nat, j: nat, h: Hour, moment: nat) {
    && i <= moment <= j < |states|
    && Current(states[moment].rows, states[j].rollups, h)
  }

  /** Its rollups were dropped, and at every moment it had rows. */
  ghost predicate IsLost(states: seq<Tables>, steps: seq<Step>, i: nat, j: nat, h: Hour)
    requires IsRun(states, steps) && j < |states|
  {
    Dropped(states, steps, i, j, h) && forall moment :: i <= moment <= j ==> h in HoursOf(states[moment].rows)
  }

  lemma NoCellsNoRows(rows: Rows, rollups: Rollups, h: Hour)
    requires HasNoCells(rollups, h)
    ensures Current(rows, rollups, h) <==> h !in HoursOf(rows)
  {
    hide SumOver;
    if id :| id in rows && HourOf(rows[id].at) == h {
      assert id in Members(rows, (h, rows[id].key));
      assert CellAt(rollups, (h, rows[id].key)) == None;
    } else {
      assert forall k: Key :: Members(rows, (h, k)) == {};
    }
  }

  /** An unmarked hour's rollups are its sums as of a moment in between exactly when it was not lost. */
  lemma HourIsLost(states: seq<Tables>, steps: seq<Step>, i: nat, j: nat, h: Hour)
    requires IsRun(states, steps) && Installed(states[0]) && i <= j < |states|
    requires h !in MarkedHours(states[i].marks)
    ensures (exists moment :: IsMoment(states, i, j, h, moment)) <==> !IsLost(states, steps, i, j, h)
    ensures IsLost(states, steps, i, j, h) ==> HasNoCells(states[j].rollups, h)
  {
    var moment, _ := HourAsOf(states, steps, i, j, h);
    hide IsRun, Installed, Current, HasNoCells, Dropped, HoursOf;
    if Dropped(states, steps, i, j, h) {
      forall m | i <= m <= j ensures IsMoment(states, i, j, h, m) <==> h !in HoursOf(states[m].rows) {
        NoCellsNoRows(states[m].rows, states[j].rollups, h);
      }
    } else {
      assert IsMoment(states, i, j, h, moment);
    }
  }

  /** One row, its hour refreshed, and the rollups dropped between the two queries of a read. */
  lemma DroppedHourIsLost() returns (states: seq<Tables>, steps: seq<Step>)
    ensures IsRun(states, steps) && Installed(states[0]) && |states| == 5
    ensures 0 !in MarkedHours(states[3].marks) && IsLost(states, steps, 3, 4, 0)
  {
    var row := UsageRow(0, Key(0, "", None, None, "", false), None, None, None);
    var rows: Rows := map[0 := row];
    var marks: Marks := map[0 := 0];
    var hours: set<Hour> := {0};
    var cells := Rebuilt(rows, hours);
    RebuiltIsCurrent(rows, hours);
    var first := Tables(rows, map[], marks, Idle);
    var taken := first.(refresh := Taken({0}, hours));
    var built := first.(refresh := Built({0}, hours, cells));
    var refreshed := Tables(rows, cells, map[], Idle);
    hide Rebuilt, Current, Summed;
    states := [first, taken, built, refreshed, first];
    steps := [Take(1, HOUR), Build, Commit, StartOver(hours)];
    assert IsSpanOf(rows, 0, 0, hours);
    assert WithoutHours(map[], hours) + cells == cells;
    assert Next(first, steps[0], taken);
    assert Next(taken, steps[1], built);
    assert Next(built, steps[2], refreshed);
    assert Next(refreshed, steps[3], first);
  }

  ghost function MomentOf(states: seq<Tables>, i: nat, j: nat, h: Hour): (moment: nat)
    requires exists moment :: IsMoment(states, i, j, h, moment)
    ensures IsMoment(states, i, j, h, moment)
  {
    var moment :| IsMoment(states, i, j, h, moment);
    moment
  }

  ghost function LostHours(states: seq<Tables>, steps: seq<Step>, i: nat, j: nat, hours: set<Hour>): set<Hour>
    requires IsRun(states, steps) && j < |states|
  {
    set h | h in hours && IsLost(states, steps, i, j, h)
  }

  /** One moment for each of the given hours that is not lost; the others have nothing. */
  lemma HoursAsOf(states: seq<Tables>, steps: seq<Step>, i: nat, j: nat, hours: set<Hour>, read: Read)
    returns (moments: map<Hour, nat>)
    requires IsRun(states, steps) && Installed(states[0])
    requires i <= j < |states|
    requires hours !! MarkedHours(states[i].marks)
    ensures moments.Keys == hours - LostHours(states, steps, i, j, hours)
    ensures forall h :: h in moments ==> i <= moments[h] <= j
    ensures forall h :: h in hours ==> SumsAsOf(states, moments, read)(h) == HourSums(states[j].rollups, read)(h)
  {
    hide SumOver, Current, IsRun, Installed, IsLost, HasNoCells;
    forall h | h in hours
      ensures (exists moment :: IsMoment(states, i, j, h, moment)) <==> !IsLost(states, steps, i, j, h)
      ensures IsLost(states, steps, i, j, h) ==> HasNoCells(states[j].rollups, h)
    {
      HourIsLost(states, steps, i, j, h);
    }
    var found := hours - LostHours(states, steps, i, j, hours);
    moments := map h | h in found :: MomentOf(states, i, j, h);
    forall h | h in hours ensures SumsAsOf(states, moments, read)(h) == HourSums(states[j].rollups, read)(h) {
      if h in found {
        assert IsMoment(states, i, j, h, moments[h]);
        SumsAtMoment(states, moments, j, h, read);
      } else {
        NoCellsNoSums(states[j].rollups, read, h);
      }
    }
  }

  lemma NoCellsNoSums(rollups: Rollups, read: Read, h: Hour)
    requires HasNoCells(rollups, h)
    ensures HourSums(rollups, read)(h) == NOTHING
  {
    assert HourCells(rollups, read, h) == {};
  }

  lemma SumsAtMoment(states: seq<Tables>, moments: map<Hour, nat>, j: nat, h: Hour, read: Read)
    requires h in moments && moments[h] < |states| && j < |states|
    requires Current(states[moments[h]].rows, states[j].rollups, h)
    ensures SumsAsOf(states, moments, read)(h) == HourSums(states[j].rollups, read)(h)
  {
    var rows, rollups := states[moments[h]].rows, states[j].rollups;
    HourFromRollups(rows, rollups, read, h);
    assert HourSums(rollups, read)(h) == SumOver(HourCells(rollups, read, h), CellSums(rollups));
    assert HourRowSums(rows, read)(h) == SumOver(HourRows(rows, read, h), RowSums(rows));
  }

  /**
   A read that looks for marks at `i` and queries at `j`, whatever commits in between, adds up the rows it
   takes from the rows as they are at `j`, and each hour it takes from the rollups as its rows were at some
   moment from `i` to `j`: no row of an hour is counted twice, and none is left out but those of the lost hours.
   */
  lemma ReadAcrossCommits(states: seq<Tables>, steps: seq<Step>, i: nat, j: nat, read: Read)
    returns (moments: map<Hour, nat>)
    requires IsRun(states, steps) && Installed(states[0])
    requires i <= j < |states|
    ensures var marked := MarkedWithin(states[i].marks, read);
      && moments.Keys == RollupHours(read, marked) - LostHours(states, steps, i, j, RollupHours(read, marked))
      && (forall h :: h in moments ==> i <= moments[h] <= j)
      && Answer(states[j].rows, states[j].rollups, marked, read) ==
         if RowsOnly(read, marked) then SumOver(Wanted(states[j].rows, read), RowSums(states[j].rows))
         else Add(SumOver(RollupHours(read, marked), SumsAsOf(states, moments, read)),
                  SumOver(RawRows(states[j].rows, read, marked), RowSums(states[j].rows)))
  {
    hide SumOver, IsRun, Installed, LostHours, CeilHour, HourOf;
    var marked := MarkedWithin(states[i].marks, read);
    var hours := RollupHours(read, marked);
    assert hours !! MarkedHours(states[i].marks);
    moments := HoursAsOf(states, steps, i, j, hours, read);
    CellsByHour(states[j].rollups, read, marked);
    SumAgrees(hours, SumsAsOf(states, moments, read), HourSums(states[j].rollups, read));
  }
}
