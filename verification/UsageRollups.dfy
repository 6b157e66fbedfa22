/**
 The hourly usage rollups: the marks the triggers leave, the refresh that rebuilds marked hours, and the
 read that trusts the rollups of an hour without a mark. Writers, one refresh at a time and readers
 interleave; a transaction's effects appear together when it commits.
 */
module UsageRollups {
  import opened Common
  import opened Totals

  type RowId = nat
  type MarkId = nat
  /** Microseconds since the earliest moment the database can hold, which is on the hour in UTC. */
  type Timestamp = nat
  /** Hours since then. */
  type Hour = nat

  /** Microseconds in an hour. */
  const HOUR: int := 3_600_000_000
  /** The most marked hours a window may hold for a read to use rollups in it at all. */
  const MAX_DIRTY_HOURS: nat := 48

  /** The columns rollups are grouped by. */
  datatype Key = Key(
    workspace: nat,
    model: string,
    provider: Option<string>,
    user: Option<string>,
    status: string,
    needsPricing: bool)

  datatype UsageRow = UsageRow(at: Timestamp, key: Key, cost: Option<int>, tokens: Option<int>, latency: Option<int>)

  type Cell = (Hour, Key)
  type Rows = map<RowId, UsageRow>
  type Rollups = map<Cell, Sums>
  type Marks = map<MarkId, Hour>

  /** The hour a timestamp falls in. */
  function HourOf(t: Timestamp): Hour {
    t / HOUR
  }

  function CellOf(row: UsageRow): Cell {
    (HourOf(row.at), row.key)
  }

  /** What one row contributes to each measure. */
  function RowValue(row: UsageRow): Sums {
    Sums(1, row.cost, row.tokens, if row.latency.None? then multiset{} else multiset{row.latency.value},
         Some(row.at), Some(row.at))
  }

  ghost function RowSums(rows: Rows): RowId -> Sums {
    id => if id in rows then RowValue(rows[id]) else NOTHING
  }

  ghost function CellSums(rollups: Rollups): Cell -> Sums {
    c => if c in rollups then rollups[c] else NOTHING
  }

  function Members(rows: Rows, c: Cell): set<RowId> {
    set id | id in rows && CellOf(rows[id]) == c
  }

  /** What a rollup of the rows in `c` holds: nothing, where there are none. */
  ghost function Summed(rows: Rows, c: Cell): Option<Sums> {
    if Members(rows, c) == {} then None else Some(SumOver(Members(rows, c), RowSums(rows)))
  }

  function CellAt(rollups: Rollups, c: Cell): Option<Sums> {
    if c in rollups then Some(rollups[c]) else None
  }

  /** The rollups of hour `h` are the sums of its rows. */
  ghost predicate Current(rows: Rows, rollups: Rollups, h: Hour) {
    forall k: Key :: CellAt(rollups, (h, k)) == Summed(rows, (h, k))
  }

  function HoursOf(rows: Rows): set<Hour> {
    set id | id in rows :: HourOf(rows[id].at)
  }

  function Only(rows: Rows, ids: set<RowId>): Rows {
    map id | id in rows && id in ids :: rows[id]
  }

  function MarkedHours(marks: Marks): set<Hour> {
    set m | m in marks :: marks[m]
  }

  function MarksOf(marks: Marks, hours: set<Hour>): set<MarkId> {
    set m | m in marks && marks[m] in hours
  }

  // ---- the tables and the steps they take -------------------------------------------------------

  /** What a refresh's open transaction holds: the marks it deleted, and the sums it inserted. */
  datatype Refresh =
    | Idle
    | Taken(taken: set<MarkId>, hours: set<Hour>)
    | Built(taken: set<MarkId>, hours: set<Hour>, cells: Rollups)

  /** The committed tables, and the refresh under way. */
  datatype Tables = Tables(rows: Rows, rollups: Rollups, marks: Marks, refresh: Refresh)

  /** `after` has new marks for `hours`, and for nothing else. */
  ghost predicate MarksAdded(before: Marks, after: Marks, hours: set<Hour>) {
    && before.Keys <= after.Keys
    && (forall m :: m in before ==> after[m] == before[m])
    && (forall m :: m in after && m !in before ==> after[m] in hours)
    && (forall h: Hour :: h in hours ==> exists m :: m in after && m !in before && after[m] == h)
  }

  /** `hours` are marked and over by `now`, at most `maxHours`, and no later such hour is left out. */
  ghost predicate LatestMarked(marks: Marks, maxHours: nat, now: Timestamp, hours: set<Hour>) {
    && |hours| <= maxHours
    && (forall h: Hour :: h in hours ==> h in MarkedHours(marks) && h < HourOf(now))
    && (forall h: Hour :: h in MarkedHours(marks) && h < HourOf(now) && h !in hours ==>
      |hours| == maxHours && forall taken: Hour :: taken in hours ==> h < taken)
  }

  /** The sums of the rows in `hours`, per cell that has any. */
  ghost function Rebuilt(rows: Rows, hours: set<Hour>): Rollups {
    map c | c in (set id | id in rows && HourOf(rows[id].at) in hours :: CellOf(rows[id])) ::
      SumOver(Members(rows, c), RowSums(rows))
  }

  function WithoutHours(rollups: Rollups, hours: set<Hour>): Rollups {
    map c | c in rollups && c.0 !in hours :: rollups[c]
  }

  /** `first` and `last` are the earliest and the latest row, and `hours` every hour between theirs. */
  ghost predicate IsSpanOf(rows: Rows, first: RowId, last: RowId, hours: set<Hour>) {
    && first in rows && last in rows
    && (forall id :: id in rows ==> rows[first].at <= rows[id].at <= rows[last].at)
    && (forall h: Hour :: h in hours <==> HourOf(rows[first].at) <= h <= HourOf(rows[last].at))
  }

  /** All hours between the earliest row and the latest, both theirs included. */
  ghost predicate IsSpan(rows: Rows, hours: set<Hour>) {
    if rows == map[] then hours == {} else exists first, last :: IsSpanOf(rows, first, last, hours)
  }

  datatype Step =
    | Insert(added: Rows)
    | Update(changed: Rows)
    | Delete(gone: set<RowId>)
    | Take(maxHours: nat, now: Timestamp)
    | Build
    | Commit
    | Abort
    | StartOver(hours: set<Hour>)

  ghost predicate Next(s: Tables, step: Step, s': Tables) {
    match step
    case Insert(added) =>
      && added.Keys !! s.rows.Keys
      && s' == s.(rows := s.rows + added, marks := s'.marks)
      && MarksAdded(s.marks, s'.marks, HoursOf(added))
    case Update(changed) =>
      && changed.Keys <= s.rows.Keys
      && s' == s.(rows := s.rows + changed, marks := s'.marks)
      && MarksAdded(s.marks, s'.marks, HoursOf(changed) + HoursOf(Only(s.rows, changed.Keys)))
    case Delete(gone) =>
      && gone <= s.rows.Keys
      && s' == s.(rows := s.rows - gone, marks := s'.marks)
      && MarksAdded(s.marks, s'.marks, HoursOf(Only(s.rows, gone)))
    case Take(maxHours, now) =>
      && s.refresh.Idle? && s'.refresh.Taken?
      && LatestMarked(s.marks, maxHours, now, s'.refresh.hours)
      && s' == s.(refresh := Taken(MarksOf(s.marks, s'.refresh.hours), s'.refresh.hours))
    case Build =>
      && s.refresh.Taken?
      && s' == s.(refresh := Built(s.refresh.taken, s.refresh.hours, Rebuilt(s.rows, s.refresh.hours)))
    case Commit =>
      && s.refresh.Built?
      && s' == s.(rollups := WithoutHours(s.rollups, s.refresh.hours) + s.refresh.cells,
                  marks := s.marks - s.refresh.taken,
                  refresh := Idle)
    case Abort =>
      && !s.refresh.Idle?
      && s' == s.(refresh := Idle)
    case StartOver(hours) =>
      && IsSpan(s.rows, hours)
      && s' == s.(rollups := map[], marks := s'.marks)
      && MarksAdded(s.marks, s'.marks, hours)
  }

  // ---- the invariant ----------------------------------------------------------------------------

  /** Every hour with no mark has the sums of its rows. */
  ghost predicate UnmarkedHoursCurrent(s: Tables) {
    forall h :: h !in MarkedHours(s.marks) ==> Current(s.rows, s.rollups, h)
  }

  /** The marks a refresh took still stand for others, and cover the hours it rebuilds. */
  ghost predicate TakenMarksStand(s: Tables) {
    s.refresh.Idle? || (
      && (forall m :: m in s.refresh.taken ==> m in s.marks && s.marks[m] in s.refresh.hours)
      && (forall h :: h in s.refresh.hours ==> exists m :: m in s.refresh.taken && m in s.marks && s.marks[m] == h))
  }

  /** Where nothing was marked since the marks were taken, the sums about to be committed are current. */
  ghost predicate BuiltCellsCurrent(s: Tables) {
    s.refresh.Built? ==>
      && (forall c :: c in s.refresh.cells ==> c.0 in s.refresh.hours)
      && (forall h :: h in s.refresh.hours && h !in MarkedHours(s.marks - s.refresh.taken) ==>
        Current(s.rows, s.refresh.cells, h))
  }

  ghost predicate Inv(s: Tables) {
    UnmarkedHoursCurrent(s) && TakenMarksStand(s) && BuiltCellsCurrent(s)
  }

  /** The rows of hour `h` are the same in both. */
  ghost predicate SameHour(a: Rows, b: Rows, h: Hour) {
    forall id :: (id in a && HourOf(a[id].at) == h) || (id in b && HourOf(b[id].at) == h) ==>
      id in a && id in b && a[id] == b[id]
  }

  lemma SummedDependsOnTheHour(a: Rows, b: Rows, h: Hour)
    requires SameHour(a, b, h)
    ensures forall k: Key :: Summed(a, (h, k)) == Summed(b, (h, k))
  {
    forall k: Key ensures Summed(a, (h, k)) == Summed(b, (h, k)) {
      assert Members(a, (h, k)) == Members(b, (h, k));
      SumAgrees(Members(a, (h, k)), RowSums(a), RowSums(b));
    }
  }

  lemma RebuiltIsCurrent(rows: Rows, hours: set<Hour>)
    ensures forall c :: c in Rebuilt(rows, hours) ==> c.0 in hours
    ensures forall h: Hour :: h in hours ==> Current(rows, Rebuilt(rows, hours), h)
  {
    hide SumOver;
    var cells := Rebuilt(rows, hours);
    forall h, k: Key | h in hours ensures CellAt(cells, (h, k)) == Summed(rows, (h, k)) {
      if (h, k) in cells {
        var id :| id in rows && CellOf(rows[id]) == (h, k);
        assert id in Members(rows, (h, k));
      } else {
        assert forall id :: id in rows && HourOf(rows[id].at) == h ==> CellOf(rows[id]) in cells;
        assert Members(rows, (h, k)) == {};
      }
    }
  }

  /** A write leaves the rows of every hour it does not mark. */
  lemma WriteLeavesOtherHours(s: Tables, step: Step, s': Tables, h: Hour)
    requires Next(s, step, s') && (step.Insert? || step.Update? || step.Delete?)
    requires forall m :: m in s'.marks && m !in s.marks ==> s'.marks[m] != h
    ensures SameHour(s.rows, s'.rows, h)
    ensures forall m :: m in s.marks ==> m in s'.marks && s'.marks[m] == s.marks[m]
    ensures s'.rollups == s.rollups && s'.refresh == s.refresh
  {
    match step
    case Insert(added) =>
      assert h !in HoursOf(added);
      forall id | id in added ensures HourOf(added[id].at) != h { assert HourOf(added[id].at) in HoursOf(added); }
    case Update(changed) =>
      var replaced := Only(s.rows, changed.Keys);
      assert h !in HoursOf(changed) + HoursOf(replaced);
      forall id | id in changed ensures HourOf(changed[id].at) != h && HourOf(s.rows[id].at) != h {
        assert HourOf(changed[id].at) in HoursOf(changed);
        assert id in replaced && HourOf(replaced[id].at) in HoursOf(replaced);
      }
    case Delete(gone) =>
      var removed := Only(s.rows, gone);
      assert h !in HoursOf(removed);
      forall id | id in gone ensures HourOf(s.rows[id].at) != h {
        assert id in removed && HourOf(removed[id].at) in HoursOf(removed);
      }
    case Take(_, _) => case Build => case Commit => case Abort => case StartOver(_) =>
  }

  lemma CurrentCarries(a: Rows, b: Rows, rollups: Rollups, h: Hour)
    requires SameHour(a, b, h) && Current(a, rollups, h)
    ensures Current(b, rollups, h)
  {
    hide Summed;
    SummedDependsOnTheHour(a, b, h);
  }

  lemma WriteKeepsInv(s: Tables, step: Step, s': Tables)
    requires Inv(s) && Next(s, step, s') && (step.Insert? || step.Update? || step.Delete?)
    ensures Inv(s')
  {
    hide Next, Current, Summed, SameHour;
    NewMarksOnly(s, step, s');
    forall h | h !in MarkedHours(s'.marks) ensures Current(s'.rows, s'.rollups, h) {
      assert forall m :: m in s'.marks ==> s'.marks[m] != h;
      WriteLeavesOtherHours(s, step, s', h);
      assert h !in MarkedHours(s.marks);
      CurrentCarries(s.rows, s'.rows, s.rollups, h);
    }
    if s'.refresh.Built? {
      forall h | h in s'.refresh.hours && h !in MarkedHours(s'.marks - s'.refresh.taken)
        ensures Current(s'.rows, s'.refresh.cells, h)
      {
        forall m | m in s'.marks && m !in s.marks ensures s'.marks[m] != h {
          assert m in s'.marks - s'.refresh.taken;
        }
        WriteLeavesOtherHours(s, step, s', h);
        forall m | m in s.marks - s.refresh.taken ensures s.marks[m] != h {
          assert m in s'.marks - s'.refresh.taken;
        }
        assert h !in MarkedHours(s.marks - s.refresh.taken);
        CurrentCarries(s.rows, s'.rows, s.refresh.cells, h);
      }
    }
  }

  lemma NewMarksOnly(s: Tables, step: Step, s': Tables)
    requires Next(s, step, s') && (step.Insert? || step.Update? || step.Delete?)
    ensures s'.rollups == s.rollups && s'.refresh == s.refresh && s.marks.Keys <= s'.marks.Keys
    ensures forall m :: m in s.marks ==> s'.marks[m] == s.marks[m]
  {
  }

  lemma CommitKeepsInv(s: Tables, s': Tables)
    requires Inv(s) && Next(s, Commit, s')
    ensures Inv(s')
  {
    hide Current, Summed;
    var hours, taken, cells := s.refresh.hours, s.refresh.taken, s.refresh.cells;
    forall h | h !in MarkedHours(s'.marks) ensures Current(s'.rows, s'.rollups, h) {
      if h in hours {
        assert Current(s.rows, cells, h);
        CommittedCells(s.rows, s.rollups, hours, cells, h);
      } else {
        assert h !in MarkedHours(s.marks) by {
          forall m | m in s.marks ensures s.marks[m] != h {
            if m !in taken { assert m in s'.marks && s'.marks[m] == s.marks[m]; }
          }
        }
        CommittedCells(s.rows, s.rollups, hours, cells, h);
      }
    }
  }

  lemma CommittedCells(rows: Rows, rollups: Rollups, hours: set<Hour>, cells: Rollups, h: Hour)
    requires forall c :: c in cells ==> c.0 in hours
    ensures Current(rows, if h in hours then cells else rollups, h) <==>
            Current(rows, WithoutHours(rollups, hours) + cells, h)
  {
  }

  /** Even with a refresh open. */
  lemma StartOverKeepsInv(s: Tables, hours: set<Hour>, s': Tables)
    requires Inv(s) && Next(s, StartOver(hours), s')
    ensures Inv(s')
  {
    SpanCoversRows(s.rows, hours);
    forall h | h !in MarkedHours(s'.marks) ensures Current(s'.rows, s'.rollups, h) {
      NothingToSum(s.rows, h);
    }
    OpenRefreshOutlivesStartOver(s, hours, s');
  }

  lemma OpenRefreshOutlivesStartOver(s: Tables, hours: set<Hour>, s': Tables)
    requires Inv(s) && Next(s, StartOver(hours), s')
    ensures TakenMarksStand(s') && BuiltCellsCurrent(s')
  {
    hide Current;
    if s.refresh.Built? {
      var taken := s.refresh.taken;
      forall h | h in MarkedHours(s.marks - taken) ensures h in MarkedHours(s'.marks - taken) {
        var m :| m in s.marks - taken && s.marks[m] == h;
        assert m in s'.marks - taken;
      }
    }
  }

  /** An hour with no rows has no sums. */
  lemma NothingToSum(rows: Rows, h: Hour)
    requires h !in HoursOf(rows)
    ensures Current(rows, map[], h)
  {
  }

  lemma HourIsMonotone(t: Timestamp, u: Timestamp)
    requires t <= u
    ensures HourOf(t) <= HourOf(u)
  {
  }

  /** Every row falls in the span's hours. */
  lemma SpanCoversRows(rows: Rows, hours: set<Hour>)
    requires IsSpan(rows, hours)
    ensures HoursOf(rows) <= hours
  {
  }

  /** Every step keeps the invariant. */
  lemma StepKeepsInv(s: Tables, step: Step, s': Tables)
    requires Inv(s) && Next(s, step, s')
    ensures Inv(s')
  {
    if step.Insert? || step.Update? || step.Delete? {
      WriteKeepsInv(s, step, s');
    } else if step.Commit? {
      CommitKeepsInv(s, s');
    } else if step.StartOver? {
      StartOverKeepsInv(s, step.hours, s');
    } else if step.Build? {
      hide Current, Summed, Rebuilt;
      RebuiltIsCurrent(s.rows, s.refresh.hours);
    } else if step.Take? {
      hide Current, Summed;
      var hours := s'.refresh.hours;
      forall h | h in hours ensures exists m :: m in s'.refresh.taken && m in s'.marks && s'.marks[m] == h {
        var m :| m in s.marks && s.marks[m] == h;
        assert m in s'.refresh.taken;
      }
    } else {
      hide Current, Summed;
      assert step.Abort?;
    }
  }

  /** Where the migration that adds the tables leaves them: no rollups, and a mark for every hour of the span. */
  ghost predicate Installed(s: Tables) {
    s.rollups == map[] && s.refresh.Idle? && exists hours :: IsSpan(s.rows, hours) && MarksAdded(map[], s.marks, hours)
  }

  lemma InstalledIsInv(s: Tables)
    requires Installed(s)
    ensures Inv(s)
  {
    var hours :| IsSpan(s.rows, hours) && MarksAdded(map[], s.marks, hours);
    SpanCoversRows(s.rows, hours);
    forall h | h !in MarkedHours(s.marks) ensures Current(s.rows, s.rollups, h) {
      NothingToSum(s.rows, h);
    }
  }

  /** A run from the installation: each state follows from the one before by its step. */
  ghost predicate IsRun(states: seq<Tables>, steps: seq<Step>) {
    && |states| == |steps| + 1
    && forall i :: 0 <= i < |steps| ==> Next(states[i], steps[i], states[i + 1])
  }

  /** On every run, at every moment, every hour with no mark has the sums of its rows. */
  lemma {:induction false} RunKeepsInv(states: seq<Tables>, steps: seq<Step>, i: nat)
    requires IsRun(states, steps) && Installed(states[0]) && i < |states|
    ensures Inv(states[i])
  {
    hide Inv, Next, Installed;
    if i == 0 {
      InstalledIsInv(states[0]);
    } else {
      RunKeepsInv(states, steps, i - 1);
      assert Next(states[i - 1], steps[i - 1], states[i - 1 + 1]);
      StepKeepsInv(states[i - 1], steps[i - 1], states[i]);
    }
  }
}
