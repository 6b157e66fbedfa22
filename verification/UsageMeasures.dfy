/** What the totals of usage rows say, measure by measure, of the rows they were taken over. */
module UsageMeasures {
  import opened Common
  import opened Totals
  import opened UsageRollups

  /** The values added up as integers. */
  ghost function IntSum(ids: set<RowId>, value: RowId -> int): int {
    if ids == {} then 0
    else
      var id :| id in ids;
      value(id) + IntSum(ids - {id}, value)
  }

  /** Any of them may be the one added last. */
  lemma {:induction false} IntSumFrom(ids: set<RowId>, value: RowId -> int, id: RowId)
    requires id in ids
    ensures IntSum(ids, value) == value(id) + IntSum(ids - {id}, value)
    decreases |ids|
  {
    var first :| first in ids && IntSum(ids, value) == value(first) + IntSum(ids - {first}, value);
    if first != id {
      IntSumFrom(ids - {first}, value, id);
      IntSumFrom(ids - {id}, value, first);
      assert ids - {first} - {id} == ids - {id} - {first};
    }
  }

  /** What the rows recorded in one column: nothing, where none recorded anything, else the sum. */
  ghost predicate IsTotal(total: Option<int>, ids: set<RowId>, column: RowId -> Option<int>) {
    var recorded := set id | id in ids && column(id).Some?;
    if recorded == {} then total == None else total == Some(IntSum(recorded, Recorded(column)))
  }

  ghost function Recorded(column: RowId -> Option<int>): RowId -> int {
    (id: RowId) => Amount(column(id))
  }

  function Amount(recorded: Option<int>): int {
    if recorded.Some? then recorded.value else 0
  }

  ghost function Costs(rows: Rows): RowId -> Option<int> {
    id => if id in rows then rows[id].cost else None
  }

  ghost function Tokens(rows: Rows): RowId -> Option<int> {
    id => if id in rows then rows[id].tokens else None
  }

  ghost predicate IsEarliest(first: Option<int>, rows: Rows, ids: set<RowId>) {
    if ids == {} then first == None
    else first.Some? && (exists id :: id in ids && id in rows && rows[id].at == first.value)
         && forall id :: id in ids && id in rows ==> first.value <= rows[id].at
  }

  ghost predicate IsLatest(last: Option<int>, rows: Rows, ids: set<RowId>) {
    if ids == {} then last == None
    else last.Some? && (exists id :: id in ids && id in rows && rows[id].at == last.value)
         && forall id :: id in ids && id in rows ==> rows[id].at <= last.value
  }

  ghost predicate AreLatencies(latencies: multiset<int>, rows: Rows, ids: set<RowId>) {
    forall latency :: latencies[latency] == |WithLatency(rows, ids, latency)|
  }

  function WithLatency(rows: Rows, ids: set<RowId>, latency: int): set<RowId> {
    set id | id in ids && id in rows && rows[id].latency == Some(latency)
  }

  /** How many rows there are, what each column adds up to, every latency recorded, and when they began and ended. */
  ghost predicate Measures(rows: Rows, ids: set<RowId>, sums: Sums) {
    && sums.rows == |ids|
    && IsTotal(sums.cost, ids, Costs(rows))
    && IsTotal(sums.tokens, ids, Tokens(rows))
    && AreLatencies(sums.latencies, rows, ids)
    && IsEarliest(sums.firstAt, rows, ids)
    && IsLatest(sums.lastAt, rows, ids)
  }

  lemma OneMoreTotal(rest: Option<int>, ids: set<RowId>, id: RowId, column: RowId -> Option<int>)
    requires id in ids && IsTotal(rest, ids - {id}, column)
    ensures IsTotal(AddOption(column(id), rest), ids, column)
  {
    var recorded := set j | j in ids && column(j).Some?;
    var others := set j | j in ids - {id} && column(j).Some?;
    if column(id).Some? {
      IntSumFrom(recorded, Recorded(column), id);
      assert recorded - {id} == others;
    } else {
      assert recorded == others;
    }
  }

  lemma OneMoreLatency(rest: multiset<int>, rows: Rows, ids: set<RowId>, id: RowId)
    requires id in ids && id in rows && AreLatencies(rest, rows, ids - {id})
    ensures AreLatencies(RowValue(rows[id]).latencies + rest, rows, ids)
  {
    var own := RowValue(rows[id]).latencies;
    forall latency ensures (own + rest)[latency] == |WithLatency(rows, ids, latency)| {
      var others := WithLatency(rows, ids - {id}, latency);
      if rows[id].latency == Some(latency) {
        assert WithLatency(rows, ids, latency) == others + {id};
      } else {
        assert WithLatency(rows, ids, latency) == others;
      }
    }
  }

  lemma OneMoreEnd(first: Option<int>, last: Option<int>, rows: Rows, ids: set<RowId>, id: RowId)
    requires id in ids && ids <= rows.Keys
    requires IsEarliest(first, rows, ids - {id}) && IsLatest(last, rows, ids - {id})
    ensures IsEarliest(Earlier(Some(rows[id].at), first), rows, ids)
    ensures IsLatest(Later(Some(rows[id].at), last), rows, ids)
  {
    assert ids == (ids - {id}) + {id};
  }

  /** The totals of a set of rows measure it. */
  lemma {:induction false} SumMeasures(rows: Rows, ids: set<RowId>)
    requires ids <= rows.Keys
    ensures Measures(rows, ids, SumOver(ids, RowSums(rows)))
    decreases |ids|
  {
    hide IsTotal, AreLatencies, IsEarliest, IsLatest, AddOption, Earlier, Later;
    if ids == {} {
      MeasuresOfNone(rows);
    } else {
      var id :| id in ids;
      var rest := SumOver(ids - {id}, RowSums(rows));
      SumMeasures(rows, ids - {id});
      SumFrom(ids, RowSums(rows), id);
      OneMoreTotal(rest.cost, ids, id, Costs(rows));
      OneMoreTotal(rest.tokens, ids, id, Tokens(rows));
      OneMoreLatency(rest.latencies, rows, ids, id);
      OneMoreEnd(rest.firstAt, rest.lastAt, rows, ids, id);
    }
  }

  lemma MeasuresOfNone(rows: Rows)
    ensures Measures(rows, {}, SumOver({}, RowSums(rows)))
  {
    forall latency ensures |WithLatency(rows, {}, latency)| == 0 {
      assert WithLatency(rows, {}, latency) == {};
    }
  }

  // ---- the rows of a cell --------------------------------------------------------------------------

  /** The rows of one key from the start of an hour up to the start of the next. */
  function RowsOfHour(rows: Rows, h: Hour, key: Key): set<RowId> {
    set id | id in rows && rows[id].key == key && h * 3_600_000_000 <= rows[id].at < (h + 1) * 3_600_000_000
  }

  /** Every cell of the hours has rows and measures them, and no rows of theirs are without a cell. */
  ghost predicate MeasuresHours(rows: Rows, hours: set<Hour>, cells: Rollups) {
    forall h: Hour, key :: h in hours ==>
      && ((h, key) in cells <==> RowsOfHour(rows, h, key) != {})
      && ((h, key) in cells ==> Measures(rows, RowsOfHour(rows, h, key), cells[(h, key)]))
  }

  lemma MembersAreRowsOfHour(rows: Rows, h: Hour, key: Key)
    ensures Members(rows, (h, key)) == RowsOfHour(rows, h, key)
  {
  }

  lemma CurrentMeasures(rows: Rows, hours: set<Hour>, cells: Rollups)
    requires forall h: Hour :: h in hours ==> Current(rows, cells, h)
    ensures MeasuresHours(rows, hours, cells)
  {
    hide Measures, SumOver, RowsOfHour, Members;
    forall h: Hour, key | h in hours
      ensures (h, key) in cells <==> RowsOfHour(rows, h, key) != {}
      ensures (h, key) in cells ==> Measures(rows, RowsOfHour(rows, h, key), cells[(h, key)])
    {
      MembersAreRowsOfHour(rows, h, key);
      assert CellAt(cells, (h, key)) == Summed(rows, (h, key));
      assert Members(rows, (h, key)) <= rows.Keys by {
        MembersAreRows(rows, (h, key));
      }
      SumMeasures(rows, Members(rows, (h, key)));
    }
  }

  lemma MembersAreRows(rows: Rows, c: Cell)
    ensures Members(rows, c) <= rows.Keys
  {
  }
}
