/**
 * The incident table and its client (IncidentManagementStorageClient.cs),
 * over an in-memory table.
 *
 * The table is the sequence of stored rows in table order. Every query the
 * client runs is a filter over that sequence; only the first segment of a
 * segmented query is ever read, and the whole table is taken to be one
 * segment. Rows are values: a lookup hands out a fresh `Incident` object
 * built from a row, and a write copies the object's properties back.
 */
module IncidentStorage {
  import opened Wrappers
  import opened Decimal
  import opened Calendar
  import opened IncidentModels

  /** What a table operation or a parse of its result can fail with. */
  datatype StorageError =
    | EntityNotFound        // Replace of a key the table does not hold
    | EntityAlreadyExists   // Insert of a key the table already holds
    | MissingRowKey         // an entity without a row key
    | RowKeyNotAnInt        // `int.Parse` of a stored row key fails
    | DateOutOfRange        // `AddDays(-7)` before 0001-01-01

  /** The filter conditions the client sends. */
  datatype Condition =
    | PartitionKeyEquals(partitionKey: string)
    | ChannelNameEquals(channelName: string)
    | ChannelIdEquals(channelId: string)
    | ClosedEquals(closed: bool)
    | PartitionKeyAtLeast(lowest: string)

  predicate Matches(c: Condition, r: IncidentRow)
  {
    match c
    case PartitionKeyEquals(pk) => r.partitionKey == pk
    case ChannelNameEquals(name) => r.channelName == name
    case ChannelIdEquals(id) => r.channelId == Some(id)
    case ClosedEquals(flag) => r.closed == flag
    case PartitionKeyAtLeast(lowest) => LexLe(lowest, r.partitionKey)
  }

  /** The rows a query returns: those matching the condition, in table
      order. */
  function Query(rows: seq<IncidentRow>, c: Condition): (rs: seq<IncidentRow>)
    ensures |rs| <= |rows|
  {
    if rows == [] then []
    else
      var last := rows[|rows| - 1];
      Query(rows[..|rows| - 1], c) + (if Matches(c, last) then [last] else [])
  }

  /** A query returns exactly the rows that match. */
  lemma {:induction false} QueryMembers(rows: seq<IncidentRow>, c: Condition)
    ensures forall r :: r in Query(rows, c) <==> r in rows && Matches(c, r)
  {
    if rows != [] {
      var n := |rows| - 1;
      QueryMembers(rows[..n], c);
      assert rows == rows[..n] + [rows[n]];
    }
  }

  /** A query over two stretches of the table is the two queries one after
      the other. */
  lemma {:induction false} QueryAppend(a: seq<IncidentRow>, b: seq<IncidentRow>, c: Condition)
    ensures Query(a + b, c) == Query(a, c) + Query(b, c)
  {
    if b == [] {
      assert a + b == a;
    } else {
      var last := b[|b| - 1];
      assert (a + b)[..|a + b| - 1] == a + b[..|b| - 1];
      QueryAppend(a, b[..|b| - 1], c);
    }
  }

  /** Rows whose `c`-relevant fields agree give the same number of matches. */
  lemma {:induction false} QueryCountOfUpdate(rows: seq<IncidentRow>, i: nat, row: IncidentRow, c: Condition)
    requires i < |rows|
    requires Matches(c, rows[i]) <==> Matches(c, row)
    ensures |Query(rows[i := row], c)| == |Query(rows, c)|
  {
    assert rows == rows[..i] + [rows[i]] + rows[i + 1..];
    assert rows[i := row] == rows[..i] + [row] + rows[i + 1..];
    QueryAppend(rows[..i] + [rows[i]], rows[i + 1..], c);
    QueryAppend(rows[..i], [rows[i]], c);
    QueryAppend(rows[..i] + [row], rows[i + 1..], c);
    QueryAppend(rows[..i], [row], c);
    assert Query([rows[i]], c) == Query([], c) + (if Matches(c, rows[i]) then [rows[i]] else []);
    assert Query([row], c) == Query([], c) + (if Matches(c, row) then [row] else []);
  }

  /** Strict order of the declared instants is total. */
  lemma EarlierTotal(a: Instant, b: Instant)
    ensures Earlier(a, b) || a == b || Earlier(b, a)
    ensures !(Earlier(a, b) && Earlier(b, a))
  {
  }

  lemma EarlierTransitive(a: Instant, b: Instant, c: Instant)
    requires Earlier(a, b) && Earlier(b, c)
    ensures Earlier(a, c)
  {
  }

  lemma EarlierThenNotLater(a: Instant, b: Instant, c: Instant)
    requires !Earlier(b, a) && Earlier(b, c)
    ensures Earlier(a, c)
  {
    EarlierTotal(a, b);
  }

  /** `OrderByDescending(x => x.DeclaredDateTimeUtc).First()`: the position
      of a row no other row is declared after; the ordering is stable, so
      every row before it is declared strictly earlier. */
  function LatestIndex(rs: seq<IncidentRow>): (k: nat)
    requires rs != []
    ensures k < |rs|
    ensures forall j :: 0 <= j < |rs| ==> !Earlier(rs[k].declaredAt, rs[j].declaredAt)
    ensures forall j :: 0 <= j < k ==> Earlier(rs[j].declaredAt, rs[k].declaredAt)
  {
    if |rs| == 1 then 0
    else
      var n := |rs| - 1;
      var k := LatestIndex(rs[..n]);
      assert forall j :: 0 <= j < n ==> rs[..n][j] == rs[j];
      if Earlier(rs[k].declaredAt, rs[n].declaredAt) then
        assert forall j :: 0 <= j < n ==> Earlier(rs[j].declaredAt, rs[n].declaredAt) by {
          forall j | 0 <= j < n ensures Earlier(rs[j].declaredAt, rs[n].declaredAt) {
            EarlierThenNotLater(rs[j].declaredAt, rs[k].declaredAt, rs[n].declaredAt);
          }
        }
        EarlierTotal(rs[n].declaredAt, rs[n].declaredAt);
        n
      else
        EarlierTotal(rs[k].declaredAt, rs[n].declaredAt);
        k
  }

  /** The latest-declared row of a query result, or None for no rows. */
  function Latest(rs: seq<IncidentRow>): (r: Option<IncidentRow>)
    ensures r.None? <==> rs == []
    ensures r.Some? ==> r.value in rs && forall x :: x in rs ==> !Earlier(r.value.declaredAt, x.declaredAt)
  {
    if rs == [] then None else Some(rs[LatestIndex(rs)])
  }

  /** The keys of two rows coincide: both row keys present and equal, and
      the same partition. */
  predicate SameKey(a: IncidentRow, b: IncidentRow)
  {
    a.rowKey.Some? && a.partitionKey == b.partitionKey && a.rowKey == b.rowKey
  }

  /** `TableOperation.Insert`: the entity goes at the end of the table,
      unless it has no row key or its key is taken. */
  function Inserted(rows: seq<IncidentRow>, row: IncidentRow): (r: Result<seq<IncidentRow>, StorageError>)
    ensures row.rowKey.None? ==> r == Err(MissingRowKey)
    ensures row.rowKey.Some? ==> (r.Ok? <==> forall i :: 0 <= i < |rows| ==> !SameKey(rows[i], row))
    ensures r.Ok? ==> |r.value| == |rows| + 1 && r.value[..|rows|] == rows && r.value[|rows|] == row
  {
    if row.rowKey.None? then Err(MissingRowKey)
    else if exists i :: 0 <= i < |rows| && SameKey(rows[i], row) then Err(EntityAlreadyExists)
    else Ok(rows + [row])
  }

  /** Every row with the key of `row` replaced by `row`. */
  function ReplaceKey(rows: seq<IncidentRow>, row: IncidentRow): (r: seq<IncidentRow>)
    ensures |r| == |rows|
    ensures forall i :: 0 <= i < |rows| ==> r[i] == if SameKey(rows[i], row) then row else rows[i]
  {
    if rows == [] then []
    else
      var n := |rows| - 1;
      ReplaceKey(rows[..n], row) + [if SameKey(rows[n], row) then row else rows[n]]
  }

  /** `TableOperation.Replace`: the whole record with the entity's key is
      replaced, every other record is left as it was; without such a record
      nothing changes and the operation fails. */
  function Replaced(rows: seq<IncidentRow>, row: IncidentRow): (r: Result<seq<IncidentRow>, StorageError>)
    ensures r.Ok? <==> row.rowKey.Some? && exists i :: 0 <= i < |rows| && SameKey(rows[i], row)
    ensures r.Err? ==> r.error == EntityNotFound
    ensures r.Ok? ==> (|r.value| == |rows|
      && forall i :: 0 <= i < |rows| ==> r.value[i] == if SameKey(rows[i], row) then row else rows[i])
  {
    if row.rowKey.Some? && exists i :: 0 <= i < |rows| && SameKey(rows[i], row) then Ok(ReplaceKey(rows, row))
    else Err(EntityNotFound)
  }

  /** The row key the next incident of a date partition gets: 1 for an empty
      partition, otherwise the row key of the partition's latest-declared
      incident parsed as an `int`, plus one with 32-bit wrap-around. */
  function NextRowKey(rows: seq<IncidentRow>, partitionKey: string): (r: Result<int, StorageError>)
    ensures Query(rows, PartitionKeyEquals(partitionKey)) == [] ==> r == Ok(1)
    ensures var latest := Latest(Query(rows, PartitionKeyEquals(partitionKey)));
      latest.Some? ==> (r.Ok? <==> latest.value.rowKey.Some? && ParseInt32(latest.value.rowKey.value).Some?)
    ensures var latest := Latest(Query(rows, PartitionKeyEquals(partitionKey)));
      latest.Some? && r.Ok? ==> r.value == Wrap32(ParseInt32(latest.value.rowKey.value).value + 1)
    ensures r.Err? ==> r.error == RowKeyNotAnInt
    ensures r.Ok? ==> IsInt32(r.value)
  {
    var inPartition := Query(rows, PartitionKeyEquals(partitionKey));
    if inPartition == [] then Ok(1)
    else
      var latest := inPartition[LatestIndex(inPartition)];
      match latest.rowKey
      case None => Err(RowKeyNotAnInt)
      case Some(k) =>
        match ParseInt32(k)
        case None => Err(RowKeyNotAnInt)
        case Some(n) => Ok(Wrap32(n + 1))
  }

  /** The seven-day window of recent incidents: partition keys from the date
      seven days before `today` on, the boundary day included. */
  function RecentIncidents(rows: seq<IncidentRow>, today: Date): (r: Result<seq<IncidentRow>, StorageError>)
    requires ValidDate(today)
    ensures r.Err? <==> DaysBefore(today, 7).None?
  {
    match DaysBefore(today, 7)
    case None => Err(DateOutOfRange)
    case Some(start) => Ok(Query(rows, PartitionKeyAtLeast(DateKey(start))))
  }

  /** A row keyed by its own declaration date is recent exactly when it was
      declared on or after the first day of the window. */
  lemma RecentWindow(rows: seq<IncidentRow>, start: Date, row: IncidentRow)
    requires ValidDate(start)
    requires ValidDate(row.declaredAt.date) && row.partitionKey == DateKey(row.declaredAt.date)
    ensures row in Query(rows, PartitionKeyAtLeast(DateKey(start)))
      <==> row in rows && !Before(row.declaredAt.date, start)
  {
    QueryMembers(rows, PartitionKeyAtLeast(DateKey(start)));
    DateKeyOrder(start, row.declaredAt.date);
  }

  /** When the calendar reaches eight days back, the recent incidents are
      exactly the stored ones declared on or after the day seven days before
      `today`; that day lies after the day eight days before. */
  lemma RecentIncidentsWindow(rows: seq<IncidentRow>, today: Date, row: IncidentRow)
    requires ValidDate(today) && DaysBefore(today, 8).Some?
    requires ValidDate(row.declaredAt.date) && row.partitionKey == DateKey(row.declaredAt.date)
    ensures RecentIncidents(rows, today).Ok?
    ensures row in RecentIncidents(rows, today).value
      <==> row in rows && !Before(row.declaredAt.date, DaysBefore(today, 7).value)
    ensures Before(DaysBefore(today, 8).value, DaysBefore(today, 7).value)
  {
    DaysBeforeStep(today, 7);
    RecentWindow(rows, DaysBefore(today, 7).value, row);
  }

  /** A stored incident declared exactly seven days before `today` is
      recent; one declared eight days before is not. */
  lemma RecentIncidentsBoundary(rows: seq<IncidentRow>, today: Date, row: IncidentRow)
    requires ValidDate(today) && DaysBefore(today, 8).Some?
    requires ValidDate(row.declaredAt.date) && row.partitionKey == DateKey(row.declaredAt.date)
    requires row in rows
    ensures row.declaredAt.date == DaysBefore(today, 7).value ==> row in RecentIncidents(rows, today).value
    ensures row.declaredAt.date == DaysBefore(today, 8).value ==> row !in RecentIncidents(rows, today).value
  {
    RecentIncidentsWindow(rows, today, row);
  }

  // ---------------------------------------------------------------------
  // How row keys grow
  // ---------------------------------------------------------------------

  /** Rows are stored in the order they were declared. */
  predicate Chronological(rows: seq<IncidentRow>)
  {
    forall i, j :: 0 <= i < j < |rows| ==> Earlier(rows[i].declaredAt, rows[j].declaredAt)
  }

  /** Each row's key is one more than the number of rows stored before it in
      its partition. */
  predicate KeysSequential(rows: seq<IncidentRow>)
  {
    forall i :: 0 <= i < |rows| ==> KeyInOrder(rows, i)
  }

  /** The `i`-th row's key is one more than the number of rows stored before
      it in its partition. */
  predicate KeyInOrder(rows: seq<IncidentRow>, i: nat)
    requires i < |rows|
  {
    rows[i].rowKey == Some(IntToString(|Query(rows[..i], PartitionKeyEquals(rows[i].partitionKey))| + 1))
  }

  lemma KeysSequentialPrefix(rows: seq<IncidentRow>, n: nat)
    requires KeysSequential(rows) && n <= |rows|
    ensures KeysSequential(rows[..n])
  {
    forall i | 0 <= i < n
      ensures KeyInOrder(rows[..n], i)
    {
      assert KeyInOrder(rows, i);
      assert rows[..n][..i] == rows[..i];
    }
  }

  /** A query keeps the table's order, so it keeps declaration order. */
  lemma {:induction false} QueryChronological(rows: seq<IncidentRow>, c: Condition)
    requires Chronological(rows)
    ensures Chronological(Query(rows, c))
  {
    if rows != [] {
      var n := |rows| - 1;
      assert Chronological(rows[..n]);
      QueryChronological(rows[..n], c);
      var q := Query(rows[..n], c);
      QueryMembers(rows[..n], c);
      forall x | x in q ensures Earlier(x.declaredAt, rows[n].declaredAt) {
        var i :| 0 <= i < n && rows[..n][i] == x;
      }
    }
  }

  /** In declaration order, the row keys of a partition are 1, 2, ..., n. */
  lemma {:induction false} KeysOfPartition(rows: seq<IncidentRow>, partitionKey: string)
    requires KeysSequential(rows)
    ensures forall k :: 0 <= k < |Query(rows, PartitionKeyEquals(partitionKey))| ==>
      Query(rows, PartitionKeyEquals(partitionKey))[k].rowKey == Some(IntToString(k + 1))
  {
    if rows != [] {
      var n := |rows| - 1;
      var c := PartitionKeyEquals(partitionKey);
      KeysSequentialPrefix(rows, n);
      KeysOfPartition(rows[..n], partitionKey);
      var before := Query(rows[..n], c);
      var q := Query(rows, c);
      assert q == before + (if Matches(c, rows[n]) then [rows[n]] else []);
      forall k | 0 <= k < |q| ensures q[k].rowKey == Some(IntToString(k + 1)) {
        if k < |before| {
          assert q[k] == before[k];
          assert before[k].rowKey == Some(IntToString(k + 1));
        } else {
          assert Matches(c, rows[n]) && k == |before|;
          assert q[k] == rows[n] && rows[n].partitionKey == partitionKey;
          assert PartitionKeyEquals(rows[n].partitionKey) == c;
          assert KeyInOrder(rows, n);
          assert rows[n].rowKey == Some(IntToString(|before| + 1));
        }
      }
    }
  }

  /** Sequential keys are distinct keys. */
  lemma KeysDistinct(rows: seq<IncidentRow>, i: nat, j: nat)
    requires KeysSequential(rows)
    requires i < j < |rows|
    ensures !SameKey(rows[i], rows[j])
  {
    var c := PartitionKeyEquals(rows[i].partitionKey);
    assert KeyInOrder(rows, i) && KeyInOrder(rows, j);
    if rows[i].partitionKey == rows[j].partitionKey {
      assert rows[..j] == rows[..i] + [rows[i]] + rows[i + 1..j];
      QueryAppend(rows[..i] + [rows[i]], rows[i + 1..j], c);
      QueryAppend(rows[..i], [rows[i]], c);
      assert Query([rows[i]], c) == Query([], c) + [rows[i]];
      if rows[i].rowKey == rows[j].rowKey {
        IntToStringInjective(|Query(rows[..i], c)| + 1, |Query(rows[..j], c)| + 1);
      }
    }
  }

  /** In declaration order the latest-declared row is the last one. */
  lemma LatestIsLast(q: seq<IncidentRow>)
    requires Chronological(q) && q != []
    ensures LatestIndex(q) == |q| - 1
  {
    if LatestIndex(q) < |q| - 1 {
      assert false;
    }
  }

  /** When the latest-declared row of a partition carries the key rendered
      from an `int` n, the next key is n + 1, wrapping around past
      `int.MaxValue`. */
  lemma NextRowKeyAfter(rows: seq<IncidentRow>, partitionKey: string, n: int)
    requires IsInt32(n)
    requires var latest := Latest(Query(rows, PartitionKeyEquals(partitionKey)));
      latest.Some? && latest.value.rowKey == Some(IntToString(n))
    ensures NextRowKey(rows, partitionKey) == Ok(Wrap32(n + 1))
    ensures n < Int32Max ==> NextRowKey(rows, partitionKey) == Ok(n + 1)
    ensures n == Int32Max ==> NextRowKey(rows, partitionKey) == Ok(Int32Min)
  {
    IntToStringRoundTrip(n);
    var r := NextRowKey(rows, partitionKey);
    assert r == Ok(Wrap32(n + 1));
    if n == Int32Max {
      Wrap32OfMax();
    } else {
      assert IsInt32(n + 1);
    }
  }

  /** With rows stored in declaration order and sequential keys, the next
      row key of a partition is the number of its rows plus one. */
  lemma NextRowKeyCounts(rows: seq<IncidentRow>, partitionKey: string)
    requires Chronological(rows) && KeysSequential(rows)
    requires |rows| < Int32Max
    ensures NextRowKey(rows, partitionKey) == Ok(|Query(rows, PartitionKeyEquals(partitionKey))| + 1)
  {
    var c := PartitionKeyEquals(partitionKey);
    var q := Query(rows, c);
    if q == [] {
      assert NextRowKey(rows, partitionKey) == Ok(1);
    } else {
      QueryChronological(rows, c);
      LatestIsLast(q);
      KeysOfPartition(rows, partitionKey);
      assert q[|q| - 1].rowKey == Some(IntToString(|q|));
      assert Latest(q) == Some(q[|q| - 1]);
      assert |q| <= |rows|;
      NextRowKeyAfter(rows, partitionKey, |q|);
    }
  }

  /** Appending a row keyed one past the rows of its partition keeps keys
      sequential. */
  lemma AppendKeepsSequential(rows: seq<IncidentRow>, row: IncidentRow)
    requires KeysSequential(rows)
    requires row.rowKey == Some(IntToString(|Query(rows, PartitionKeyEquals(row.partitionKey))| + 1))
    ensures KeysSequential(rows + [row])
  {
    var t := rows + [row];
    forall i | 0 <= i < |t|
      ensures KeyInOrder(t, i)
    {
      if i < |rows| {
        assert KeyInOrder(rows, i);
        assert t[..i] == rows[..i] && t[i] == rows[i];
      } else {
        assert t[..i] == rows && t[i] == row;
      }
    }
  }

  /** Inserting a row keyed by `NextRowKey` keeps keys sequential. */
  lemma InsertNextKeepsSequential(rows: seq<IncidentRow>, row: IncidentRow)
    requires Chronological(rows) && KeysSequential(rows)
    requires |rows| < Int32Max
    requires NextRowKey(rows, row.partitionKey).Ok?
    requires row.rowKey == Some(IntToString(NextRowKey(rows, row.partitionKey).value))
    ensures KeysSequential(rows + [row])
  {
    NextRowKeyCounts(rows, row.partitionKey);
    AppendKeepsSequential(rows, row);
  }

  // ---------------------------------------------------------------------
  // The client
  // ---------------------------------------------------------------------

  /** IncidentManagementStorageClient over an in-memory `incidents` table. */
  class IncidentStore {
    /** The stored rows, in table order. */
    var rows: seq<IncidentRow>

    /** A client over an empty table. */
    constructor ()
      ensures rows == []
    {
      rows := [];
    }

    /** Runs a query: scans the table and keeps the matching rows in order. */
    method ExecuteQuery(c: Condition) returns (results: seq<IncidentRow>)
      ensures results == Query(rows, c)
    {
      results := [];
      var i := 0;
      while i < |rows|
        invariant 0 <= i <= |rows|
        invariant results == Query(rows[..i], c)
      {
        assert rows[..i + 1][..i] == rows[..i];
        if Matches(c, rows[i]) {
          results := results + [rows[i]];
        }
        i := i + 1;
      }
      assert rows[..i] == rows;
    }

    /** The row key for the next incident of a partition. */
    method GetNextRowKey(incidentDate: string) returns (r: Result<int, StorageError>)
      ensures r == NextRowKey(rows, incidentDate)
    {
      var incidents := ExecuteQuery(PartitionKeyEquals(incidentDate));
      if |incidents| > 0 {
        var latest := incidents[LatestIndex(incidents)];
        if latest.rowKey.None? {
          return Err(RowKeyNotAnInt);
        }
        var parsed := ParseInt32(latest.rowKey.value);
        if parsed.None? {
          return Err(RowKeyNotAnInt);
        }
        return Ok(Wrap32(parsed.value + 1));
      }
      return Ok(1);
    }

    /** Inserts the incident's current properties as a new row. */
    method PersistNewIncident(incident: Incident) returns (r: Result<Incident, StorageError>)
      modifies this
      ensures match Inserted(old(rows), incident.Row())
        case Ok(t) => rows == t && r == Ok(incident)
        case Err(e) => rows == old(rows) && r == Err(e)
    {
      var inserted := Inserted(rows, incident.Row());
      if inserted.Err? {
        return Err(inserted.error);
      }
      rows := inserted.value;
      return Ok(incident);
    }

    /** The latest-declared incident bound to a war room by name, or null. */
    method GetIncidentByChannelName(channelName: string) returns (incident: Incident?)
      ensures var latest := Latest(Query(rows, ChannelNameEquals(channelName)));
        && (incident == null <==> latest.None?)
        && (incident != null ==> fresh(incident) && incident.Row() == latest.value)
    {
      var incidents := ExecuteQuery(ChannelNameEquals(channelName));
      if |incidents| == 0 {
        return null;
      }
      incident := new Incident.FromRow(incidents[LatestIndex(incidents)]);
    }

    /** The latest-declared incident bound to a chat channel by id, or null. */
    method GetIncidentByChannelId(channelId: string) returns (incident: Incident?)
      ensures var latest := Latest(Query(rows, ChannelIdEquals(channelId)));
        && (incident == null <==> latest.None?)
        && (incident != null ==> fresh(incident) && incident.Row() == latest.value)
    {
      var incidents := ExecuteQuery(ChannelIdEquals(channelId));
      if |incidents| == 0 {
        return null;
      }
      incident := new Incident.FromRow(incidents[LatestIndex(incidents)]);
    }

    /** Replaces the stored row with the incident's key by its current
        properties. */
    method UpdateIncident(incident: Incident) returns (r: Result<Incident, StorageError>)
      modifies this
      ensures match Replaced(old(rows), incident.Row())
        case Ok(t) => rows == t && r == Ok(incident)
        case Err(e) => rows == old(rows) && r == Err(e)
    {
      var replaced := Replaced(rows, incident.Row());
      if replaced.Err? {
        return Err(replaced.error);
      }
      rows := replaced.value;
      return Ok(incident);
    }

    /** The incidents not yet closed, in table order. */
    method GetOpenIncidents() returns (incidents: seq<IncidentRow>)
      ensures incidents == Query(rows, ClosedEquals(false))
      ensures forall r :: r in incidents <==> r in rows && !r.closed
    {
      incidents := ExecuteQuery(ClosedEquals(false));
      QueryMembers(rows, ClosedEquals(false));
    }

    /** The incidents whose partition is no older than seven days before
        `today`, in table order. */
    method GetRecentIncidents(today: Date) returns (r: Result<seq<IncidentRow>, StorageError>)
      requires ValidDate(today)
      ensures r == RecentIncidents(rows, today)
    {
      var start := DaysBefore(today, 7);
      if start.None? {
        return Err(DateOutOfRange);
      }
      var incidents := ExecuteQuery(PartitionKeyAtLeast(DateKey(start.value)));
      return Ok(incidents);
    }
  }
}
