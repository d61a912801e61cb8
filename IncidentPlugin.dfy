/**
 * The incident-management plugin (IncidentManagementPlugin.cs): declaring an
 * incident into a free war room, resolving it, attaching a postmortem and
 * closing it, and the open and recent incident lists.
 *
 * The chat connection is an object holding the channel directory and the
 * log of everything the plugin posts or sets, in order. The clock reading,
 * the fresh Guid and the timestamp rendering are parameters.
 */
module IncidentPlugin {
  import opened Wrappers
  import opened Text
  import opened Decimal
  import opened Calendar
  import opened IncidentModels
  import opened IncidentText
  import opened IncidentStorage

  const UnresolvedIncidentColor: string := "danger"
  const ResolvedIncidentColor: string := "good"
  const ClosedIncidentColor: string := "#439FE0"
  const NoActiveIncidentPurpose: string := "Incident Warroom -- No active incident bound"

  /** A channel of the chat workspace as `GetChannels` lists it. */
  datatype ChatHub = ChatHub(id: string, name: string)

  /** What the plugin sends over the chat connection. The postmortem
      announcement's text and colour come from members
      (`GetIncidentPostmortemTextWithoutIncidentId`,
      `PostmortemIncidentColor`) that are not part of this model, so it
      records the incident it is about. */
  datatype Notice =
    | MainChannelPost(channel: string, title: string, text: string, color: string)
    | PostmortemPost(channel: string, title: string, incident: IncidentRow)
    | WarRoomPost(channelName: string, text: string)
    | PurposeSet(channelId: Option<string>, purpose: string)
    | TopicSet(channelId: Option<string>, topic: string)

  /** A list entry of the open and recent incident lists. */
  datatype Attachment = Attachment(title: string, text: string, color: string)

  /** The chat connection: the workspace's channels and what has been sent. */
  class ChatConnection {
    var hubs: seq<ChatHub>
    var sent: seq<Notice>

    constructor (hubs: seq<ChatHub>)
      ensures this.hubs == hubs && sent == []
    {
      this.hubs := hubs;
      sent := [];
    }

    /** Sends one message or channel update. */
    method Post(n: Notice)
      modifies this
      ensures sent == old(sent) + [n] && hubs == old(hubs)
    {
      sent := sent + [n];
    }
  }

  // ---------------------------------------------------------------------
  // Command format
  // ---------------------------------------------------------------------

  /** An incident command needs at least three words. */
  predicate IncidentCommandUserInputWellFormatted(message: string)
  {
    |Tokens(message)| >= 3
  }

  /** Words typed with single spaces form a well formatted command exactly
      when there are at least three of them. */
  lemma IncidentCommandOfWords(words: seq<string>)
    requires forall i :: 0 <= i < |words| ==> IsWord(words[i])
    ensures IncidentCommandUserInputWellFormatted(Join(words, " ")) <==> |words| >= 3
  {
    TokensOfJoin(words);
  }

  // ---------------------------------------------------------------------
  // War rooms
  // ---------------------------------------------------------------------

  /** `channels.FirstOrDefault(x => x.Name == name)?.Id`. */
  function ChannelIdNamed(hubs: seq<ChatHub>, name: string): (id: Option<string>)
    ensures id.None? <==> forall i :: 0 <= i < |hubs| ==> hubs[i].name != name
    ensures id.Some? ==> (exists i :: 0 <= i < |hubs| && hubs[i].name == name && hubs[i].id == id.value
                                      && forall j :: 0 <= j < i ==> hubs[j].name != name)
  {
    if hubs == [] then None
    else if hubs[0].name == name then
      Some(hubs[0].id)
    else
      var id := ChannelIdNamed(hubs[1..], name);
      assert forall i :: 0 < i < |hubs| ==> hubs[i] == hubs[1..][i - 1];
      if id.Some? then
        var i :| 0 <= i < |hubs[1..]| && hubs[1..][i].name == name && hubs[1..][i].id == id.value
          && forall j :: 0 <= j < i ==> hubs[1..][j].name != name;
        assert hubs[i + 1].name == name && hubs[i + 1].id == id.value;
        assert forall j :: 0 <= j < i + 1 ==> hubs[j].name != name by {
          forall j | 0 <= j < i + 1 ensures hubs[j].name != name {
            if j > 0 {
              assert hubs[j] == hubs[1..][j - 1];
            }
          }
        }
        id
      else
        id
  }

  /** A war room is taken while its latest incident is not closed. */
  predicate Occupied(rows: seq<IncidentRow>, room: string)
  {
    match Latest(Query(rows, ChannelNameEquals(room)))
    case None => false
    case Some(last) => !last.closed
  }

  /** The war room a new incident is bound to: the first configured room
      that is not taken, with the id of the chat channel named "#" + room;
      None exactly when every room is taken. */
  function FreeWarRoom(rows: seq<IncidentRow>, rooms: seq<string>, hubs: seq<ChatHub>): (c: Option<Channel>)
    ensures c.None? <==> forall i :: 0 <= i < |rooms| ==> Occupied(rows, rooms[i])
    ensures c.Some? ==> (exists i :: 0 <= i < |rooms| && !Occupied(rows, rooms[i])
                                     && (forall j :: 0 <= j < i ==> Occupied(rows, rooms[j]))
                                     && c.value == Channel(ChannelIdNamed(hubs, "#" + rooms[i]), rooms[i]))
  {
    if rooms == [] then None
    else if !Occupied(rows, rooms[0]) then
      Some(Channel(ChannelIdNamed(hubs, "#" + rooms[0]), rooms[0]))
    else
      var c := FreeWarRoom(rows, rooms[1..], hubs);
      assert forall i :: 0 < i < |rooms| ==> rooms[i] == rooms[1..][i - 1];
      if c.Some? then
        var i :| 0 <= i < |rooms[1..]| && !Occupied(rows, rooms[1..][i])
          && (forall j :: 0 <= j < i ==> Occupied(rows, rooms[1..][j]))
          && c.value == Channel(ChannelIdNamed(hubs, "#" + rooms[1..][i]), rooms[1..][i]);
        assert rooms[i + 1] == rooms[1..][i];
        assert forall j :: 0 <= j < i + 1 ==> Occupied(rows, rooms[j]) by {
          forall j | 0 <= j < i + 1 ensures Occupied(rows, rooms[j]) {
            if j > 0 {
              assert rooms[j] == rooms[1..][j - 1];
            }
          }
        }
        c
      else
        c
  }

  // ---------------------------------------------------------------------
  // Channel purpose and topic
  // ---------------------------------------------------------------------

  /** The war room's purpose: released once the incident is both resolved
      and closed, otherwise naming the incident, its status and title. */
  function PurposeText(r: IncidentRow): string
  {
    if r.resolved && r.closed then NoActiveIncidentPurpose
    else "INCIDENT #" + r.FriendlyId() + " -- " + r.FriendlyStatus() + " -- " + r.title
  }

  /** The war room's topic: blank once the incident is resolved and closed,
      otherwise the incident's friendly id. */
  function TopicText(r: IncidentRow, blankTopic: string): string
  {
    if r.resolved && r.closed then blankTopic else "INCIDENT #" + r.FriendlyId()
  }

  // ---------------------------------------------------------------------
  // The lifecycle invariant
  // ---------------------------------------------------------------------

  /** A stored incident as the lifecycle leaves it: flags agree with their
      timestamps, a closed incident is resolved and has a postmortem, and it
      is filed under the date it was declared. */
  predicate RowLifecycle(r: IncidentRow)
  {
    && (r.resolved <==> r.resolvedAt.Some?)
    && (r.closed <==> r.closedAt.Some?)
    && (r.closed ==> r.resolved && r.postmortemAddedAt.Some?)
    && ValidDate(r.declaredAt.date)
    && r.partitionKey == DateKey(r.declaredAt.date)
  }

  /** Of two incidents bound to the same war room, the earlier is closed. */
  predicate EarlierInRoomClosed(rows: seq<IncidentRow>)
  {
    forall i, j :: 0 <= i < j < |rows| && rows[i].channelName == rows[j].channelName ==> rows[i].closed
  }

  /** What sequential use of the plugin keeps true of the table. */
  predicate Sound(rows: seq<IncidentRow>)
  {
    && Chronological(rows)
    && KeysSequential(rows)
    && EarlierInRoomClosed(rows)
    && AllLifecycle(rows)
  }

  predicate AllLifecycle(rows: seq<IncidentRow>)
  {
    forall i :: 0 <= i < |rows| ==> RowLifecycle(rows[i])
  }

  /** The clock reads later than every stored declaration. */
  predicate LaterThanAll(now: Instant, rows: seq<IncidentRow>)
  {
    forall i :: 0 <= i < |rows| ==> Earlier(rows[i].declaredAt, now)
  }

  /** In a sound table each war room has at most one incident that is not
      closed, and the allocator's test, which looks only at the room's
      latest incident, finds the room taken exactly when it has one. */
  lemma AtMostOneOpenPerRoom(rows: seq<IncidentRow>, room: string)
    requires Sound(rows)
    ensures forall i, j ::
      (0 <= i < |rows| && 0 <= j < |rows| && rows[i].channelName == room && rows[j].channelName == room
       && !rows[i].closed && !rows[j].closed) ==> i == j
    ensures Occupied(rows, room) <==> exists i :: 0 <= i < |rows| && rows[i].channelName == room && !rows[i].closed
  {
    if Occupied(rows, room) {
      var c := ChannelNameEquals(room);
      QueryMembers(rows, c);
      var last := Latest(Query(rows, c)).value;
      var i :| 0 <= i < |rows| && rows[i] == last;
      assert rows[i].channelName == room && !rows[i].closed;
    } else {
      FreeRoomHasOnlyClosed(rows, room);
    }
  }

  /** A war room that is not taken has only closed incidents. */
  lemma FreeRoomHasOnlyClosed(rows: seq<IncidentRow>, room: string)
    requires Chronological(rows) && EarlierInRoomClosed(rows)
    requires !Occupied(rows, room)
    ensures forall i :: 0 <= i < |rows| && rows[i].channelName == room ==> rows[i].closed
  {
    var c := ChannelNameEquals(room);
    QueryMembers(rows, c);
    var q := Query(rows, c);
    forall i | 0 <= i < |rows| && rows[i].channelName == room
      ensures rows[i].closed
    {
      assert rows[i] in q;
      var last := Latest(q).value;
      var m :| 0 <= m < |rows| && rows[m] == last;
      if i < m {
        assert rows[m].channelName == room;
      }
    }
  }

  /** The row a declaration stores: the new incident with its row key. */
  function DeclaredRow(title: string, room: Channel, declaredBy: string, now: Instant, freshId: Guid, key: int): (r: IncidentRow)
    requires ValidDate(now.date)
    ensures r.rowKey == Some(IntToString(key)) && r.channelName == room.name
  {
    NewIncidentRow(title, room, declaredBy, now, freshId).(rowKey := Some(IntToString(key)))
  }

  /** Declaring into a free room with a clock later than every stored
      declaration finds the next row key, stores the incident without a key
      clash and keeps the table sound. */
  lemma DeclareKeepsSound(rows: seq<IncidentRow>, room: Channel, title: string, declaredBy: string, now: Instant, freshId: Guid)
    requires Sound(rows) && LaterThanAll(now, rows) && |rows| < Int32Max
    requires ValidDate(now.date)
    requires !Occupied(rows, room.name)
    ensures NextRowKey(rows, DateKey(now.date)) == Ok(|Query(rows, PartitionKeyEquals(DateKey(now.date)))| + 1)
    ensures var row := DeclaredRow(title, room, declaredBy, now, freshId, NextRowKey(rows, DateKey(now.date)).value);
      Inserted(rows, row) == Ok(rows + [row]) && Sound(rows + [row])
  {
    NextRowKeyCounts(rows, DateKey(now.date));
    var row := DeclaredRow(title, room, declaredBy, now, freshId, NextRowKey(rows, DateKey(now.date)).value);
    var t := rows + [row];
    InsertNextKeepsSequential(rows, row);
    forall i | 0 <= i < |rows| ensures !SameKey(rows[i], row) {
      KeysDistinct(t, i, |rows|);
    }
    FreeRoomHasOnlyClosed(rows, room.name);
    AppendKeepsShape(rows, row);
  }

  /** Appending a lifecycle-abiding row declared after every stored one, into
      a room whose incidents are all closed, keeps the order, the room rule
      and the lifecycle. */
  lemma AppendKeepsShape(rows: seq<IncidentRow>, row: IncidentRow)
    requires Chronological(rows) && EarlierInRoomClosed(rows) && AllLifecycle(rows)
    requires LaterThanAll(row.declaredAt, rows) && RowLifecycle(row)
    requires forall i :: 0 <= i < |rows| && rows[i].channelName == row.channelName ==> rows[i].closed
    ensures Chronological(rows + [row]) && EarlierInRoomClosed(rows + [row]) && AllLifecycle(rows + [row])
  {
    var t := rows + [row];
    assert forall i :: 0 <= i < |rows| ==> t[i] == rows[i];
  }

  /** Rewriting a row in place, keeping its room and declaration and not
      reopening it, keeps the order, the room rule and the lifecycle. */
  lemma UpdateKeepsShape(rows: seq<IncidentRow>, i: nat, row: IncidentRow)
    requires Chronological(rows) && EarlierInRoomClosed(rows) && AllLifecycle(rows) && i < |rows|
    requires row.channelName == rows[i].channelName && row.declaredAt == rows[i].declaredAt
    requires RowLifecycle(row)
    requires rows[i].closed ==> row.closed
    ensures Chronological(rows[i := row]) && EarlierInRoomClosed(rows[i := row]) && AllLifecycle(rows[i := row])
  {
  }

  /** A row with the keys of the `i`-th replaces exactly that one. */
  lemma ReplacedAt(rows: seq<IncidentRow>, i: nat, row: IncidentRow)
    requires KeysSequential(rows) && i < |rows|
    requires row.partitionKey == rows[i].partitionKey && row.rowKey == rows[i].rowKey
    ensures Replaced(rows, row) == Ok(rows[i := row])
  {
    forall j | 0 <= j < |rows| && j != i ensures !SameKey(rows[j], row) {
      if j < i { KeysDistinct(rows, j, i); } else { KeysDistinct(rows, i, j); }
    }
    assert KeyInOrder(rows, i);
    assert SameKey(rows[i], row);
    assert Replaced(rows, row).value == rows[i := row];
  }

  /** Rewriting a row without changing its keys keeps the keys sequential. */
  lemma UpdateKeepsKeys(rows: seq<IncidentRow>, i: nat, row: IncidentRow)
    requires KeysSequential(rows) && i < |rows|
    requires row.partitionKey == rows[i].partitionKey && row.rowKey == rows[i].rowKey
    ensures KeysSequential(rows[i := row])
  {
    var t := rows[i := row];
    forall j | 0 <= j < |t|
      ensures KeyInOrder(t, j)
    {
      var c := PartitionKeyEquals(t[j].partitionKey);
      assert KeyInOrder(rows, j);
      if j <= i {
        assert t[..j] == rows[..j];
      } else {
        assert t[..j] == rows[..j][i := row];
        QueryCountOfUpdate(rows[..j], i, row, c);
      }
    }
  }

  /** Writing back an incident with the same keys, room and declaration,
      that obeys the lifecycle and is not reopened, keeps the table sound. */
  lemma UpdateKeepsSound(rows: seq<IncidentRow>, i: nat, row: IncidentRow)
    requires Sound(rows) && i < |rows|
    requires row.partitionKey == rows[i].partitionKey && row.rowKey == rows[i].rowKey
    requires row.channelName == rows[i].channelName && row.declaredAt == rows[i].declaredAt
    requires RowLifecycle(row)
    requires rows[i].closed ==> row.closed
    ensures Replaced(rows, row) == Ok(rows[i := row])
    ensures Sound(rows[i := row])
  {
    ReplacedAt(rows, i, row);
    UpdateKeepsKeys(rows, i, row);
    UpdateKeepsShape(rows, i, row);
  }

  /** The war room's purpose and topic are released exactly when its
      incident is closed. */
  lemma WarRoomReleasedOnlyWhenClosed(r: IncidentRow, blankTopic: string)
    requires RowLifecycle(r)
    requires IsBlank(blankTopic)
    ensures PurposeText(r) == NoActiveIncidentPurpose <==> r.closed
    ensures TopicText(r, blankTopic) == blankTopic <==> r.closed
  {
    if !r.closed {
      var p := "INCIDENT #" + r.FriendlyId() + " -- " + r.FriendlyStatus() + " -- " + r.title;
      assert p[1] == 'N' && NoActiveIncidentPurpose[1] == 'n';
      var t := "INCIDENT #" + r.FriendlyId();
      assert t[0] == 'I' && !IsWhiteSpace(t[0]);
    }
  }

  // ---------------------------------------------------------------------
  // Incident lists
  // ---------------------------------------------------------------------

  /** The groups the list builders filter on, by timestamp. */
  datatype Group = Unresolved | Resolved | Closed | ResolvedNotClosed

  predicate InGroup(g: Group, r: IncidentRow)
  {
    match g
    case Unresolved => r.resolvedAt.None?
    case Resolved => r.resolvedAt.Some?
    case Closed => r.closedAt.Some?
    case ResolvedNotClosed => r.resolvedAt.Some? && r.closedAt.None?
  }

  /** `Where(...)`: the rows of a group, in order. */
  function Where(rs: seq<IncidentRow>, g: Group): (out: seq<IncidentRow>)
    ensures |out| <= |rs|
  {
    if rs == [] then []
    else Where(rs[..|rs| - 1], g) + (if InGroup(g, rs[|rs| - 1]) then [rs[|rs| - 1]] else [])
  }

  lemma {:induction false} WhereAppend(a: seq<IncidentRow>, b: seq<IncidentRow>, g: Group)
    ensures Where(a + b, g) == Where(a, g) + Where(b, g)
  {
    if b == [] {
      assert a + b == a;
    } else {
      assert (a + b)[..|a + b| - 1] == a + b[..|b| - 1];
      WhereAppend(a, b[..|b| - 1], g);
    }
  }

  /** Two groups that split every row between them split the count. */
  lemma {:induction false} WhereSplit(rs: seq<IncidentRow>, g: Group, h: Group)
    requires forall r :: InGroup(g, r) != InGroup(h, r)
    ensures |Where(rs, g)| + |Where(rs, h)| == |rs|
  {
    if rs != [] {
      WhereSplit(rs[..|rs| - 1], g, h);
    }
  }

  /** The declared instants never decrease along `rs`. */
  predicate SortedByDeclared(rs: seq<IncidentRow>)
  {
    forall i, j :: 0 <= i < j < |rs| ==> !Earlier(rs[j].declaredAt, rs[i].declaredAt)
  }

  /** `x` placed after every row not declared later than it. */
  function InsertByDeclared(rs: seq<IncidentRow>, x: IncidentRow): (out: seq<IncidentRow>)
    ensures |out| == |rs| + 1
  {
    if rs == [] || !Earlier(x.declaredAt, rs[|rs| - 1].declaredAt) then rs + [x]
    else InsertByDeclared(rs[..|rs| - 1], x) + [rs[|rs| - 1]]
  }

  lemma {:induction false} InsertByDeclaredPermutes(rs: seq<IncidentRow>, x: IncidentRow)
    ensures multiset(InsertByDeclared(rs, x)) == multiset(rs) + multiset{x}
  {
    if rs != [] && Earlier(x.declaredAt, rs[|rs| - 1].declaredAt) {
      var n := |rs| - 1;
      InsertByDeclaredPermutes(rs[..n], x);
      assert rs == rs[..n] + [rs[n]];
    }
  }

  /** No row of `rs` is declared later than `t`. */
  predicate NoneLaterThan(rs: seq<IncidentRow>, t: Instant)
  {
    forall i :: 0 <= i < |rs| ==> !Earlier(t, rs[i].declaredAt)
  }

  lemma {:induction false} InsertByDeclaredBound(rs: seq<IncidentRow>, x: IncidentRow, t: Instant)
    requires NoneLaterThan(rs, t) && !Earlier(t, x.declaredAt)
    ensures NoneLaterThan(InsertByDeclared(rs, x), t)
  {
    if rs != [] && Earlier(x.declaredAt, rs[|rs| - 1].declaredAt) {
      InsertByDeclaredBound(rs[..|rs| - 1], x, t);
    }
  }

  lemma {:induction false} InsertByDeclaredSorted(rs: seq<IncidentRow>, x: IncidentRow)
    requires SortedByDeclared(rs)
    ensures SortedByDeclared(InsertByDeclared(rs, x))
  {
    if rs == [] || !Earlier(x.declaredAt, rs[|rs| - 1].declaredAt) {
      forall i | 0 <= i < |rs| ensures !Earlier(x.declaredAt, rs[i].declaredAt) {
        EarlierTotal(rs[i].declaredAt, rs[|rs| - 1].declaredAt);
      }
    } else {
      var n := |rs| - 1;
      assert SortedByDeclared(rs[..n]);
      InsertByDeclaredSorted(rs[..n], x);
      EarlierTotal(x.declaredAt, rs[n].declaredAt);
      InsertByDeclaredBound(rs[..n], x, rs[n].declaredAt);
    }
  }

  /** `OrderBy(x => x.DeclaredDateTimeUtc)`: a stable sort by declared
      instant. */
  function SortByDeclared(rs: seq<IncidentRow>): (out: seq<IncidentRow>)
    ensures |out| == |rs|
  {
    if rs == [] then []
    else InsertByDeclared(SortByDeclared(rs[..|rs| - 1]), rs[|rs| - 1])
  }

  /** The sort orders the rows by declared instant and keeps every row. */
  lemma {:induction false} SortByDeclaredSorted(rs: seq<IncidentRow>)
    ensures SortedByDeclared(SortByDeclared(rs))
    ensures multiset(SortByDeclared(rs)) == multiset(rs)
  {
    if rs != [] {
      var n := |rs| - 1;
      SortByDeclaredSorted(rs[..n]);
      InsertByDeclaredSorted(SortByDeclared(rs[..n]), rs[n]);
      InsertByDeclaredPermutes(SortByDeclared(rs[..n]), rs[n]);
      assert rs == rs[..n] + [rs[n]];
    }
  }

  lemma {:induction false} InsertByDeclaredCount(rs: seq<IncidentRow>, x: IncidentRow, g: Group)
    ensures |Where(InsertByDeclared(rs, x), g)| == |Where(rs, g)| + (if InGroup(g, x) then 1 else 0)
  {
    if rs == [] || !Earlier(x.declaredAt, rs[|rs| - 1].declaredAt) {
      assert (rs + [x])[..|rs|] == rs;
    } else {
      var n := |rs| - 1;
      var front := InsertByDeclared(rs[..n], x);
      InsertByDeclaredCount(rs[..n], x, g);
      assert (front + [rs[n]])[..|front|] == front;
    }
  }

  /** Sorting does not change how many rows a group has. */
  lemma {:induction false} SortByDeclaredCount(rs: seq<IncidentRow>, g: Group)
    ensures |Where(SortByDeclared(rs), g)| == |Where(rs, g)|
  {
    if rs != [] {
      var n := |rs| - 1;
      SortByDeclaredCount(rs[..n], g);
      InsertByDeclaredCount(SortByDeclared(rs[..n]), rs[n], g);
    }
  }

  /** A row is kept by `Where` as often as the input holds it when it is in
      the group, and not at all otherwise. */
  lemma {:induction false} WhereMultiset(rs: seq<IncidentRow>, g: Group)
    ensures forall x :: multiset(Where(rs, g))[x] == if InGroup(g, x) then multiset(rs)[x] else 0
  {
    if rs != [] {
      var n := |rs| - 1;
      WhereMultiset(rs[..n], g);
      assert rs == rs[..n] + [rs[n]];
    }
  }

  /** Filtering a list ordered by declaration keeps it ordered. */
  lemma {:induction false} WhereSorted(rs: seq<IncidentRow>, g: Group)
    requires SortedByDeclared(rs)
    ensures SortedByDeclared(Where(rs, g))
  {
    if rs != [] {
      var n := |rs| - 1;
      assert SortedByDeclared(rs[..n]);
      WhereSorted(rs[..n], g);
      var front := Where(rs[..n], g);
      WhereMultiset(rs[..n], g);
      forall i | 0 <= i < |front| ensures !Earlier(rs[n].declaredAt, front[i].declaredAt) {
        assert multiset(front)[front[i]] > 0;
        assert front[i] in rs[..n];
      }
    }
  }

  /** The rows of group `g`, ordered by declaration: `OrderBy` followed by
      `Where`. It is the group's rows in declaration order. */
  function Block(rs: seq<IncidentRow>, g: Group): (b: seq<IncidentRow>)
    ensures SortedByDeclared(b)
    ensures multiset(b) == multiset(Where(rs, g))
    ensures |b| == |Where(rs, g)|
  {
    SortedGroup(rs, g);
    SortByDeclaredCount(rs, g);
    Where(SortByDeclared(rs), g)
  }

  /** Filtering the sorted rows gives the group's rows, ordered. */
  lemma SortedGroup(rs: seq<IncidentRow>, g: Group)
    ensures SortedByDeclared(Where(SortByDeclared(rs), g))
    ensures multiset(Where(SortByDeclared(rs), g)) == multiset(Where(rs, g))
  {
    var sorted := SortByDeclared(rs);
    SortByDeclaredSorted(rs);
    WhereSorted(sorted, g);
    WhereMultiset(sorted, g);
    WhereMultiset(rs, g);
  }

  /** An incident's list entry: its friendly id, the resolution summary and
      the group's colour. */
  function GenerateAttachment(r: IncidentRow, color: string, stamp: Instant -> string): (a: Attachment)
    ensures a.title == "INCIDENT " + r.FriendlyId() && a.color == color
    ensures a.text == GetResolvedIncidentTextWithoutIncidentId(r, stamp)
  {
    Attachment("INCIDENT " + r.FriendlyId(), GetResolvedIncidentTextWithoutIncidentId(r, stamp), color)
  }

  /** `Select(incident => GenerateAttachment(incident, color))`. */
  function Attachments(rs: seq<IncidentRow>, color: string, stamp: Instant -> string): (atts: seq<Attachment>)
    ensures |atts| == |rs|
    ensures forall i {:trigger atts[i]} :: 0 <= i < |rs| ==> atts[i] == GenerateAttachment(rs[i], color, stamp)
  {
    if rs == [] then []
    else Attachments(rs[..|rs| - 1], color, stamp) + [GenerateAttachment(rs[|rs| - 1], color, stamp)]
  }

  /** Where each block of a concatenation of attachment lists sits. */
  lemma ColorBlocks(a: seq<Attachment>, b: seq<Attachment>, c: seq<Attachment>, ca: string, cb: string, cc: string)
    requires forall i :: 0 <= i < |a| ==> a[i].color == ca
    requires forall i :: 0 <= i < |b| ==> b[i].color == cb
    requires forall i :: 0 <= i < |c| ==> c[i].color == cc
    ensures forall i :: 0 <= i < |a| ==> (a + b + c)[i].color == ca
    ensures forall i :: |a| <= i < |a| + |b| ==> (a + b + c)[i].color == cb
    ensures forall i :: |a| + |b| <= i < |a| + |b| + |c| ==> (a + b + c)[i].color == cc
  {
  }

  /** The open list: the open incidents by declared instant, the unresolved
      ones first in "danger", then the resolved ones in "good"; one entry
      per open incident, each entry showing its incident. */
  function OpenIncidentList(open: seq<IncidentRow>, stamp: Instant -> string): (atts: seq<Attachment>)
    ensures |atts| == |open|
    ensures var u := |Where(open, Unresolved)|;
      && (forall i :: 0 <= i < u ==> atts[i].color == UnresolvedIncidentColor)
      && (forall i :: u <= i < |atts| ==> atts[i].color == ResolvedIncidentColor)
    ensures exists unresolved, resolved ::
      && atts == Attachments(unresolved, UnresolvedIncidentColor, stamp)
                 + Attachments(resolved, ResolvedIncidentColor, stamp)
      && SortedByDeclared(unresolved) && multiset(unresolved) == multiset(Where(open, Unresolved))
      && SortedByDeclared(resolved) && multiset(resolved) == multiset(Where(open, Resolved))
  {
    var a := Block(open, Unresolved);
    var b := Block(open, Resolved);
    WhereSplit(open, Unresolved, Resolved);
    var la := Attachments(a, UnresolvedIncidentColor, stamp);
    var lb := Attachments(b, ResolvedIncidentColor, stamp);
    ColorBlocks(la, lb, [], UnresolvedIncidentColor, ResolvedIncidentColor, "");
    assert la + lb + [] == la + lb;
    la + lb
  }

  /** The recent list as the plugin builds it: unresolved, then resolved,
      then closed incidents, each block by declared instant. A closed
      incident has been resolved, so it is listed twice. */
  function RecentIncidentListAsWritten(recent: seq<IncidentRow>, stamp: Instant -> string): (atts: seq<Attachment>)
    ensures |atts| == |Where(recent, Unresolved)| + |Where(recent, Resolved)| + |Where(recent, Closed)|
    ensures var u, g := |Where(recent, Unresolved)|, |Where(recent, Resolved)|;
      && (forall i :: 0 <= i < u ==> atts[i].color == UnresolvedIncidentColor)
      && (forall i :: u <= i < u + g ==> atts[i].color == ResolvedIncidentColor)
      && (forall i :: u + g <= i < |atts| ==> atts[i].color == ClosedIncidentColor)
    ensures exists unresolved, resolved, closed ::
      && atts == Attachments(unresolved, UnresolvedIncidentColor, stamp)
                 + Attachments(resolved, ResolvedIncidentColor, stamp)
                 + Attachments(closed, ClosedIncidentColor, stamp)
      && SortedByDeclared(unresolved) && multiset(unresolved) == multiset(Where(recent, Unresolved))
      && SortedByDeclared(resolved) && multiset(resolved) == multiset(Where(recent, Resolved))
      && SortedByDeclared(closed) && multiset(closed) == multiset(Where(recent, Closed))
  {
    var a := Block(recent, Unresolved);
    var b := Block(recent, Resolved);
    var c := Block(recent, Closed);
    var la := Attachments(a, UnresolvedIncidentColor, stamp);
    var lb := Attachments(b, ResolvedIncidentColor, stamp);
    var lc := Attachments(c, ClosedIncidentColor, stamp);
    ColorBlocks(la, lb, lc, UnresolvedIncidentColor, ResolvedIncidentColor, ClosedIncidentColor);
    la + lb + lc
  }

  /** The block of a one-row list is that row exactly when it is in the
      group. */
  lemma BlockOfOne(r: IncidentRow, g: Group)
    ensures Block([r], g) == if InGroup(g, r) then [r] else []
  {
    assert Where([r], g) == Where([], g) + (if InGroup(g, r) then [r] else []);
    var b := Block([r], g);
    if InGroup(g, r) {
      assert multiset(b) == multiset{r};
      assert b[0] in multiset(b);
    }
  }

  /** The as-written list is its three blocks' entries, in order. */
  lemma RecentListAsWrittenBlocks(recent: seq<IncidentRow>, stamp: Instant -> string)
    ensures RecentIncidentListAsWritten(recent, stamp)
      == Attachments(Block(recent, Unresolved), UnresolvedIncidentColor, stamp)
         + Attachments(Block(recent, Resolved), ResolvedIncidentColor, stamp)
         + Attachments(Block(recent, Closed), ClosedIncidentColor, stamp)
  {
  }

  /** The entries of the three blocks of one resolved and closed incident. */
  lemma BlockEntriesOfClosedOne(r: IncidentRow, stamp: Instant -> string)
    requires r.resolvedAt.Some? && r.closedAt.Some?
    ensures Attachments(Block([r], Unresolved), UnresolvedIncidentColor, stamp) == []
    ensures Attachments(Block([r], Resolved), ResolvedIncidentColor, stamp)
      == [GenerateAttachment(r, ResolvedIncidentColor, stamp)]
    ensures Attachments(Block([r], Closed), ClosedIncidentColor, stamp)
      == [GenerateAttachment(r, ClosedIncidentColor, stamp)]
  {
    assert !InGroup(Unresolved, r) && InGroup(Resolved, r) && InGroup(Closed, r);
    BlockEntryOfOne(r, Unresolved, UnresolvedIncidentColor, stamp);
    BlockEntryOfOne(r, Resolved, ResolvedIncidentColor, stamp);
    BlockEntryOfOne(r, Closed, ClosedIncidentColor, stamp);
  }

  /** The entries of one row's block: its entry exactly when it is in the
      group. */
  lemma BlockEntryOfOne(r: IncidentRow, g: Group, color: string, stamp: Instant -> string)
    ensures Attachments(Block([r], g), color, stamp)
      == if InGroup(g, r) then [GenerateAttachment(r, color, stamp)] else []
  {
    BlockOfOne(r, g);
    AttachmentsOfOne(r, color, stamp);
  }

  /** The as-written list of one resolved and closed incident: its entry in
      the resolved colour, then in the closed colour. */
  lemma RecentListAsWrittenOfOne(r: IncidentRow, stamp: Instant -> string)
    requires r.resolvedAt.Some? && r.closedAt.Some?
    ensures RecentIncidentListAsWritten([r], stamp)
      == [GenerateAttachment(r, ResolvedIncidentColor, stamp), GenerateAttachment(r, ClosedIncidentColor, stamp)]
  {
    BlockEntriesOfClosedOne(r, stamp);
    RecentListAsWrittenBlocks([r], stamp);
    ConcatOfOneAndOne(Attachments(Block([r], Unresolved), UnresolvedIncidentColor, stamp),
      Attachments(Block([r], Resolved), ResolvedIncidentColor, stamp),
      Attachments(Block([r], Closed), ClosedIncidentColor, stamp),
      GenerateAttachment(r, ResolvedIncidentColor, stamp), GenerateAttachment(r, ClosedIncidentColor, stamp));
  }

  lemma ConcatOfOneAndOne<T>(x: seq<T>, y: seq<T>, z: seq<T>, a: T, b: T)
    requires x == [] && y == [a] && z == [b]
    ensures x + y + z == [a, b]
  {
  }

  lemma AttachmentsOfOne(r: IncidentRow, color: string, stamp: Instant -> string)
    ensures Attachments([r], color, stamp) == [GenerateAttachment(r, color, stamp)]
  {
    assert [r][..0] == [];
  }

  /** A single resolved and closed incident yields two entries with the
      same title, one green and one blue. */
  lemma RecentListAsWrittenRepeatsClosed(r: IncidentRow, stamp: Instant -> string)
    requires r.resolvedAt.Some? && r.closedAt.Some?
    ensures var atts := RecentIncidentListAsWritten([r], stamp);
      |atts| == 2 && atts[0].title == atts[1].title
      && atts[0].color == ResolvedIncidentColor && atts[1].color == ClosedIncidentColor
  {
    RecentListAsWrittenOfOne(r, stamp);
  }

  /** The multiset of a group after one more row. */
  lemma WhereSnoc(rs: seq<IncidentRow>, g: Group)
    requires rs != []
    ensures multiset(Where(rs, g))
      == multiset(Where(rs[..|rs| - 1], g)) + (if InGroup(g, rs[|rs| - 1]) then multiset{rs[|rs| - 1]} else multiset{})
  {
  }

  /** Under the lifecycle an incident is in exactly one of the groups
      unresolved, resolved but not closed, and closed. */
  lemma {:induction false} GroupsPartition(rs: seq<IncidentRow>)
    requires AllLifecycle(rs)
    ensures multiset(Where(rs, Unresolved)) + multiset(Where(rs, ResolvedNotClosed)) + multiset(Where(rs, Closed))
      == multiset(rs)
  {
    WhereComplement(rs, Unresolved, Resolved);
    ResolvedPartition(rs);
  }

  /** Two complementary groups split the rows between them. */
  lemma WhereComplement(rs: seq<IncidentRow>, g: Group, h: Group)
    requires forall r :: InGroup(g, r) != InGroup(h, r)
    ensures multiset(Where(rs, g)) + multiset(Where(rs, h)) == multiset(rs)
  {
    WhereMultiset(rs, g);
    WhereMultiset(rs, h);
    assert forall x :: (multiset(Where(rs, g)) + multiset(Where(rs, h)))[x] == multiset(rs)[x];
  }

  /** Four single appends are one append of four. */
  lemma AppendFour<T>(s: seq<T>, a: T, b: T, c: T, d: T)
    ensures s + [a] + [b] + [c] + [d] == s + [a, b, c, d]
  {
  }

  /** Under the lifecycle an incident is resolved exactly when it is
      resolved but not closed, or closed. */
  lemma {:induction false} ResolvedPartition(rs: seq<IncidentRow>)
    requires AllLifecycle(rs)
    ensures multiset(Where(rs, Resolved)) == multiset(Where(rs, ResolvedNotClosed)) + multiset(Where(rs, Closed))
  {
    if rs != [] {
      var n := |rs| - 1;
      assert AllLifecycle(rs[..n]);
      ResolvedPartition(rs[..n]);
      assert RowLifecycle(rs[n]);
      WhereSnoc(rs, Resolved);
      WhereSnoc(rs, ResolvedNotClosed);
      WhereSnoc(rs, Closed);
    }
  }

  /** Under the lifecycle, the as-written recent list shows every incident,
      and every closed incident a second time. */
  lemma RecentListAsWrittenCountsClosedTwice(recent: seq<IncidentRow>, stamp: Instant -> string)
    requires AllLifecycle(recent)
    ensures exists unresolved, resolved, closed ::
      && RecentIncidentListAsWritten(recent, stamp)
         == Attachments(unresolved, UnresolvedIncidentColor, stamp)
            + Attachments(resolved, ResolvedIncidentColor, stamp)
            + Attachments(closed, ClosedIncidentColor, stamp)
      && SortedByDeclared(unresolved) && SortedByDeclared(resolved) && SortedByDeclared(closed)
      && multiset(unresolved + resolved + closed) == multiset(recent) + multiset(Where(recent, Closed))
  {
    var a := Block(recent, Unresolved);
    var b := Block(recent, Resolved);
    var c := Block(recent, Closed);
    GroupsPartition(recent);
    ResolvedPartition(recent);
    var u, g, n, k := multiset(Where(recent, Unresolved)), multiset(Where(recent, Resolved)),
      multiset(Where(recent, ResolvedNotClosed)), multiset(Where(recent, Closed));
    calc {
      multiset(a + b + c);
      u + g + k;
      u + (n + k) + k;
      (u + n + k) + k;
      multiset(recent) + k;
    }
  }

  /** The recent list with each incident once: unresolved, then resolved
      but not closed, then closed, each block by declared instant. */
  function RecentIncidentList(recent: seq<IncidentRow>, stamp: Instant -> string): (atts: seq<Attachment>)
    ensures |atts| == |Where(recent, Unresolved)| + |Where(recent, ResolvedNotClosed)| + |Where(recent, Closed)|
    ensures var u, g := |Where(recent, Unresolved)|, |Where(recent, ResolvedNotClosed)|;
      && (forall i :: 0 <= i < u ==> atts[i].color == UnresolvedIncidentColor)
      && (forall i :: u <= i < u + g ==> atts[i].color == ResolvedIncidentColor)
      && (forall i :: u + g <= i < |atts| ==> atts[i].color == ClosedIncidentColor)
    ensures exists unresolved, resolved, closed ::
      && atts == Attachments(unresolved, UnresolvedIncidentColor, stamp)
                 + Attachments(resolved, ResolvedIncidentColor, stamp)
                 + Attachments(closed, ClosedIncidentColor, stamp)
      && SortedByDeclared(unresolved) && multiset(unresolved) == multiset(Where(recent, Unresolved))
      && SortedByDeclared(resolved) && multiset(resolved) == multiset(Where(recent, ResolvedNotClosed))
      && SortedByDeclared(closed) && multiset(closed) == multiset(Where(recent, Closed))
  {
    var a := Block(recent, Unresolved);
    var b := Block(recent, ResolvedNotClosed);
    var c := Block(recent, Closed);
    var la := Attachments(a, UnresolvedIncidentColor, stamp);
    var lb := Attachments(b, ResolvedIncidentColor, stamp);
    var lc := Attachments(c, ClosedIncidentColor, stamp);
    ColorBlocks(la, lb, lc, UnresolvedIncidentColor, ResolvedIncidentColor, ClosedIncidentColor);
    la + lb + lc
  }

  /** Incidents that obey the lifecycle are each listed exactly once: the
      rows the three blocks show are, together, exactly the input. */
  lemma RecentIncidentListOnce(recent: seq<IncidentRow>, stamp: Instant -> string)
    requires AllLifecycle(recent)
    ensures |RecentIncidentList(recent, stamp)| == |recent|
    ensures exists unresolved, resolved, closed ::
      && RecentIncidentList(recent, stamp)
         == Attachments(unresolved, UnresolvedIncidentColor, stamp)
            + Attachments(resolved, ResolvedIncidentColor, stamp)
            + Attachments(closed, ClosedIncidentColor, stamp)
      && SortedByDeclared(unresolved) && SortedByDeclared(resolved) && SortedByDeclared(closed)
      && multiset(unresolved + resolved + closed) == multiset(recent)
  {
    var a := Block(recent, Unresolved);
    var b := Block(recent, ResolvedNotClosed);
    var c := Block(recent, Closed);
    GroupsPartition(recent);
    assert multiset(a + b + c) == multiset(a) + multiset(b) + multiset(c);
    assert |multiset(a + b + c)| == |multiset(recent)|;
  }

  // ---------------------------------------------------------------------
  // The plugin
  // ---------------------------------------------------------------------

  class IncidentManagementPlugin {
    const store: IncidentStore
    const slack: ChatConnection
    /** How timestamps are rendered in texts. */
    const stamp: Instant -> string
    /** The topic a released war room gets (`Configuration.Whitespace`). */
    const blankTopic: string
    var mainIncidentChannel: string
    var postmortemTemplateLink: string
    var warRooms: seq<string>

    constructor (store: IncidentStore, slack: ChatConnection, stamp: Instant -> string, blankTopic: string)
      ensures this.store == store && this.slack == slack && this.stamp == stamp
      ensures this.blankTopic == blankTopic
      ensures mainIncidentChannel == "" && postmortemTemplateLink == "" && warRooms == []
    {
      this.store := store;
      this.slack := slack;
      this.stamp := stamp;
      this.blankTopic := blankTopic;
      mainIncidentChannel := "";
      postmortemTemplateLink := "";
      warRooms := [];
    }

    /** Reads the configuration: the main channel, the postmortem template
        and the comma-separated war rooms. */
    method Start(mainChannel: string, postmortemTemplate: string, warRoomsConfig: string)
      modifies this
      ensures mainIncidentChannel == mainChannel && postmortemTemplateLink == postmortemTemplate
      ensures warRooms == SplitOn(warRoomsConfig, ',')
    {
      mainIncidentChannel := mainChannel;
      postmortemTemplateLink := postmortemTemplate;
      warRooms := SplitOn(warRoomsConfig, ',');
    }

    /** Scans the war rooms in configured order for the first one whose
        latest incident is absent or closed. */
    method GetAvailableWarRoomChannel() returns (room: Option<Channel>)
      ensures room == FreeWarRoom(store.rows, warRooms, slack.hubs)
    {
      var i := 0;
      while i < |warRooms|
        invariant 0 <= i <= |warRooms|
        invariant FreeWarRoom(store.rows, warRooms[i..], slack.hubs) == FreeWarRoom(store.rows, warRooms, slack.hubs)
      {
        var lastInstanceForChannel := store.GetIncidentByChannelName(warRooms[i]);
        if lastInstanceForChannel == null || lastInstanceForChannel.closed {
          return Some(Channel(ChannelIdNamed(slack.hubs, "#" + warRooms[i]), warRooms[i]));
        }
        assert warRooms[i..][1..] == warRooms[i + 1..];
        i := i + 1;
      }
      return None;
    }

    method SendMainIncidentChannelMessage(title: string, messageText: string, color: string)
      modifies slack
      ensures slack.sent == old(slack.sent) + [MainChannelPost(mainIncidentChannel, title, messageText, color)]
      ensures slack.hubs == old(slack.hubs)
    {
      slack.Post(MainChannelPost(mainIncidentChannel, title, messageText, color));
    }

    method SetChannelPurposeBasedOnIncidentStatus(incident: IncidentRow)
      modifies slack
      ensures slack.sent == old(slack.sent) + [PurposeSet(incident.channelId, PurposeText(incident))]
      ensures slack.hubs == old(slack.hubs)
    {
      if incident.resolved && incident.closed {
        slack.Post(PurposeSet(incident.channelId, NoActiveIncidentPurpose));
      } else {
        slack.Post(PurposeSet(incident.channelId,
          "INCIDENT #" + incident.FriendlyId() + " -- " + incident.FriendlyStatus() + " -- " + incident.title));
      }
    }

    method SetChannelTopicBasedOnIncidentStatus(incident: IncidentRow)
      modifies slack
      ensures slack.sent == old(slack.sent) + [TopicSet(incident.channelId, TopicText(incident, blankTopic))]
      ensures slack.hubs == old(slack.hubs)
    {
      if incident.resolved && incident.closed {
        slack.Post(TopicSet(incident.channelId, blankTopic));
      } else {
        slack.Post(TopicSet(incident.channelId, "INCIDENT #" + incident.FriendlyId()));
      }
    }

    /** What a declaration announces: the war room's purpose and topic, a
        message in the war room and a red post in the main channel. */
    function DeclaredNotices(row: IncidentRow): seq<Notice>
      reads this
    {
      [ PurposeSet(row.channelId, PurposeText(row)),
        TopicSet(row.channelId, TopicText(row, blankTopic)),
        WarRoomPost(row.channelName, GetNewIncidentTextForWarRoomChannel(row)),
        MainChannelPost(mainIncidentChannel, "INCIDENT DECLARED #" + row.FriendlyId(),
          GetNewIncidentTextForMainIncidentChannel(row, stamp), UnresolvedIncidentColor) ]
    }

    /** What a resolution announces: the new purpose and a green post. */
    function ResolvedNotices(row: IncidentRow): seq<Notice>
      reads this
    {
      [ PurposeSet(row.channelId, PurposeText(row)),
        MainChannelPost(mainIncidentChannel, "INCIDENT RESOLVED #" + row.FriendlyId(),
          GetResolvedIncidentTextWithoutIncidentId(row, stamp), ResolvedIncidentColor) ]
    }

    /** What a postmortem announces: a post in the main channel. */
    function PostmortemNotices(row: IncidentRow): seq<Notice>
      reads this
    {
      [ PostmortemPost(mainIncidentChannel, "INCIDENT POSTMORTEM ADDED #" + row.FriendlyId(), row) ]
    }

    /** What a closure announces: the released purpose and topic and a blue
        post. */
    function ClosedNotices(row: IncidentRow): seq<Notice>
      reads this
    {
      [ PurposeSet(row.channelId, PurposeText(row)),
        TopicSet(row.channelId, TopicText(row, blankTopic)),
        MainChannelPost(mainIncidentChannel, "INCIDENT CLOSED #" + row.FriendlyId(),
          GetClosedIncidentTextWithoutIncidentId(row, stamp), ClosedIncidentColor) ]
    }

    method AnnounceDeclared(row: IncidentRow)
      modifies slack
      ensures slack.sent == old(slack.sent) + DeclaredNotices(row) && slack.hubs == old(slack.hubs)
    {
      ghost var sent0 := slack.sent;
      SetChannelPurposeBasedOnIncidentStatus(row);
      ghost var sent1 := slack.sent;
      SetChannelTopicBasedOnIncidentStatus(row);
      ghost var sent2 := slack.sent;
      slack.Post(WarRoomPost(row.channelName, GetNewIncidentTextForWarRoomChannel(row)));
      ghost var sent3 := slack.sent;
      SendMainIncidentChannelMessage("INCIDENT DECLARED #" + row.FriendlyId(),
        GetNewIncidentTextForMainIncidentChannel(row, stamp), UnresolvedIncidentColor);
      ghost var ns := DeclaredNotices(row);
      AppendFour(sent0, ns[0], ns[1], ns[2], ns[3]);
    }

    method AnnounceResolved(row: IncidentRow)
      modifies slack
      ensures slack.sent == old(slack.sent) + ResolvedNotices(row) && slack.hubs == old(slack.hubs)
    {
      SetChannelPurposeBasedOnIncidentStatus(row);
      SendMainIncidentChannelMessage("INCIDENT RESOLVED #" + row.FriendlyId(),
        GetResolvedIncidentTextWithoutIncidentId(row, stamp), ResolvedIncidentColor);
    }

    method AnnouncePostmortem(row: IncidentRow)
      modifies slack
      ensures slack.sent == old(slack.sent) + PostmortemNotices(row) && slack.hubs == old(slack.hubs)
    {
      slack.Post(PostmortemPost(mainIncidentChannel, "INCIDENT POSTMORTEM ADDED #" + row.FriendlyId(), row));
    }

    method AnnounceClosed(row: IncidentRow)
      modifies slack
      ensures slack.sent == old(slack.sent) + ClosedNotices(row) && slack.hubs == old(slack.hubs)
    {
      SetChannelPurposeBasedOnIncidentStatus(row);
      SetChannelTopicBasedOnIncidentStatus(row);
      SendMainIncidentChannelMessage("INCIDENT CLOSED #" + row.FriendlyId(),
        GetClosedIncidentTextWithoutIncidentId(row, stamp), ClosedIncidentColor);
    }

    /** Stores a new incident bound to `room` under the next row key of its
        date and announces it; a failing key lookup or insert ends with its
        error and announces nothing. */
    method OpenIncidentIn(room: Channel, incidentText: string, reportedByUser: string, now: Instant, freshId: Guid)
      returns (r: Result<Incident?, StorageError>)
      requires ValidDate(now.date)
      requires store != slack as object
      modifies store, slack
      ensures slack.hubs == old(slack.hubs)
      ensures match NextRowKey(old(store.rows), DateKey(now.date))
        case Err(e) => r == Err(e) && store.rows == old(store.rows) && slack.sent == old(slack.sent)
        case Ok(key) =>
          var row := DeclaredRow(incidentText, room, reportedByUser, now, freshId, key);
          match Inserted(old(store.rows), row)
          case Err(e) => r == Err(e) && store.rows == old(store.rows) && slack.sent == old(slack.sent)
          case Ok(t) =>
            && store.rows == t
            && r.Ok? && r.value != null && fresh(r.value) && r.value.Row() == row
            && slack.sent == old(slack.sent) + DeclaredNotices(row)
    {
      var incident := new Incident(incidentText, room, reportedByUser, now, freshId);
      var key := store.GetNextRowKey(incident.partitionKey);
      if key.Err? {
        return Err(key.error);
      }
      incident.SetRowKey(key.value);
      var persisted := store.PersistNewIncident(incident);
      if persisted.Err? {
        return Err(persisted.error);
      }
      AnnounceDeclared(incident.Row());
      return Ok(incident);
    }

    /** Declares an incident at instant `now` with Guid `freshId`: null when
        every war room is taken; otherwise the incident is stored with the
        next row key of its date and announced. A failing key lookup or
        insert ends the command with its error and announces nothing. */
    method DeclareNewIncident(incidentText: string, reportedByUser: string, now: Instant, freshId: Guid)
      returns (r: Result<Incident?, StorageError>)
      requires ValidDate(now.date)
      requires store != slack as object
      modifies store, slack
      ensures slack.hubs == old(slack.hubs)
      ensures var room := FreeWarRoom(old(store.rows), warRooms, old(slack.hubs));
        room.None? ==> r == Ok(null) && store.rows == old(store.rows) && slack.sent == old(slack.sent)
      ensures var room := FreeWarRoom(old(store.rows), warRooms, old(slack.hubs));
        room.Some? ==>
          match NextRowKey(old(store.rows), DateKey(now.date))
          case Err(e) => r == Err(e) && store.rows == old(store.rows) && slack.sent == old(slack.sent)
          case Ok(key) =>
            var row := DeclaredRow(incidentText, room.value, reportedByUser, now, freshId, key);
            match Inserted(old(store.rows), row)
            case Err(e) => r == Err(e) && store.rows == old(store.rows) && slack.sent == old(slack.sent)
            case Ok(t) =>
              && store.rows == t
              && r.Ok? && r.value != null && fresh(r.value) && r.value.Row() == row
              && slack.sent == old(slack.sent) + DeclaredNotices(row)
    {
      var assignedWarRoomChannel := GetAvailableWarRoomChannel();
      if assignedWarRoomChannel.None? {
        return Ok(null);
      }
      r := OpenIncidentIn(assignedWarRoomChannel.value, incidentText, reportedByUser, now, freshId);
    }

    /** Resolves the incident bound to a chat channel at instant `now`: null
        when there is none or it is already resolved; otherwise it is marked
        resolved by the actor, written back and announced. */
    method ResolveIncident(resolvedBy: string, incidentChannelId: string, now: Instant)
      returns (r: Result<Incident?, StorageError>)
      requires store != slack as object
      modifies store, slack
      ensures slack.hubs == old(slack.hubs)
      ensures var found := Latest(Query(old(store.rows), ChannelIdEquals(incidentChannelId)));
        found.None? || found.value.resolvedAt.Some? ==>
          r == Ok(null) && store.rows == old(store.rows) && slack.sent == old(slack.sent)
      ensures var found := Latest(Query(old(store.rows), ChannelIdEquals(incidentChannelId)));
        found.Some? && found.value.resolvedAt.None? ==>
          var row := found.value.(resolved := true, resolvedBy := Some(resolvedBy), resolvedAt := Some(now));
          match Replaced(old(store.rows), row)
          case Err(e) => r == Err(e) && store.rows == old(store.rows) && slack.sent == old(slack.sent)
          case Ok(t) =>
            && store.rows == t
            && r.Ok? && r.value != null && fresh(r.value) && r.value.Row() == row
            && slack.sent == old(slack.sent) + ResolvedNotices(row)
    {
      var incident := store.GetIncidentByChannelId(incidentChannelId);
      if incident == null || incident.resolvedAt.Some? {
        return Ok(null);
      }
      incident.MarkAsResolved(resolvedBy, now);
      var updated := store.UpdateIncident(incident);
      if updated.Err? {
        return Err(updated.error);
      }
      AnnounceResolved(incident.Row());
      return Ok(incident);
    }

    /** Attaches a postmortem link to the incident bound to a chat channel at
        instant `now`: null when there is none or it is closed; accepted
        before resolution and overwriting an earlier postmortem. */
    method UpdateIncidentWithPostmortem(postmortemLink: string, addedByUser: string, incidentChannelId: string, now: Instant)
      returns (r: Result<Incident?, StorageError>)
      requires store != slack as object
      modifies store, slack
      ensures slack.hubs == old(slack.hubs)
      ensures var found := Latest(Query(old(store.rows), ChannelIdEquals(incidentChannelId)));
        found.None? || found.value.closedAt.Some? ==>
          r == Ok(null) && store.rows == old(store.rows) && slack.sent == old(slack.sent)
      ensures var found := Latest(Query(old(store.rows), ChannelIdEquals(incidentChannelId)));
        found.Some? && found.value.closedAt.None? ==>
          var row := found.value.(postmortemAddedAt := Some(now), postmortemAddedBy := Some(addedByUser),
                                  postmortemLink := Some(postmortemLink));
          match Replaced(old(store.rows), row)
          case Err(e) => r == Err(e) && store.rows == old(store.rows) && slack.sent == old(slack.sent)
          case Ok(t) =>
            && store.rows == t
            && r.Ok? && r.value != null && fresh(r.value) && r.value.Row() == row
            && slack.sent == old(slack.sent) + PostmortemNotices(row)
    {
      var incident := store.GetIncidentByChannelId(incidentChannelId);
      if incident == null || incident.closedAt.Some? {
        return Ok(null);
      }
      incident.AddPostmortem(addedByUser, postmortemLink, now);
      var updated := store.UpdateIncident(incident);
      if updated.Err? {
        return Err(updated.error);
      }
      AnnouncePostmortem(incident.Row());
      return Ok(incident);
    }

    /** Closes the incident bound to a chat channel at instant `now`: only a
        resolved, not yet closed incident with a postmortem is closed; then
        it is written back and announced. */
    method CloseIncident(closedBy: string, incidentChannelId: string, now: Instant)
      returns (r: Result<Incident?, StorageError>)
      requires store != slack as object
      modifies store, slack
      ensures slack.hubs == old(slack.hubs)
      ensures var found := Latest(Query(old(store.rows), ChannelIdEquals(incidentChannelId)));
        (found.None? || found.value.resolvedAt.None? || found.value.closedAt.Some?
         || found.value.postmortemAddedAt.None?) ==>
          r == Ok(null) && store.rows == old(store.rows) && slack.sent == old(slack.sent)
      ensures var found := Latest(Query(old(store.rows), ChannelIdEquals(incidentChannelId)));
        (found.Some? && found.value.resolvedAt.Some? && found.value.closedAt.None?
         && found.value.postmortemAddedAt.Some?) ==>
          var row := found.value.(closed := true, closedBy := Some(closedBy), closedAt := Some(now));
          match Replaced(old(store.rows), row)
          case Err(e) => r == Err(e) && store.rows == old(store.rows) && slack.sent == old(slack.sent)
          case Ok(t) =>
            && store.rows == t
            && r.Ok? && r.value != null && fresh(r.value) && r.value.Row() == row
            && slack.sent == old(slack.sent) + ClosedNotices(row)
    {
      var incident := store.GetIncidentByChannelId(incidentChannelId);
      if incident == null || incident.resolvedAt.None? || incident.closedAt.Some? || incident.postmortemAddedAt.None? {
        return Ok(null);
      }
      incident.MarkAsClosed(closedBy, now);
      var updated := store.UpdateIncident(incident);
      if updated.Err? {
        return Err(updated.error);
      }
      AnnounceClosed(incident.Row());
      return Ok(incident);
    }

    /** The open incidents as list entries. */
    method GetOpenIncidents() returns (attachments: seq<Attachment>)
      ensures attachments == OpenIncidentList(Query(store.rows, ClosedEquals(false)), stamp)
    {
      var openIncidents := store.GetOpenIncidents();
      attachments := OpenIncidentList(openIncidents, stamp);
    }

    /** The incidents of the last seven days as list entries, built as the
        source builds them: a closed incident is listed among the resolved
        ones and again among the closed ones. */
    method GetRecentIncidents(today: Date) returns (r: Result<seq<Attachment>, StorageError>)
      requires ValidDate(today)
      ensures match RecentIncidents(store.rows, today)
        case Err(e) => r == Err(e)
        case Ok(recent) => r == Ok(RecentIncidentListAsWritten(recent, stamp))
    {
      var recentIncidents := store.GetRecentIncidents(today);
      if recentIncidents.Err? {
        return Err(recentIncidents.error);
      }
      return Ok(RecentIncidentListAsWritten(recentIncidents.value, stamp));
    }
  }

  /** Every incident a query returns from a table that obeys the lifecycle
      (the seven-day query among them) is listed exactly once by the
      corrected list. */
  lemma RecentListOfStoredIncidents(rows: seq<IncidentRow>, c: Condition, stamp: Instant -> string)
    requires AllLifecycle(rows)
    ensures var recent := Query(rows, c);
      exists unresolved, resolved, closed ::
        && RecentIncidentList(recent, stamp)
           == Attachments(unresolved, UnresolvedIncidentColor, stamp)
              + Attachments(resolved, ResolvedIncidentColor, stamp)
              + Attachments(closed, ClosedIncidentColor, stamp)
        && SortedByDeclared(unresolved) && SortedByDeclared(resolved) && SortedByDeclared(closed)
        && multiset(unresolved + resolved + closed) == multiset(recent)
  {
    QueryKeepsLifecycle(rows, c);
    RecentIncidentListOnce(Query(rows, c), stamp);
  }

  /** The list as written shows every incident a query returns from a table
      that obeys the lifecycle, and the closed ones a second time. */
  lemma RecentListAsWrittenOfStoredIncidents(rows: seq<IncidentRow>, c: Condition, stamp: Instant -> string)
    requires AllLifecycle(rows)
    ensures var recent := Query(rows, c);
      exists unresolved, resolved, closed ::
        && RecentIncidentListAsWritten(recent, stamp)
           == Attachments(unresolved, UnresolvedIncidentColor, stamp)
              + Attachments(resolved, ResolvedIncidentColor, stamp)
              + Attachments(closed, ClosedIncidentColor, stamp)
        && SortedByDeclared(unresolved) && SortedByDeclared(resolved) && SortedByDeclared(closed)
        && multiset(unresolved + resolved + closed) == multiset(recent) + multiset(Where(recent, Closed))
  {
    QueryKeepsLifecycle(rows, c);
    RecentListAsWrittenCountsClosedTwice(Query(rows, c), stamp);
  }

  /** The rows a query returns from a table that obeys the lifecycle obey it
      too. */
  lemma QueryKeepsLifecycle(rows: seq<IncidentRow>, c: Condition)
    requires AllLifecycle(rows)
    ensures AllLifecycle(Query(rows, c))
  {
    var q := Query(rows, c);
    QueryMembers(rows, c);
    forall i | 0 <= i < |q| ensures RowLifecycle(q[i]) {
      assert q[i] in rows;
    }
  }

  /** The incident a channel-id lookup finds in a sound table is stored at
      some index and obeys the lifecycle. */
  lemma FoundIsStored(rows: seq<IncidentRow>, channelId: string) returns (i: nat)
    requires Sound(rows)
    requires Latest(Query(rows, ChannelIdEquals(channelId))).Some?
    ensures i < |rows| && rows[i] == Latest(Query(rows, ChannelIdEquals(channelId))).value
    ensures RowLifecycle(rows[i])
  {
    QueryMembers(rows, ChannelIdEquals(channelId));
    i :| 0 <= i < |rows| && rows[i] == Latest(Query(rows, ChannelIdEquals(channelId))).value;
  }

  /** Resolving the unresolved incident of a channel in a sound table
      writes it back and keeps the table sound. */
  lemma ResolveKeepsSound(rows: seq<IncidentRow>, channelId: string, actor: string, now: Instant)
    requires Sound(rows)
    requires var found := Latest(Query(rows, ChannelIdEquals(channelId)));
      found.Some? && found.value.resolvedAt.None?
    ensures var found := Latest(Query(rows, ChannelIdEquals(channelId))).value;
      var row := found.(resolved := true, resolvedBy := Some(actor), resolvedAt := Some(now));
      Replaced(rows, row).Ok? && Sound(Replaced(rows, row).value)
  {
    var i := FoundIsStored(rows, channelId);
    UpdateKeepsSound(rows, i, rows[i].(resolved := true, resolvedBy := Some(actor), resolvedAt := Some(now)));
  }

  /** Attaching a postmortem to the open incident of a channel in a sound
      table writes it back and keeps the table sound. */
  lemma PostmortemKeepsSound(rows: seq<IncidentRow>, channelId: string, link: string, addedBy: string, now: Instant)
    requires Sound(rows)
    requires var found := Latest(Query(rows, ChannelIdEquals(channelId)));
      found.Some? && found.value.closedAt.None?
    ensures var found := Latest(Query(rows, ChannelIdEquals(channelId))).value;
      var row := found.(postmortemAddedAt := Some(now), postmortemAddedBy := Some(addedBy),
                        postmortemLink := Some(link));
      Replaced(rows, row).Ok? && Sound(Replaced(rows, row).value)
  {
    var i := FoundIsStored(rows, channelId);
    UpdateKeepsSound(rows, i, rows[i].(postmortemAddedAt := Some(now), postmortemAddedBy := Some(addedBy),
                                       postmortemLink := Some(link)));
  }

  /** Closing the resolved, postmortem-carrying, open incident of a channel
      in a sound table writes it back and keeps the table sound. */
  lemma CloseKeepsSound(rows: seq<IncidentRow>, channelId: string, actor: string, now: Instant)
    requires Sound(rows)
    requires var found := Latest(Query(rows, ChannelIdEquals(channelId)));
      found.Some? && found.value.resolvedAt.Some? && found.value.closedAt.None?
      && found.value.postmortemAddedAt.Some?
    ensures var found := Latest(Query(rows, ChannelIdEquals(channelId))).value;
      var row := found.(closed := true, closedBy := Some(actor), closedAt := Some(now));
      Replaced(rows, row).Ok? && Sound(Replaced(rows, row).value)
  {
    var i := FoundIsStored(rows, channelId);
    UpdateKeepsSound(rows, i, rows[i].(closed := true, closedBy := Some(actor), closedAt := Some(now)));
  }
}
