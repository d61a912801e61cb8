/**
 * The incident entity (Models/Incident.cs) and the war-room channel value
 * (Models/Channel.cs).
 *
 * An `Incident` object is what the plugin holds while it works on an
 * incident; its fields are assigned in place by the lifecycle mutators. The
 * table stores entities by value, so what it keeps of an incident is an
 * `IncidentRow`, the value `Row()` reads off the object's fields.
 */
module IncidentModels {
  import opened Wrappers
  import opened Decimal
  import opened Calendar

  /** A war room: the chat channel's id (null when the chat directory has no
      channel of that name) and its configured name. Both are readonly. */
  datatype Channel = Channel(id: Option<string>, name: string)

  /** `new Channel(channelId, channelName)`: the fields are the arguments,
      neither of which has to be present. */
  function NewChannel(channelId: Option<string>, channelName: string): (c: Channel)
    ensures c.id == channelId && c.name == channelName
  {
    Channel(channelId, channelName)
  }

  /** A Guid drawn from the injected id source. */
  type Guid = nat

  /** The stored form of an incident: its properties, keys included. Null
      strings and timestamps are None. */
  datatype IncidentRow = IncidentRow(
    id: Guid,
    partitionKey: string,
    rowKey: Option<string>,
    title: string,
    channelId: Option<string>,
    channelName: string,
    declaredBy: string,
    declaredAt: Instant,
    resolved: bool,
    resolvedBy: Option<string>,
    resolvedAt: Option<Instant>,
    postmortemLink: Option<string>,
    postmortemAddedBy: Option<string>,
    postmortemAddedAt: Option<Instant>,
    closed: bool,
    closedBy: Option<string>,
    closedAt: Option<Instant>)
  {
    /** `$"{PartitionKey}-{RowKey}"`; a null row key interpolates as "". */
    function FriendlyId(): (id: string)
      ensures |id| > |partitionKey| && id[..|partitionKey|] == partitionKey && id[|partitionKey|] == '-'
      ensures rowKey.Some? ==> id[|partitionKey| + 1..] == rowKey.value
    {
      partitionKey + "-" + (match rowKey case Some(k) => k case None => "")
    }

    /** The status text, from the two flags only. */
    function FriendlyStatus(): (s: string)
      ensures s == "IN-PROGRESS" <==> !resolved && !closed
      ensures s == "RESOLVED" <==> resolved && !closed
      ensures s == "CLOSED" <==> resolved && closed
      ensures s == "UNKNOWN" <==> !resolved && closed
    {
      var initial := "UNKNOWN";
      var afterOpen := if !resolved && !closed then "IN-PROGRESS" else initial;
      var afterResolved := if resolved && !closed then "RESOLVED" else afterOpen;
      if resolved && closed then "CLOSED" else afterResolved
    }
  }

  /** The incident the three-argument constructor builds at instant `now`
      with id `freshId`: keyed by the declaration date, no row key yet,
      neither resolved nor closed, no postmortem. */
  function NewIncidentRow(title: string, channel: Channel, declaredBy: string, now: Instant, freshId: Guid): (r: IncidentRow)
    requires ValidDate(now.date)
    ensures r.partitionKey == DateKey(now.date) && r.declaredAt == now && r.id == freshId
    ensures r.title == title && r.channelId == channel.id && r.channelName == channel.name
    ensures r.declaredBy == declaredBy
    ensures !r.resolved && !r.closed && r.rowKey.None?
    ensures r.resolvedAt.None? && r.closedAt.None? && r.postmortemAddedAt.None?
  {
    IncidentRow(freshId, DateKey(now.date), None, title, channel.id, channel.name, declaredBy, now,
      false, None, None, None, None, None, false, None, None)
  }

  /** A friendly id names the incident's keys: two stored incidents whose
      partition keys are dates and whose row keys are numbers have the same
      friendly id only if they have the same keys. */
  lemma FriendlyIdIdentifiesKeys(a: IncidentRow, b: IncidentRow, da: Date, db: Date, ka: int, kb: int)
    requires ValidDate(da) && ValidDate(db)
    requires a.partitionKey == DateKey(da) && a.rowKey == Some(IntToString(ka))
    requires b.partitionKey == DateKey(db) && b.rowKey == Some(IntToString(kb))
    requires a.FriendlyId() == b.FriendlyId()
    ensures a.partitionKey == b.partitionKey && a.rowKey == b.rowKey
  {
    var fa, fb := a.FriendlyId(), b.FriendlyId();
    assert |DateKey(da)| == 10 && |DateKey(db)| == 10;
    assert fa[..10] == a.partitionKey;
    assert fb[..10] == b.partitionKey;
    assert fa[11..] == IntToString(ka);
    assert fb[11..] == IntToString(kb);
  }

  /** Models/Incident.cs: a mutable incident entity. */
  class Incident {
    var id: Guid
    var partitionKey: string
    var rowKey: Option<string>
    var title: string
    var channelId: Option<string>
    var channelName: string
    var declaredBy: string
    var declaredAt: Instant
    var resolved: bool
    var resolvedBy: Option<string>
    var resolvedAt: Option<Instant>
    var postmortemLink: Option<string>
    var postmortemAddedBy: Option<string>
    var postmortemAddedAt: Option<Instant>
    var closed: bool
    var closedBy: Option<string>
    var closedAt: Option<Instant>

    /** The entity's current property values. */
    function Row(): IncidentRow
      reads this
    {
      IncidentRow(id, partitionKey, rowKey, title, channelId, channelName, declaredBy, declaredAt,
        resolved, resolvedBy, resolvedAt, postmortemLink, postmortemAddedBy, postmortemAddedAt,
        closed, closedBy, closedAt)
    }

    /** `new Incident(incidentTitle, channel, declaredBy)`, with the clock
        reading `now` and the Guid `freshId`. */
    constructor (incidentTitle: string, channel: Channel, declaredBy: string, now: Instant, freshId: Guid)
      requires ValidDate(now.date)
      ensures Row() == NewIncidentRow(incidentTitle, channel, declaredBy, now, freshId)
    {
      id := freshId;
      partitionKey := DateKey(now.date);
      rowKey := None;
      channelId := channel.id;
      channelName := channel.name;
      title := incidentTitle;
      this.declaredBy := declaredBy;
      declaredAt := now;
      resolved := false;
      resolvedBy := None;
      resolvedAt := None;
      postmortemLink := None;
      postmortemAddedBy := None;
      postmortemAddedAt := None;
      closed := false;
      closedBy := None;
      closedAt := None;
    }

    /** The parameterless constructor plus property setters, as the table
        client uses them to materialise a stored entity. */
    constructor FromRow(r: IncidentRow)
      ensures Row() == r
    {
      id, partitionKey, rowKey, title := r.id, r.partitionKey, r.rowKey, r.title;
      channelId, channelName, declaredBy, declaredAt := r.channelId, r.channelName, r.declaredBy, r.declaredAt;
      resolved, resolvedBy, resolvedAt := r.resolved, r.resolvedBy, r.resolvedAt;
      postmortemLink, postmortemAddedBy, postmortemAddedAt := r.postmortemLink, r.postmortemAddedBy, r.postmortemAddedAt;
      closed, closedBy, closedAt := r.closed, r.closedBy, r.closedAt;
    }

    /** Sets the resolution stamp, the resolver and the flag; nothing else. */
    method MarkAsResolved(actor: string, now: Instant)
      modifies this
      ensures Row() == old(Row()).(resolved := true, resolvedBy := Some(actor), resolvedAt := Some(now))
    {
      resolvedAt := Some(now);
      resolvedBy := Some(actor);
      resolved := true;
    }

    /** Sets the three postmortem fields, overwriting earlier ones; the
        resolved and closed flags are left alone. */
    method AddPostmortem(addedBy: string, link: string, now: Instant)
      modifies this
      ensures Row() == old(Row()).(postmortemAddedAt := Some(now), postmortemAddedBy := Some(addedBy),
                                   postmortemLink := Some(link))
    {
      postmortemAddedAt := Some(now);
      postmortemAddedBy := Some(addedBy);
      postmortemLink := Some(link);
    }

    /** Sets the closing stamp, the closer and the flag; nothing else. */
    method MarkAsClosed(actor: string, now: Instant)
      modifies this
      ensures Row() == old(Row()).(closed := true, closedBy := Some(actor), closedAt := Some(now))
    {
      closedAt := Some(now);
      closedBy := Some(actor);
      closed := true;
    }

    /** Stores the decimal rendering of `key` as the row key. */
    method SetRowKey(key: int)
      modifies this
      ensures Row() == old(Row()).(rowKey := Some(IntToString(key)))
    {
      rowKey := Some(IntToString(key));
    }
  }
}
