/**
 * The incident message texts (TextHelper.cs): the command text with its
 * prefix removed, and the summaries posted to the main incident channel and
 * to a war room.
 *
 * Timestamps are rendered by the culture-dependent `DateTime.ToString()`;
 * here that rendering is the parameter `stamp`. A null timestamp or a null
 * string interpolates as the empty string.
 */
module IncidentText {
  import opened Wrappers
  import opened Text
  import opened Calendar
  import opened IncidentModels

  /** A nullable timestamp as string interpolation renders it. */
  function StampText(stamp: Instant -> string, t: Option<Instant>): string
  {
    match t
    case None => ""
    case Some(v) => stamp(v)
  }

  /** A nullable string as string interpolation renders it. */
  function OrEmpty(s: Option<string>): string
  {
    match s
    case None => ""
    case Some(v) => v
  }

  /** `p` occurs somewhere in `s`. */
  ghost predicate Contains(s: string, p: string)
  {
    exists i: nat :: OccursAt(s, p, i)
  }

  /** `s` ends with `p`. */
  predicate EndsWith(s: string, p: string)
  {
    |p| <= |s| && s[|s| - |p|..] == p
  }

  /** None of the pieces holds a line break. */
  predicate OneLineEach(pieces: seq<string>)
  {
    forall i :: 0 <= i < |pieces| ==> '\n' !in pieces[i]
  }

  /** The command text: every occurrence of the prefix removed, then the
      surrounding white space trimmed. */
  function GetIncidentText(commandPrefix: string, message: string): (r: string)
    requires |commandPrefix| > 0
    ensures r == [] || (!IsWhiteSpace(r[0]) && !IsWhiteSpace(r[|r| - 1]))
    ensures (forall i: nat :: !OccursAt(message, commandPrefix, i)) ==> r == Trim(message)
  {
    var r := Trim(Replace(message, commandPrefix, ""));
    assert (forall i: nat :: !OccursAt(message, commandPrefix, i)) ==> r == Trim(message) by {
      if forall i: nat :: !OccursAt(message, commandPrefix, i) {
        ReplaceAbsent(message, commandPrefix, "");
      }
    }
    r
  }

  /** A command that starts with the prefix, whose rest does not contain it
      again, yields its rest trimmed. */
  lemma GetIncidentTextOfCommand(commandPrefix: string, rest: string)
    requires |commandPrefix| > 0
    requires forall i: nat :: !OccursAt(rest, commandPrefix, i)
    ensures GetIncidentText(commandPrefix, commandPrefix + rest) == Trim(rest)
  {
    var m := commandPrefix + rest;
    assert m[..|commandPrefix|] == commandPrefix;
    assert m[|commandPrefix|..] == rest;
    ReplaceAbsent(rest, commandPrefix, "");
    assert Replace(m, commandPrefix, "") == rest;
  }

  /** A joined text ends with its last piece. */
  lemma {:induction false} JoinEndsWithLast(lines: seq<string>, sep: string)
    requires |lines| >= 1
    ensures EndsWith(Join(lines, sep), lines[|lines| - 1])
  {
    if |lines| > 1 {
      JoinEndsWithLast(lines[1..], sep);
      var rest := Join(lines[1..], sep);
      assert Join(lines, sep) == lines[0] + sep + rest;
    }
  }

  /** A text contains its own head. */
  lemma ContainsHead(x: string, s: string)
    ensures Contains(x + s, x)
  {
    assert OccursAt(x + s, x, 0);
  }

  /** What a text contains, any text before it contains too. */
  lemma ContainsAfter(p: string, s: string, x: string)
    requires Contains(s, x)
    ensures Contains(p + s, x)
  {
    var i: nat :| OccursAt(s, x, i);
    assert (p + s)[|p| + i..|p| + i + |x|] == s[i..i + |x|];
    assert OccursAt(p + s, x, |p| + i);
  }

  /** No line break in `a + x + b` when there is none in any of the three. */
  lemma OneLine(a: string, x: string, b: string)
    requires '\n' !in a && '\n' !in x && '\n' !in b
    ensures '\n' !in a + x + b
  {
  }

  const DeclaredLabel: string := "Declared Timestamp: "
  const ReportedLabel: string := "Reported By: @"
  const BoundLabel: string := "Bound To Channel: #"
  const ResolvedLabel: string := "Resolved Timestamp: "
  const ResolvedByLabel: string := "Resolved By: @"
  const ClosedLabel: string := "Closed Timestamp: "
  const ClosedByLabel: string := "Closed By: @"
  const ChannelLabel: string := "Channel: #"
  const DescriptionLabel: string := "Description: "
  const Utc: string := " UTC"

  /** No label holds a line break. */
  lemma LabelsAreOneLine()
    ensures '\n' !in DeclaredLabel && '\n' !in ReportedLabel && '\n' !in BoundLabel
    ensures '\n' !in ResolvedLabel && '\n' !in ResolvedByLabel && '\n' !in ClosedLabel
    ensures '\n' !in ClosedByLabel && '\n' !in ChannelLabel && '\n' !in DescriptionLabel
    ensures '\n' !in Utc
  {
  }

  /** The four lines of the main-channel announcement of a new incident. */
  function MainChannelLines(incident: IncidentRow, stamp: Instant -> string): (lines: seq<string>)
    ensures |lines| == 4 && lines[3] == DescriptionLabel + incident.title
    ensures OneLineEach([stamp(incident.declaredAt), incident.declaredBy, incident.channelName, incident.title])
      ==> OneLineEach(lines)
  {
    var labels := [DeclaredLabel, ReportedLabel, BoundLabel, DescriptionLabel];
    var fields := [stamp(incident.declaredAt), incident.declaredBy, incident.channelName, incident.title];
    var lines := [ labels[0] + fields[0] + Utc,
                   labels[1] + fields[1] + "",
                   labels[2] + fields[2] + "",
                   labels[3] + fields[3] + "" ];
    assert OneLineEach(fields) ==> OneLineEach(lines) by {
      if OneLineEach(fields) {
        LabelsAreOneLine();
        OneLine(labels[0], fields[0], Utc);
        OneLine(labels[1], fields[1], "");
        OneLine(labels[2], fields[2], "");
        OneLine(labels[3], fields[3], "");
      }
    }
    lines
  }

  /** The announcement of a new incident in the main incident channel: four
      lines (declared timestamp, reporter, war room, description) when no
      field holds a line break, and it always ends with the description. */
  function GetNewIncidentTextForMainIncidentChannel(incident: IncidentRow, stamp: Instant -> string): (r: string)
    ensures OneLineEach([stamp(incident.declaredAt), incident.declaredBy, incident.channelName, incident.title])
      ==> SplitOn(r, '\n') == MainChannelLines(incident, stamp)
    ensures EndsWith(r, DescriptionLabel + incident.title)
  {
    var lines := MainChannelLines(incident, stamp);
    var r := Join(lines, "\n");
    JoinEndsWithLast(lines, "\n");
    assert OneLineEach(lines) ==> SplitOn(r, '\n') == lines by {
      if OneLineEach(lines) {
        SplitOnJoin(lines, '\n');
      }
    }
    r
  }

  /** What the war-room text says after naming the resolve command. */
  const ResolveHint: string := " once the incident has been mitigated, and remember to add people to the channel that might be able to help. Good luck!"

  /** The text posted into the war room an incident is bound to. */
  function GetNewIncidentTextForWarRoomChannel(incident: IncidentRow): (r: string)
    ensures Contains(r, incident.FriendlyId())
    ensures Contains(r, incident.title)
    ensures Contains(r, incident.declaredBy)
    ensures Contains(r, "`incident resolve`")
  {
    var command := "`incident resolve`";
    var tail := command + ResolveHint;
    var s4 := incident.declaredBy + (" and bound to this channel.\n" + ("Please run " + tail));
    var s3 := incident.title + ("' has been declared by @" + s4);
    var s2 := incident.FriendlyId() + (" regarding '" + s3);
    var r := "Incident #" + s2;
    ContainsHead(command, tail[|command|..]);
    assert tail == command + tail[|command|..];
    ContainsAfter("Please run ", tail, command);
    ContainsAfter(" and bound to this channel.\n", "Please run " + tail, command);
    ContainsAfter(incident.declaredBy, " and bound to this channel.\n" + ("Please run " + tail), command);
    ContainsHead(incident.declaredBy, " and bound to this channel.\n" + ("Please run " + tail));
    ContainsAfter("' has been declared by @", s4, command);
    ContainsAfter("' has been declared by @", s4, incident.declaredBy);
    ContainsHead(incident.title, "' has been declared by @" + s4);
    ContainsAfter(incident.title, "' has been declared by @" + s4, command);
    ContainsAfter(incident.title, "' has been declared by @" + s4, incident.declaredBy);
    ContainsAfter(" regarding '", s3, command);
    ContainsAfter(" regarding '", s3, incident.declaredBy);
    ContainsAfter(" regarding '", s3, incident.title);
    ContainsHead(incident.FriendlyId(), " regarding '" + s3);
    ContainsAfter(incident.FriendlyId(), " regarding '" + s3, command);
    ContainsAfter(incident.FriendlyId(), " regarding '" + s3, incident.declaredBy);
    ContainsAfter(incident.FriendlyId(), " regarding '" + s3, incident.title);
    ContainsAfter("Incident #", s2, command);
    ContainsAfter("Incident #", s2, incident.declaredBy);
    ContainsAfter("Incident #", s2, incident.title);
    ContainsAfter("Incident #", s2, incident.FriendlyId());
    r
  }

  /** The five lines of the resolution summary. */
  function ResolvedLines(incident: IncidentRow, stamp: Instant -> string): (lines: seq<string>)
    ensures |lines| == 5 && lines[4] == DescriptionLabel + incident.title
    ensures OneLineEach([stamp(incident.declaredAt), StampText(stamp, incident.resolvedAt),
                         OrEmpty(incident.resolvedBy), incident.channelName, incident.title])
      ==> OneLineEach(lines)
  {
    var labels := [DeclaredLabel, ResolvedLabel, ResolvedByLabel, ChannelLabel, DescriptionLabel];
    var fields := [stamp(incident.declaredAt), StampText(stamp, incident.resolvedAt), OrEmpty(incident.resolvedBy), incident.channelName, incident.title];
    var lines := [ labels[0] + fields[0] + Utc,
                   labels[1] + fields[1] + Utc,
                   labels[2] + fields[2] + "",
                   labels[3] + fields[3] + "",
                   labels[4] + fields[4] + "" ];
    assert OneLineEach(fields) ==> OneLineEach(lines) by {
      if OneLineEach(fields) {
        LabelsAreOneLine();
        OneLine(labels[0], fields[0], Utc);
        OneLine(labels[1], fields[1], Utc);
        OneLine(labels[2], fields[2], "");
        OneLine(labels[3], fields[3], "");
        OneLine(labels[4], fields[4], "");
      }
    }
    lines
  }

  /** The resolution summary (also the text of every list attachment): five
      lines when no field holds a line break, ending with the description. */
  function GetResolvedIncidentTextWithoutIncidentId(incident: IncidentRow, stamp: Instant -> string): (r: string)
    ensures OneLineEach([stamp(incident.declaredAt), StampText(stamp, incident.resolvedAt),
                         OrEmpty(incident.resolvedBy), incident.channelName, incident.title])
      ==> SplitOn(r, '\n') == ResolvedLines(incident, stamp)
    ensures EndsWith(r, DescriptionLabel + incident.title)
  {
    var lines := ResolvedLines(incident, stamp);
    var r := Join(lines, "\n");
    JoinEndsWithLast(lines, "\n");
    assert OneLineEach(lines) ==> SplitOn(r, '\n') == lines by {
      if OneLineEach(lines) {
        SplitOnJoin(lines, '\n');
      }
    }
    r
  }

  /** The six lines of the closing summary. */
  function ClosedLines(incident: IncidentRow, stamp: Instant -> string): (lines: seq<string>)
    ensures |lines| == 6 && lines[5] == DescriptionLabel + incident.title
    ensures OneLineEach([stamp(incident.declaredAt), StampText(stamp, incident.resolvedAt),
                         StampText(stamp, incident.closedAt), OrEmpty(incident.closedBy),
                         incident.channelName, incident.title])
      ==> OneLineEach(lines)
  {
    var labels := [DeclaredLabel, ResolvedLabel, ClosedLabel, ClosedByLabel, ChannelLabel, DescriptionLabel];
    var fields := [stamp(incident.declaredAt), StampText(stamp, incident.resolvedAt), StampText(stamp, incident.closedAt), OrEmpty(incident.closedBy), incident.channelName, incident.title];
    var lines := [ labels[0] + fields[0] + Utc,
                   labels[1] + fields[1] + Utc,
                   labels[2] + fields[2] + Utc,
                   labels[3] + fields[3] + "",
                   labels[4] + fields[4] + "",
                   labels[5] + fields[5] + "" ];
    assert OneLineEach(fields) ==> OneLineEach(lines) by {
      if OneLineEach(fields) {
        LabelsAreOneLine();
        OneLine(labels[0], fields[0], Utc);
        OneLine(labels[1], fields[1], Utc);
        OneLine(labels[2], fields[2], Utc);
        OneLine(labels[3], fields[3], "");
        OneLine(labels[4], fields[4], "");
        OneLine(labels[5], fields[5], "");
      }
    }
    lines
  }

  /** The closing summary: the resolution summary's lines with the closing
      timestamp and the closer in place of the resolver, six lines in all,
      ending with the description. */
  function GetClosedIncidentTextWithoutIncidentId(incident: IncidentRow, stamp: Instant -> string): (r: string)
    ensures OneLineEach([stamp(incident.declaredAt), StampText(stamp, incident.resolvedAt),
                         StampText(stamp, incident.closedAt), OrEmpty(incident.closedBy),
                         incident.channelName, incident.title])
      ==> SplitOn(r, '\n') == ClosedLines(incident, stamp)
    ensures EndsWith(r, DescriptionLabel + incident.title)
  {
    var lines := ClosedLines(incident, stamp);
    var r := Join(lines, "\n");
    JoinEndsWithLast(lines, "\n");
    assert OneLineEach(lines) ==> SplitOn(r, '\n') == lines by {
      if OneLineEach(lines) {
        SplitOnJoin(lines, '\n');
      }
    }
    r
  }
}
