/** The calendar writer: event blocks, the document, and the dates in them. */
module IcsDocument {
  import opened Primitives
  import opened IcsText
  import opened IcsFolding

  const HOUR_MS: int := 60 * 60 * 1000
  const DAY_MS: int := 24 * HOUR_MS
  const MAX_TIME: int := 8_640_000_000_000_000

  const CALENDAR_NAME: string := "AgenticPay"

  type Instant = t: int | -MAX_TIME <= t <= MAX_TIME

  datatype Date = InvalidDate | At(ms: Instant)

  /** What the UTC getters return for one instant; months count from 0. */
  datatype Moment = Moment(year: int, month: nat, day: nat, hours: nat, minutes: nat, seconds: nat)

  datatype ICSEvent = ICSEvent(
    uid: string,
    summary: string,
    description: Option<string>,
    location: Option<string>,
    start: Date,
    end: Option<Date>,
    allDay: Option<bool>)

  function Decimal(n: nat): string {
    if n < 10 then ['0' + n as char] else Decimal(n / 10) + ['0' + (n % 10) as char]
  }

  function IntText(n: int): string {
    if n < 0 then "-" + Decimal(-n) else Decimal(n)
  }

  /** `String(value).padStart(2, '0')`. */
  function Pad(n: nat): string {
    if n < 10 then "0" + Decimal(n) else Decimal(n)
  }

  function FormatDay(m: Moment): string {
    IntText(m.year) + Pad(m.month + 1) + Pad(m.day)
  }

  function FormatICSDate(d: Date, utc: int -> Moment): string {
    match d
    case InvalidDate => "NaNNaNNaN"
    case At(ms) => FormatDay(utc(ms))
  }

  function FormatICSDateTime(d: Date, utc: int -> Moment): string {
    match d
    case InvalidDate => FormatICSDate(d, utc) + "TNaNNaNNaNZ"
    case At(ms) =>
      var m := utc(ms);
      FormatICSDate(d, utc) + "T" + Pad(m.hours) + Pad(m.minutes) + Pad(m.seconds) + "Z"
  }

  /** `new Date(start.getTime() + delta)`: past the last instant there is no valid date. */
  function Later(start: Instant, delta: nat): Date {
    if start + delta <= MAX_TIME then At(start + delta) else InvalidDate
  }

  predicate Usable(e: ICSEvent) {
    e.uid != "" && e.summary != "" && e.start.At?
  }

  predicate IsAllDay(e: ICSEvent) {
    e.allDay.None? || e.allDay.value
  }

  function EndOf(e: ICSEvent): Date
    requires Usable(e)
  {
    if e.end.Some? && e.end.value.At? then e.end.value
    else Later(e.start.ms, if IsAllDay(e) then DAY_MS else HOUR_MS)
  }

  function UidLine(e: ICSEvent): string {
    "UID:" + EscapeICSText(e.uid)
  }

  function StampLine(now: Date, utc: int -> Moment): string {
    "DTSTAMP:" + FormatICSDateTime(now, utc)
  }

  function StartLine(e: ICSEvent, utc: int -> Moment): string {
    if IsAllDay(e) then "DTSTART;VALUE=DATE:" + FormatICSDate(e.start, utc)
    else "DTSTART:" + FormatICSDateTime(e.start, utc)
  }

  function EndLine(e: ICSEvent, utc: int -> Moment): string
    requires Usable(e)
  {
    if IsAllDay(e) then "DTEND;VALUE=DATE:" + FormatICSDate(EndOf(e), utc)
    else "DTEND:" + FormatICSDateTime(EndOf(e), utc)
  }

  function SummaryLine(e: ICSEvent): string {
    "SUMMARY:" + EscapeICSText(e.summary)
  }

  function DescriptionLines(e: ICSEvent): seq<string> {
    if e.description.Some? && e.description.value != "" then ["DESCRIPTION:" + EscapeICSText(e.description.value)]
    else []
  }

  function LocationLines(e: ICSEvent): seq<string> {
    if e.location.Some? && e.location.value != "" then ["LOCATION:" + EscapeICSText(e.location.value)]
    else []
  }

  /** What goes between `BEGIN:VEVENT` and `END:VEVENT`. */
  function BodyLines(e: ICSEvent, now: Date, utc: int -> Moment): seq<string>
    requires Usable(e)
  {
    [UidLine(e)] + [StampLine(now, utc)] + [StartLine(e, utc)] + [EndLine(e, utc)] + [SummaryLine(e)]
    + DescriptionLines(e) + LocationLines(e)
  }

  function EventLines(e: ICSEvent, now: Date, utc: int -> Moment): seq<string> {
    if Usable(e) then ["BEGIN:VEVENT"] + BodyLines(e, now, utc) + ["END:VEVENT"] else []
  }

  function AllEventLines(events: seq<ICSEvent>, now: Date, utc: int -> Moment): seq<string> {
    if events == [] then []
    else AllEventLines(events[..|events| - 1], now, utc) + EventLines(events[|events| - 1], now, utc)
  }

  function CalendarHeader(name: string): seq<string> {
    [ "BEGIN:VCALENDAR",
      "VERSION:2.0",
      "PRODID:-//AgenticPay//Calendar Export//EN",
      "CALSCALE:GREGORIAN",
      "METHOD:PUBLISH",
      "X-WR-CALNAME:" + name ]
  }

  function HeaderLines(): seq<string> {
    CalendarHeader(EscapeICSText(CALENDAR_NAME))
  }

  function ContentLines(events: seq<ICSEvent>, now: Date, utc: int -> Moment): seq<string> {
    HeaderLines() + AllEventLines(events, now, utc) + ["END:VCALENDAR"]
  }

  function FoldAll(lines: seq<string>): (texts: seq<string>)
    ensures |texts| == |lines|
    ensures forall i :: 0 <= i < |lines| ==> texts[i] == Join(Fold(lines[i]))
  {
    if lines == [] then [] else [Join(Fold(lines[0]))] + FoldAll(lines[1..])
  }

  function Document(events: seq<ICSEvent>, now: Date, utc: int -> Moment): string {
    Join(FoldAll(ContentLines(events, now, utc)))
  }

  lemma InOrder(begin: string, uid: string, stamp: string, start: string, end: string, summary: string,
                description: seq<string>, location: seq<string>)
    ensures [begin, uid] + [stamp] + [start, end] + [summary] + description + location
            == [begin] + ([uid] + [stamp] + [start] + [end] + [summary] + description + location)
  {
  }

  method SerializeEvent(event: ICSEvent, now: Date, utc: int -> Moment) returns (block: Option<seq<string>>)
    ensures block == if Usable(event) then Some(EventLines(event, now, utc)) else None
  {
    if event.uid == "" || event.summary == "" || !event.start.At? {
      return None;
    }
    var lines := ["BEGIN:VEVENT", UidLine(event)];
    lines := lines + [StampLine(now, utc)];
    lines := PushDates(lines, event, utc);
    lines := lines + [SummaryLine(event)];
    lines := PushDetails(lines, event);
    InOrder("BEGIN:VEVENT", UidLine(event), StampLine(now, utc), StartLine(event, utc), EndLine(event, utc),
      SummaryLine(event), DescriptionLines(event), LocationLines(event));
    return Some(lines + ["END:VEVENT"]);
  }

  method PushDates(before: seq<string>, event: ICSEvent, utc: int -> Moment) returns (lines: seq<string>)
    requires Usable(event)
    ensures lines == before + [StartLine(event, utc), EndLine(event, utc)]
  {
    lines := before;
    var allDay := if event.allDay.Some? then event.allDay.value else true;
    if allDay {
      var endDate := if event.end.Some? && event.end.value.At? then event.end.value else Later(event.start.ms, DAY_MS);
      lines := lines + ["DTSTART;VALUE=DATE:" + FormatICSDate(event.start, utc)];
      lines := lines + ["DTEND;VALUE=DATE:" + FormatICSDate(endDate, utc)];
    } else {
      var end := if event.end.Some? && event.end.value.At? then event.end.value else Later(event.start.ms, HOUR_MS);
      lines := lines + ["DTSTART:" + FormatICSDateTime(event.start, utc)];
      lines := lines + ["DTEND:" + FormatICSDateTime(end, utc)];
    }
  }

  method PushDetails(before: seq<string>, event: ICSEvent) returns (lines: seq<string>)
    ensures lines == before + DescriptionLines(event) + LocationLines(event)
  {
    lines := before;
    if event.description.Some? && event.description.value != "" {
      lines := lines + ["DESCRIPTION:" + EscapeICSText(event.description.value)];
    }
    if event.location.Some? && event.location.value != "" {
      lines := lines + ["LOCATION:" + EscapeICSText(event.location.value)];
    }
  }

  method GenerateICS(events: seq<ICSEvent>, now: Date, utc: int -> Moment) returns (text: string)
    ensures text == Document(events, now, utc)
  {
    var lines := PushEvents(HeaderLines(), events, now, utc);
    lines := lines + ["END:VCALENDAR"];
    var texts := FoldEach(lines);
    return Join(texts);
  }

  lemma Appended(header: seq<string>, a: seq<string>, b: seq<string>)
    ensures header + (a + b) == header + a + b
    ensures b == [] ==> header + a + b == header + a
  {
  }

  lemma NextEvent(header: seq<string>, events: seq<ICSEvent>, i: nat, now: Date, utc: int -> Moment)
    requires i < |events|
    ensures var done := header + AllEventLines(events[..i], now, utc);
            && header + AllEventLines(events[..i + 1], now, utc) == done + EventLines(events[i], now, utc)
            && (!Usable(events[i]) ==> header + AllEventLines(events[..i + 1], now, utc) == done)
  {
    assert events[..i + 1][..i] == events[..i];
    Appended(header, AllEventLines(events[..i], now, utc), EventLines(events[i], now, utc));
  }

  method PushEvents(header: seq<string>, events: seq<ICSEvent>, now: Date, utc: int -> Moment)
    returns (lines: seq<string>)
    ensures lines == header + AllEventLines(events, now, utc)
  {
    lines := header;
    for i := 0 to |events|
      invariant lines == header + AllEventLines(events[..i], now, utc)
    {
      NextEvent(header, events, i, now, utc);
      var serialized := SerializeEvent(events[i], now, utc);
      if serialized.Some? {
        lines := lines + serialized.value;
      }
    }
    assert events[..|events|] == events;
  }

  lemma {:induction false} FoldAllAppend(lines: seq<string>, last: string, text: string)
    requires text == Join(Fold(last))
    ensures FoldAll(lines + [last]) == FoldAll(lines) + [text]
  {
    if lines == [] {
      assert FoldAll([last][1..]) == [];
      assert [] + [last] == [last];
    } else {
      FoldAllAppend(lines[1..], last, text);
      assert (lines + [last])[1..] == lines[1..] + [last] && (lines + [last])[0] == lines[0];
    }
  }

  /** `lines.map(foldICSLine)`. */
  method FoldEach(lines: seq<string>) returns (texts: seq<string>)
    ensures texts == FoldAll(lines)
  {
    texts := [];
    for i := 0 to |lines|
      invariant texts == FoldAll(lines[..i])
    {
      var folded := FoldICSLine(lines[i]);
      assert lines[..i + 1] == lines[..i] + [lines[i]];
      FoldAllAppend(lines[..i], lines[i], folded);
      texts := texts + [folded];
    }
    assert lines[..|lines|] == lines;
  }

  // ----- Dates are whole numbers in a fixed layout -----

  predicate IsDigits(s: string) {
    forall i :: 0 <= i < |s| ==> '0' <= s[i] <= '9'
  }

  function ReadNat(s: string): (n: nat)
    requires IsDigits(s)
  {
    if s == "" then 0 else 10 * ReadNat(s[..|s| - 1]) + (s[|s| - 1] - '0') as nat
  }

  lemma {:induction false} DecimalReads(n: nat)
    ensures IsDigits(Decimal(n)) && ReadNat(Decimal(n)) == n && Decimal(n) != ""
  {
    if n < 10 {
      assert ReadNat(['0' + n as char][..0]) == 0;
    } else {
      DecimalReads(n / 10);
      var s := Decimal(n);
      assert s[..|s| - 1] == Decimal(n / 10);
    }
  }

  lemma {:induction false} DecimalWidth(n: nat)
    ensures |Decimal(n)| >= 1
    ensures n < 10 ==> |Decimal(n)| == 1
    ensures 10 <= n < 100 ==> |Decimal(n)| == 2
    ensures 100 <= n < 1000 ==> |Decimal(n)| == 3
    ensures 1000 <= n < 10000 ==> |Decimal(n)| == 4
    ensures 10000 <= n ==> |Decimal(n)| > 4
  {
    if n >= 10 {
      DecimalWidth(n / 10);
      assert |Decimal(n)| == |Decimal(n / 10)| + 1;
    }
  }

  lemma PadReads(n: nat)
    requires n < 100
    ensures |Pad(n)| == 2 && IsDigits(Pad(n)) && ReadNat(Pad(n)) == n
  {
    DecimalReads(n);
    DecimalWidth(n);
    if n < 10 {
      assert Pad(n)[..1] == "0" && "0"[..0] == "";
    }
  }

  function ReadDay(s: string): Option<(nat, nat, nat)> {
    if |s| == 8 && IsDigits(s) then Some((ReadNat(s[..4]), ReadNat(s[4..6]), ReadNat(s[6..]))) else None
  }

  lemma ReadSlices(y: string, mm: string, dd: string)
    requires IsDigits(y) && IsDigits(mm) && IsDigits(dd) && |mm| == |dd| == 2
    ensures ReadDay(y + mm + dd) == if |y| == 4 then Some((ReadNat(y), ReadNat(mm), ReadNat(dd))) else None
  {
    var s := y + mm + dd;
    assert IsDigits(y + mm);
    if |y| == 4 {
      assert s[..4] == y && s[4..6] == mm && s[6..] == dd;
    }
  }

  /** A date reads back exactly when its year has four digits: years are not padded, and an earlier year has a sign. */
  lemma DateReadsBack(m: Moment)
    requires m.month < 12 && m.day < 100
    ensures ReadDay(FormatDay(m))
            == if 1000 <= m.year < 10000 then Some((m.year, m.month + 1, m.day)) else None
  {
    PadReads(m.month + 1);
    PadReads(m.day);
    if m.year < 0 {
      assert FormatDay(m)[0] == '-';
    } else {
      DecimalReads(m.year);
      DecimalWidth(m.year);
      ReadSlices(Decimal(m.year), Pad(m.month + 1), Pad(m.day));
    }
  }

  /** Date, hours, minutes and seconds of a UTC date-time. */
  function ReadDateTime(s: string): Option<((nat, nat, nat), nat, nat, nat)> {
    if |s| == 16 && s[8] == 'T' && s[15] == 'Z' && ReadDay(s[..8]).Some?
       && IsDigits(s[9..11]) && IsDigits(s[11..13]) && IsDigits(s[13..15])
    then Some((ReadDay(s[..8]).value, ReadNat(s[9..11]), ReadNat(s[11..13]), ReadNat(s[13..15])))
    else None
  }

  lemma Slices(day: string, t: string, hh: string, mm: string, ss: string, z: string)
    requires |t| == |z| == 1 && |hh| == |mm| == |ss| == 2
    ensures var s := day + t + hh + mm + ss + z;
            && |s| == |day| + 8
            && (|day| == 8 ==>
                  && s[..8] == day && s[8] == t[0] && s[15] == z[0]
                  && s[9..11] == hh && s[11..13] == mm && s[13..15] == ss)
  {
  }

  lemma ReadParts(day: string, hh: string, mm: string, ss: string)
    requires IsDigits(hh) && IsDigits(mm) && IsDigits(ss) && |hh| == |mm| == |ss| == 2
    ensures ReadDateTime(day + "T" + hh + mm + ss + "Z")
            == if |day| != 8 || ReadDay(day) == None then None
               else Some((ReadDay(day).value, ReadNat(hh), ReadNat(mm), ReadNat(ss)))
  {
    Slices(day, "T", hh, mm, ss, "Z");
  }

  /** A date-time reads back as the moment it was written for, again exactly when its year has four digits. */
  lemma DateTimeReadsBack(ms: Instant, utc: int -> Moment)
    requires var m := utc(ms); m.month < 12 && m.day < 100 && m.hours < 100 && m.minutes < 100 && m.seconds < 100
    ensures var m := utc(ms);
            ReadDateTime(FormatICSDateTime(At(ms), utc))
            == if m.year < 1000 || m.year >= 10000 then None
               else Some(((m.year, m.month + 1, m.day), m.hours, m.minutes, m.seconds))
  {
    var m := utc(ms);
    DateReadsBack(m);
    PadReads(m.hours);
    PadReads(m.minutes);
    PadReads(m.seconds);
    ReadParts(FormatDay(m), Pad(m.hours), Pad(m.minutes), Pad(m.seconds));
  }

  /** An end past the last instant is still written, as text that is not a date. */
  lemma LateEndIsNoDate(e: ICSEvent, utc: int -> Moment)
    requires Usable(e) && (e.end == None || e.end == Some(InvalidDate))
    requires e.start.ms > 8_640_000_000_000_000 - 3_600_000
    ensures FormatICSDate(EndOf(e), utc) != "" && ReadDay(FormatICSDate(EndOf(e), utc)) == None
    ensures FormatICSDateTime(EndOf(e), utc) != "" && ReadDateTime(FormatICSDateTime(EndOf(e), utc)) == None
  {
    assert FormatICSDate(EndOf(e), utc)[0] == 'N';
    assert FormatICSDateTime(EndOf(e), utc)[0] == 'N';
  }
}
