/** A generated calendar reads back as the usable events, whatever their texts contain. */
module IcsRoundTrip {
  import opened Primitives
  import opened IcsText
  import opened IcsFolding
  import opened IcsDocument
  import opened IcsReading

  // ----- Properties -----

  predicate NoColon(s: string) {
    forall i :: 0 <= i < |s| ==> s[i] != ':'
  }

  lemma {:induction false} ParseText(name: string, value: string)
    requires NoColon(name)
    ensures ParseLine(name + (":" + value)) == Property(name, value)
  {
    var line := name + (":" + value);
    if name == "" {
      assert line == ":" + value && line[1..] == value;
    } else {
      ParseText(name[1..], value);
      assert line[1..] == name[1..] + (":" + value) && line[0] == name[0];
      assert [name[0]] + name[1..] == name;
    }
  }

  lemma {:induction false} ParseConcat(a: seq<string>, b: seq<string>)
    ensures ParseEach(a + b) == ParseEach(a) + ParseEach(b)
  {
    if a == [] {
      assert a + b == b;
    } else {
      ParseConcat(a[1..], b);
      assert (a + b)[1..] == a[1..] + b && (a + b)[0] == a[0];
    }
  }

  lemma ParseOne(line: string)
    ensures ParseEach([line]) == [ParseLine(line)]
  {
    assert [line][1..] == [];
  }

  function Or(a: Option<string>, b: Option<string>): Option<string> {
    if a.Some? then a else b
  }

  lemma {:induction false} FieldConcat(a: seq<Property>, b: seq<Property>, name: string)
    ensures Field(a + b, name) == Or(Field(a, name), Field(b, name))
  {
    if a == [] {
      assert a + b == b;
    } else {
      FieldConcat(a[1..], b, name);
      assert (a + b)[1..] == a[1..] + b && (a + b)[0] == a[0];
    }
  }

  /** The first of the lists that has the field decides it. */
  lemma FieldOfSeven(a: seq<Property>, b: seq<Property>, c: seq<Property>, d: seq<Property>, e: seq<Property>,
                     f: seq<Property>, g: seq<Property>, name: string)
    ensures Field(a + b + c + d + e + f + g, name)
            == Or(Or(Or(Or(Or(Or(Field(a, name), Field(b, name)), Field(c, name)), Field(d, name)), Field(e, name)),
               Field(f, name)), Field(g, name))
  {
    var ab := a + b;
    var abc := ab + c;
    var abcd := abc + d;
    var abcde := abcd + e;
    FieldConcat(abcde + f, g, name);
    FieldConcat(abcde, f, name);
    FieldConcat(abcd, e, name);
    FieldConcat(abc, d, name);
    FieldConcat(ab, c, name);
    FieldConcat(a, b, name);
  }

  lemma ParseSeven(a: seq<string>, b: seq<string>, c: seq<string>, d: seq<string>, e: seq<string>,
                   f: seq<string>, g: seq<string>)
    ensures ParseEach(a + b + c + d + e + f + g)
            == ParseEach(a) + ParseEach(b) + ParseEach(c) + ParseEach(d) + ParseEach(e) + ParseEach(f) + ParseEach(g)
  {
    ParseConcat(a + b + c + d + e + f, g);
    ParseConcat(a + b + c + d + e, f);
    ParseConcat(a + b + c + d, e);
    ParseConcat(a + b + c, d);
    ParseConcat(a + b, c);
    ParseConcat(a, b);
  }

  lemma FieldOfOne(p: Property, name: string)
    ensures Field([p], name) == if p.name == name then Some(p.value) else None
  {
    assert [p][1..] == [];
  }

  /** The properties of an event, in the order they are written. */
  function UidProperty(e: ICSEvent): Property {
    Property("UID", EscapeICSText(e.uid))
  }

  function StampProperty(now: Date, utc: int -> Moment): Property {
    Property("DTSTAMP", FormatICSDateTime(now, utc))
  }

  function StartProperty(e: ICSEvent, utc: int -> Moment): Property {
    if IsAllDay(e) then Property("DTSTART;VALUE=DATE", FormatICSDate(e.start, utc))
    else Property("DTSTART", FormatICSDateTime(e.start, utc))
  }

  function EndProperty(e: ICSEvent, utc: int -> Moment): Property
    requires Usable(e)
  {
    if IsAllDay(e) then Property("DTEND;VALUE=DATE", FormatICSDate(EndOf(e), utc))
    else Property("DTEND", FormatICSDateTime(EndOf(e), utc))
  }

  function SummaryProperty(e: ICSEvent): Property {
    Property("SUMMARY", EscapeICSText(e.summary))
  }

  function OptionalProperty(name: string, text: Option<string>): seq<Property> {
    if text.Some? && text.value != "" then [Property(name, EscapeICSText(text.value))] else []
  }

  function Properties(e: ICSEvent, now: Date, utc: int -> Moment): seq<Property>
    requires Usable(e)
  {
    [UidProperty(e)] + [StampProperty(now, utc)] + [StartProperty(e, utc)] + [EndProperty(e, utc)]
    + [SummaryProperty(e)] + OptionalProperty("DESCRIPTION", e.description) + OptionalProperty("LOCATION", e.location)
  }

  lemma ParseLineIs(head: string, name: string, value: string)
    requires NoColon(name) && head == name + ":"
    ensures ParseEach([head + value]) == [Property(name, value)]
  {
    ParseText(name, value);
    ParseOne(head + value);
    Assoc(name, ":", value);
  }

  lemma ParseTexts(v: string)
    ensures ParseEach(["UID:" + v]) == [Property("UID", v)]
    ensures ParseEach(["SUMMARY:" + v]) == [Property("SUMMARY", v)]
    ensures ParseEach(["DESCRIPTION:" + v]) == [Property("DESCRIPTION", v)]
    ensures ParseEach(["LOCATION:" + v]) == [Property("LOCATION", v)]
  {
    ParseLineIs("UID:", "UID", v);
    ParseLineIs("SUMMARY:", "SUMMARY", v);
    ParseLineIs("DESCRIPTION:", "DESCRIPTION", v);
    ParseLineIs("LOCATION:", "LOCATION", v);
  }

  lemma ParseTimes(v: string)
    ensures ParseEach(["DTSTAMP:" + v]) == [Property("DTSTAMP", v)]
    ensures ParseEach(["DTSTART:" + v]) == [Property("DTSTART", v)]
    ensures ParseEach(["DTEND:" + v]) == [Property("DTEND", v)]
  {
    ParseLineIs("DTSTAMP:", "DTSTAMP", v);
    ParseLineIs("DTSTART:", "DTSTART", v);
    ParseLineIs("DTEND:", "DTEND", v);
  }

  lemma ParseDays(v: string)
    ensures ParseEach(["DTSTART;VALUE=DATE:" + v]) == [Property("DTSTART;VALUE=DATE", v)]
    ensures ParseEach(["DTEND;VALUE=DATE:" + v]) == [Property("DTEND;VALUE=DATE", v)]
  {
    ParseLineIs("DTSTART;VALUE=DATE:", "DTSTART;VALUE=DATE", v);
    ParseLineIs("DTEND;VALUE=DATE:", "DTEND;VALUE=DATE", v);
  }

  lemma ParseOptionalLines(e: ICSEvent)
    ensures ParseEach(DescriptionLines(e)) == OptionalProperty("DESCRIPTION", e.description)
    ensures ParseEach(LocationLines(e)) == OptionalProperty("LOCATION", e.location)
  {
    if e.description.Some? {
      ParseTexts(EscapeICSText(e.description.value));
    }
    if e.location.Some? {
      ParseTexts(EscapeICSText(e.location.value));
    }
  }

  lemma ParseStart(e: ICSEvent, utc: int -> Moment)
    ensures ParseEach([StartLine(e, utc)]) == [StartProperty(e, utc)]
  {
    if IsAllDay(e) {
      ParseDays(FormatICSDate(e.start, utc));
    } else {
      ParseTimes(FormatICSDateTime(e.start, utc));
    }
  }

  lemma ParseEnd(e: ICSEvent, utc: int -> Moment)
    requires Usable(e)
    ensures ParseEach([EndLine(e, utc)]) == [EndProperty(e, utc)]
  {
    if IsAllDay(e) {
      ParseDays(FormatICSDate(EndOf(e), utc));
    } else {
      ParseTimes(FormatICSDateTime(EndOf(e), utc));
    }
  }

  lemma ParseBody(e: ICSEvent, now: Date, utc: int -> Moment)
    requires Usable(e)
    ensures ParseEach(BodyLines(e, now, utc)) == Properties(e, now, utc)
  {
    ParseSeven([UidLine(e)], [StampLine(now, utc)], [StartLine(e, utc)], [EndLine(e, utc)], [SummaryLine(e)],
      DescriptionLines(e), LocationLines(e));
    ParseTexts(EscapeICSText(e.uid));
    ParseTexts(EscapeICSText(e.summary));
    ParseTimes(FormatICSDateTime(now, utc));
    ParseStart(e, utc);
    ParseEnd(e, utc);
    ParseOptionalLines(e);
  }

  // ----- Each field is found -----

  lemma FieldInProperties(e: ICSEvent, now: Date, utc: int -> Moment, name: string)
    requires Usable(e) && name != "DTSTAMP"
    ensures Field(Properties(e, now, utc), name)
            == if name == "UID" then Some(EscapeICSText(e.uid))
               else if name == StartProperty(e, utc).name then Some(StartProperty(e, utc).value)
               else if name == EndProperty(e, utc).name then Some(EndProperty(e, utc).value)
               else if name == "SUMMARY" then Some(EscapeICSText(e.summary))
               else Or(Field(OptionalProperty("DESCRIPTION", e.description), name),
                       Field(OptionalProperty("LOCATION", e.location), name))
  {
    var u, st, s, d, sm := UidProperty(e), StampProperty(now, utc), StartProperty(e, utc), EndProperty(e, utc),
                           SummaryProperty(e);
    FieldOfSeven([u], [st], [s], [d], [sm], OptionalProperty("DESCRIPTION", e.description),
      OptionalProperty("LOCATION", e.location), name);
    FieldOfOne(u, name);
    FieldOfOne(st, name);
    FieldOfOne(s, name);
    FieldOfOne(d, name);
    FieldOfOne(sm, name);
  }

  lemma FieldOfOptional(own: string, text: Option<string>, name: string)
    ensures own != name ==> Field(OptionalProperty(own, text), name) == None
    ensures own == name ==> TextOf(Field(OptionalProperty(own, text), name)) == NonEmptyText(text)
  {
    if text.Some? {
      var value := EscapeICSText(text.value);
      EscapeRoundTrip(text.value);
      FieldOfOne(Property(own, value), name);
    }
  }

  /** The names are pairwise different. */
  lemma NamesDiffer()
    ensures "DTSTAMP" != "SUMMARY" && "DTSTART" != "SUMMARY" && "DTSTAMP" != "DTSTART"
  {
    assert "DTSTAMP"[0] != "SUMMARY"[0] && "DTSTART"[0] != "SUMMARY"[0] && "DTSTAMP"[5] != "DTSTART"[5];
  }

  lemma ReadRequired(e: ICSEvent, now: Date, utc: int -> Moment)
    requires Usable(e)
    ensures TextOf(Field(Properties(e, now, utc), "UID")) == Some(NormaliseBreaks(e.uid))
    ensures TextOf(Field(Properties(e, now, utc), "SUMMARY")) == Some(NormaliseBreaks(e.summary))
  {
    NamesDiffer();
    FieldInProperties(e, now, utc, "UID");
    FieldInProperties(e, now, utc, "SUMMARY");
    EscapeRoundTrip(e.uid);
    EscapeRoundTrip(e.summary);
  }

  lemma ReadOptional(e: ICSEvent, now: Date, utc: int -> Moment)
    requires Usable(e)
    ensures TextOf(Field(Properties(e, now, utc), "DESCRIPTION")) == NonEmptyText(e.description)
    ensures TextOf(Field(Properties(e, now, utc), "LOCATION")) == NonEmptyText(e.location)
  {
    FieldInProperties(e, now, utc, "DESCRIPTION");
    FieldInProperties(e, now, utc, "LOCATION");
    FieldOfOptional("DESCRIPTION", e.description, "DESCRIPTION");
    FieldOfOptional("DESCRIPTION", e.description, "LOCATION");
    FieldOfOptional("LOCATION", e.location, "DESCRIPTION");
    FieldOfOptional("LOCATION", e.location, "LOCATION");
  }

  lemma ReadDate(e: ICSEvent, now: Date, utc: int -> Moment, name: string)
    requires Usable(e)
    requires name in {"DTSTART;VALUE=DATE", "DTSTART", "DTEND;VALUE=DATE", "DTEND"}
    ensures Field(Properties(e, now, utc), name)
            == if name == StartProperty(e, utc).name then Some(StartProperty(e, utc).value)
               else if name == EndProperty(e, utc).name then Some(EndProperty(e, utc).value)
               else None
  {
    NamesDiffer();
    FieldInProperties(e, now, utc, name);
    FieldOfOptional("DESCRIPTION", e.description, name);
    FieldOfOptional("LOCATION", e.location, name);
  }

  lemma ReadStamp(e: ICSEvent, now: Date, utc: int -> Moment)
    requires Usable(e)
    ensures Field(Properties(e, now, utc), "DTSTAMP") == Some(FormatICSDateTime(now, utc))
  {
    var u, st, s, d, sm := UidProperty(e), StampProperty(now, utc), StartProperty(e, utc), EndProperty(e, utc),
                           SummaryProperty(e);
    FieldOfSeven([u], [st], [s], [d], [sm], OptionalProperty("DESCRIPTION", e.description),
      OptionalProperty("LOCATION", e.location), "DTSTAMP");
    FieldOfOne(u, "DTSTAMP");
    FieldOfOne(st, "DTSTAMP");
  }

  lemma ReadBody(e: ICSEvent, now: Date, utc: int -> Moment)
    requires Usable(e)
    ensures ReadEvent(ParseEach(BodyLines(e, now, utc))) == Expected(e, now, utc)
  {
    ParseBody(e, now, utc);
    ReadRequired(e, now, utc);
    ReadOptional(e, now, utc);
    ReadDate(e, now, utc, "DTSTART;VALUE=DATE");
    ReadDate(e, now, utc, "DTSTART");
    ReadDate(e, now, utc, "DTEND;VALUE=DATE");
    ReadDate(e, now, utc, "DTEND");
    ReadStamp(e, now, utc);
    EndIsMeant(e);
  }

  /** The writer's end is the one meant. */
  lemma EndIsMeant(e: ICSEvent)
    requires Usable(e)
    ensures EndOf(e) == MeantEnd(e) && (IsAllDay(e) <==> e.allDay != Some(false))
  {
  }

  // ----- Lines are well formed -----

  /** A body line is a content line that neither opens nor closes an event. */
  predicate BodyLine(line: string) {
    ContentLine(line) && line[0] != 'B' && line[0] != 'E'
  }

  lemma LineStarts(head: string, value: string)
    requires BodyLine(head) && NoBreaks(value)
    ensures BodyLine(head + value)
  {
  }

  lemma TextStarts(v: string)
    requires NoBreaks(v)
    ensures BodyLine("UID:" + v) && BodyLine("SUMMARY:" + v)
    ensures BodyLine("DESCRIPTION:" + v) && BodyLine("LOCATION:" + v)
  {
    LineStarts("UID:", v);
    LineStarts("SUMMARY:", v);
    LineStarts("DESCRIPTION:", v);
    LineStarts("LOCATION:", v);
  }

  lemma TimeStarts(v: string)
    requires NoBreaks(v)
    ensures BodyLine("DTSTAMP:" + v) && BodyLine("DTSTART:" + v) && BodyLine("DTEND:" + v)
    ensures BodyLine("DTSTART;VALUE=DATE:" + v) && BodyLine("DTEND;VALUE=DATE:" + v)
  {
    LineStarts("DTSTAMP:", v);
    LineStarts("DTSTART:", v);
    LineStarts("DTEND:", v);
    LineStarts("DTSTART;VALUE=DATE:", v);
    LineStarts("DTEND;VALUE=DATE:", v);
  }

  lemma {:induction false} DecimalNoBreaks(n: nat)
    ensures NoBreaks(Decimal(n))
  {
    if n >= 10 {
      DecimalNoBreaks(n / 10);
    }
  }

  lemma PadNoBreaks(n: nat)
    ensures NoBreaks(Pad(n))
  {
    DecimalNoBreaks(n);
  }

  lemma DayNoBreaks(m: Moment)
    ensures NoBreaks(FormatDay(m))
  {
    DecimalNoBreaks(if m.year < 0 then -m.year else m.year);
    PadNoBreaks(m.month + 1);
    PadNoBreaks(m.day);
  }

  lemma DateNoBreaks(d: Date, utc: int -> Moment)
    ensures NoBreaks(FormatICSDate(d, utc))
  {
    if d.At? {
      DayNoBreaks(utc(d.ms));
    }
  }

  lemma DateTimeNoBreaks(d: Date, utc: int -> Moment)
    ensures NoBreaks(FormatICSDateTime(d, utc))
  {
    var day := FormatICSDate(d, utc);
    DateNoBreaks(d, utc);
    if d.At? {
      var m := utc(d.ms);
      PadNoBreaks(m.hours);
      PadNoBreaks(m.minutes);
      PadNoBreaks(m.seconds);
      NoBreaksConcat(day, "T");
      NoBreaksConcat(day + "T", Pad(m.hours));
      NoBreaksConcat(day + "T" + Pad(m.hours), Pad(m.minutes));
      NoBreaksConcat(day + "T" + Pad(m.hours) + Pad(m.minutes), Pad(m.seconds));
    }
  }

  lemma TextLinesAreBody(e: ICSEvent)
    ensures BodyLine(UidLine(e)) && BodyLine(SummaryLine(e))
  {
    EscapeRoundTrip(e.uid);
    EscapeRoundTrip(e.summary);
    TextStarts(EscapeICSText(e.uid));
    TextStarts(EscapeICSText(e.summary));
  }

  lemma OptionalLinesAreBody(e: ICSEvent)
    ensures AllBody(DescriptionLines(e)) && AllBody(LocationLines(e))
  {
    if e.description.Some? {
      EscapeRoundTrip(e.description.value);
      TextStarts(EscapeICSText(e.description.value));
    }
    if e.location.Some? {
      EscapeRoundTrip(e.location.value);
      TextStarts(EscapeICSText(e.location.value));
    }
  }

  lemma StartLineIsBody(e: ICSEvent, utc: int -> Moment)
    ensures BodyLine(StartLine(e, utc))
  {
    if IsAllDay(e) {
      DateNoBreaks(e.start, utc);
      TimeStarts(FormatICSDate(e.start, utc));
    } else {
      DateTimeNoBreaks(e.start, utc);
      TimeStarts(FormatICSDateTime(e.start, utc));
    }
  }

  lemma EndLineIsBody(e: ICSEvent, utc: int -> Moment)
    requires Usable(e)
    ensures BodyLine(EndLine(e, utc))
  {
    if IsAllDay(e) {
      DateNoBreaks(EndOf(e), utc);
      TimeStarts(FormatICSDate(EndOf(e), utc));
    } else {
      DateTimeNoBreaks(EndOf(e), utc);
      TimeStarts(FormatICSDateTime(EndOf(e), utc));
    }
  }

  predicate AllBody(lines: seq<string>) {
    forall i :: 0 <= i < |lines| ==> BodyLine(lines[i])
  }

  lemma BodyOfSeven(a: string, b: string, c: string, d: string, e: string, f: seq<string>, g: seq<string>)
    requires BodyLine(a) && BodyLine(b) && BodyLine(c) && BodyLine(d) && BodyLine(e) && AllBody(f) && AllBody(g)
    ensures AllBody([a] + [b] + [c] + [d] + [e] + f + g)
  {
  }

  lemma BodyIsBody(e: ICSEvent, now: Date, utc: int -> Moment)
    requires Usable(e)
    ensures AllBody(BodyLines(e, now, utc))
  {
    TextLinesAreBody(e);
    DateTimeNoBreaks(now, utc);
    TimeStarts(FormatICSDateTime(now, utc));
    StartLineIsBody(e, utc);
    EndLineIsBody(e, utc);
    OptionalLinesAreBody(e);
    BodyOfSeven(UidLine(e), StampLine(now, utc), StartLine(e, utc), EndLine(e, utc), SummaryLine(e),
      DescriptionLines(e), LocationLines(e));
  }

  // ----- Blocks -----

  lemma {:induction false} BlocksOfBody(body: seq<string>, rest: seq<string>, done: seq<string>)
    requires AllBody(body)
    ensures Blocks(body + rest, Some(done)) == Blocks(rest, Some(done + body))
  {
    if body == [] {
      assert body + rest == rest && done + body == done;
    } else {
      assert (body + rest)[1..] == body[1..] + rest && (body + rest)[0] == body[0];
      assert done + [body[0]] + body[1..] == done + body;
      BlocksOfBody(body[1..], rest, done + [body[0]]);
    }
  }

  lemma BlocksOfEvent(body: seq<string>, rest: seq<string>)
    requires AllBody(body)
    ensures Blocks(["BEGIN:VEVENT"] + body + ["END:VEVENT"] + rest, None) == [body] + Blocks(rest, None)
  {
    var close := ["END:VEVENT"] + rest;
    var lines := ["BEGIN:VEVENT"] + body + ["END:VEVENT"] + rest;
    assert lines[1..] == body + close && lines[0] == "BEGIN:VEVENT";
    BlocksOfBody(body, close, []);
    assert [] + body == body;
    assert close[1..] == rest && close[0] == "END:VEVENT";
    assert "END:VEVENT"[0] != "BEGIN:VEVENT"[0];
  }

  // ----- The whole document -----

  lemma ReadFirst(body: seq<string>, others: seq<seq<string>>)
    ensures ReadEach([body] + others) == [ReadEvent(ParseEach(body))] + ReadEach(others)
  {
    assert ([body] + others)[1..] == others;
  }

  /** One event at the end of the list is read first, then whatever follows it. */
  lemma ReadOneEvent(e: ICSEvent, rest: seq<string>, now: Date, utc: int -> Moment)
    ensures ReadEach(Blocks(EventLines(e, now, utc) + rest, None))
            == (if Usable(e) then [Expected(e, now, utc)] else []) + ReadEach(Blocks(rest, None))
  {
    if Usable(e) {
      var body := BodyLines(e, now, utc);
      BodyIsBody(e, now, utc);
      BlocksOfEvent(body, rest);
      ReadFirst(body, Blocks(rest, None));
      ReadBody(e, now, utc);
    } else {
      assert [] + rest == rest;
    }
  }

  lemma AppendAssoc<T>(a: seq<T>, b: seq<T>, c: seq<T>)
    ensures (a + b) + c == a + (b + c)
  {
  }

  lemma {:induction false} ReadAllEvents(events: seq<ICSEvent>, rest: seq<string>, now: Date, utc: int -> Moment)
    ensures ReadEach(Blocks(AllEventLines(events, now, utc) + rest, None))
            == ExpectedAll(events, now, utc) + ReadEach(Blocks(rest, None))
    decreases |events|
  {
    if events == [] {
      assert [] + rest == rest;
    } else {
      var init, e := events[..|events| - 1], events[|events| - 1];
      ReadAllEvents(init, EventLines(e, now, utc) + rest, now, utc);
      ReadOneEvent(e, rest, now, utc);
      AppendAssoc(AllEventLines(init, now, utc), EventLines(e, now, utc), rest);
      AppendAssoc(ExpectedAll(init, now, utc), if Usable(e) then [Expected(e, now, utc)] else [],
        ReadEach(Blocks(rest, None)));
    }
  }

  lemma {:induction false} BlocksSkip(header: seq<string>, rest: seq<string>)
    requires "BEGIN:VEVENT" !in header
    ensures Blocks(header + rest, None) == Blocks(rest, None)
  {
    if header == [] {
      assert header + rest == rest;
    } else {
      assert (header + rest)[1..] == header[1..] + rest && (header + rest)[0] == header[0];
      BlocksSkip(header[1..], rest);
    }
  }

  /** A content line that cannot open an event. */
  predicate HeaderLine(line: string) {
    ContentLine(line) && (line[0] == 'B' ==> |line| > 7 && line[7] == 'C')
  }

  lemma FixedLines()
    ensures HeaderLine("BEGIN:VCALENDAR") && HeaderLine("VERSION:2.0")
    ensures HeaderLine("PRODID:-//AgenticPay//Calendar Export//EN")
    ensures HeaderLine("CALSCALE:GREGORIAN") && HeaderLine("METHOD:PUBLISH")
  {
    assert "BEGIN:VCALENDAR"[7] == 'C';
  }

  lemma NameLine(name: string)
    requires NoBreaks(name)
    ensures HeaderLine("X-WR-CALNAME:" + name)
  {
    assert NoBreaks("X-WR-CALNAME:");
    NoBreaksConcat("X-WR-CALNAME:", name);
  }

  lemma HeaderOfSix(lines: seq<string>)
    requires |lines| == 6
    requires HeaderLine(lines[0]) && HeaderLine(lines[1]) && HeaderLine(lines[2])
    requires HeaderLine(lines[3]) && HeaderLine(lines[4]) && HeaderLine(lines[5])
    ensures AllContent(lines) && "BEGIN:VEVENT" !in lines
  {
    assert forall i :: 0 <= i < 6 ==> HeaderLine(lines[i]);
    assert "BEGIN:VEVENT"[0] == 'B' && "BEGIN:VEVENT"[7] == 'E';
  }

  lemma CalendarHeaderIsContent(name: string)
    requires NoBreaks(name)
    ensures AllContent(CalendarHeader(name)) && "BEGIN:VEVENT" !in CalendarHeader(name)
  {
    FixedLines();
    NameLine(name);
    HeaderOfSix(CalendarHeader(name));
  }

  lemma HeaderIsContent()
    ensures AllContent(HeaderLines()) && "BEGIN:VEVENT" !in HeaderLines()
  {
    EscapeRoundTrip(CALENDAR_NAME);
    CalendarHeaderIsContent(EscapeICSText(CALENDAR_NAME));
  }

  lemma CloseIsContent()
    ensures AllContent(["END:VCALENDAR"]) && Blocks(["END:VCALENDAR"], None) == []
  {
    assert ["END:VCALENDAR"][1..] == [];
    assert "END:VCALENDAR"[0] != "BEGIN:VEVENT"[0];
  }

  lemma BlockIsContent(body: seq<string>)
    requires AllBody(body)
    ensures AllContent(["BEGIN:VEVENT"] + body + ["END:VEVENT"])
  {
  }

  lemma EventLinesAreContent(e: ICSEvent, now: Date, utc: int -> Moment)
    ensures AllContent(EventLines(e, now, utc))
  {
    if Usable(e) {
      BodyIsBody(e, now, utc);
      BlockIsContent(BodyLines(e, now, utc));
    }
  }

  lemma ContentConcat(a: seq<string>, b: seq<string>)
    requires AllContent(a) && AllContent(b)
    ensures AllContent(a + b)
  {
  }

  lemma {:induction false} AllEventLinesAreContent(events: seq<ICSEvent>, now: Date, utc: int -> Moment)
    ensures AllContent(AllEventLines(events, now, utc))
  {
    if events != [] {
      var init, e := events[..|events| - 1], events[|events| - 1];
      AllEventLinesAreContent(init, now, utc);
      EventLinesAreContent(e, now, utc);
      ContentConcat(AllEventLines(init, now, utc), EventLines(e, now, utc));
    }
  }

  lemma ContentLinesAreContent(events: seq<ICSEvent>, now: Date, utc: int -> Moment)
    ensures AllContent(ContentLines(events, now, utc)) && ContentLines(events, now, utc) != []
  {
    HeaderIsContent();
    CloseIsContent();
    AllEventLinesAreContent(events, now, utc);
    ContentConcat(HeaderLines(), AllEventLines(events, now, utc));
    ContentConcat(HeaderLines() + AllEventLines(events, now, utc), ["END:VCALENDAR"]);
  }

  lemma ReadContent(events: seq<ICSEvent>, now: Date, utc: int -> Moment)
    ensures ReadEach(Blocks(ContentLines(events, now, utc), None)) == ExpectedAll(events, now, utc)
  {
    var header, body, close := HeaderLines(), AllEventLines(events, now, utc), ["END:VCALENDAR"];
    HeaderIsContent();
    CloseIsContent();
    AppendAssoc(header, body, close);
    BlocksSkip(header, body + close);
    ReadAllEvents(events, close, now, utc);
    assert ExpectedAll(events, now, utc) + [] == ExpectedAll(events, now, utc);
  }

  /** No physical line of a document is over 75 octets; each is one that folding made of a content line. */
  lemma PhysicalLines(events: seq<ICSEvent>, now: Date, utc: int -> Moment)
    ensures SplitLines(Document(events, now, utc)) == Physical(ContentLines(events, now, utc))
    ensures AllWithin(SplitLines(Document(events, now, utc)))
  {
    var lines := ContentLines(events, now, utc);
    ContentLinesAreContent(events, now, utc);
    ContentHasNoBreaks(lines);
    JoinOfPhysical(lines);
    PhysicalFits(lines);
    SplitJoin(Physical(lines));
  }

  lemma ContentHasNoBreaks(lines: seq<string>)
    requires AllContent(lines)
    ensures AllNoBreaks(lines)
  {
  }

  /** For every event list: unfolding gives back the content lines, and reading them the usable events in order. */
  lemma DocumentRoundTrip(events: seq<ICSEvent>, now: Date, utc: int -> Moment)
    ensures SplitLines(Unfold(Document(events, now, utc))) == ContentLines(events, now, utc)
    ensures ReadCalendar(Document(events, now, utc)) == ExpectedAll(events, now, utc)
  {
    var lines := ContentLines(events, now, utc);
    ContentLinesAreContent(events, now, utc);
    ContentHasNoBreaks(lines);
    UnfoldDocument(lines);
    SplitJoin(lines);
    ReadContent(events, now, utc);
  }

  // ----- One event -----

  /** How many of the first `k` events are complete. */
  function CompleteBefore(events: seq<ICSEvent>, k: nat): nat
    requires k <= |events|
  {
    if k == 0 then 0 else CompleteBefore(events, k - 1) + if Complete(events[k - 1]) then 1 else 0
  }

  lemma SplitExpected(events: seq<ICSEvent>, now: Date, utc: int -> Moment)
    requires events != []
    ensures var init, e := events[..|events| - 1], events[|events| - 1];
            var all := ExpectedAll(events, now, utc);
            && ExpectedAll(init, now, utc) <= all
            && (Complete(e) ==> |all| == |ExpectedAll(init, now, utc)| + 1 && all[|all| - 1] == Expected(e, now, utc))
  {
  }

  lemma {:induction false} ExpectedAt(events: seq<ICSEvent>, k: nat, now: Date, utc: int -> Moment)
    requires k < |events| && Complete(events[k])
    ensures CompleteBefore(events, k) < |ExpectedAll(events, now, utc)|
    ensures ExpectedAll(events, now, utc)[CompleteBefore(events, k)] == Expected(events[k], now, utc)
    decreases |events|
  {
    var init := events[..|events| - 1];
    SplitExpected(events, now, utc);
    if k < |init| {
      ExpectedAt(init, k, now, utc);
      SameCount(init, events, k);
    } else {
      ExpectedCount(init, now, utc);
      SameCount(init, events, |init|);
    }
  }

  lemma {:induction false} SameCount(a: seq<ICSEvent>, b: seq<ICSEvent>, k: nat)
    requires k <= |a| <= |b| && a == b[..|a|]
    ensures CompleteBefore(a, k) == CompleteBefore(b, k)
  {
    if k > 0 {
      SameCount(a, b, k - 1);
    }
  }

  lemma {:induction false} ExpectedCount(events: seq<ICSEvent>, now: Date, utc: int -> Moment)
    ensures |ExpectedAll(events, now, utc)| == CompleteBefore(events, |events|)
  {
    if events != [] {
      ExpectedCount(events[..|events| - 1], now, utc);
      SameCount(events[..|events| - 1], events, |events| - 1);
    }
  }

  /**
   * What entry `r` must tell of `e`, by cases on what was given: the day form unless `allDay` is false, a valid end as
   * given, and otherwise an end 24 hours after the start in the day form and one hour in the timed form.
   */
  predicate Tells(r: Entry, e: ICSEvent, now: Date, utc: int -> Moment)
    requires e.start.At?
  {
    && r.uid == Some(NormaliseBreaks(e.uid)) && r.summary == Some(NormaliseBreaks(e.summary))
    && r.stamp == Some(FormatICSDateTime(now, utc))
    && (e.allDay == Some(false) ==> TellsTimes(r, e, utc))
    && (e.allDay == None || e.allDay == Some(true) ==> TellsDays(r, e, utc))
  }

  predicate TellsTimes(r: Entry, e: ICSEvent, utc: int -> Moment)
    requires e.start.At?
  {
    && r.startTime == Some(FormatICSDateTime(e.start, utc)) && r.startDay == None && r.endDay == None
    && (e.end.Some? && e.end.value.At? ==> r.endTime == Some(FormatICSDateTime(e.end.value, utc)))
    && ((e.end == None || e.end == Some(InvalidDate)) && e.start.ms <= 8_640_000_000_000_000 - 3_600_000 ==>
          r.endTime == Some(FormatICSDateTime(At(e.start.ms + 3_600_000), utc)))
  }

  predicate TellsDays(r: Entry, e: ICSEvent, utc: int -> Moment)
    requires e.start.At?
  {
    && r.startDay == Some(FormatICSDate(e.start, utc)) && r.startTime == None && r.endTime == None
    && (e.end.Some? && e.end.value.At? ==> r.endDay == Some(FormatICSDate(e.end.value, utc)))
    && ((e.end == None || e.end == Some(InvalidDate)) && e.start.ms <= 8_640_000_000_000_000 - 86_400_000 ==>
          r.endDay == Some(FormatICSDate(At(e.start.ms + 86_400_000), utc)))
  }

  lemma MeantEndMeans(e: ICSEvent)
    requires e.start.At?
    ensures e.end.Some? && e.end.value.At? ==> MeantEnd(e) == e.end.value
    ensures e.end == None || e.end == Some(InvalidDate) ==>
              var ms := e.start.ms + if e.allDay == Some(false) then 3_600_000 else 86_400_000;
              ms <= 8_640_000_000_000_000 ==> MeantEnd(e) == At(ms)
  {
  }

  lemma ExpectedTells(e: ICSEvent, now: Date, utc: int -> Moment)
    requires Complete(e)
    ensures Tells(Expected(e, now, utc), e, now, utc)
  {
    MeantEndMeans(e);
  }

  /** A reader finds one entry for each complete event of any list, in order, and it tells what was given. */
  lemma EventReadsBack(events: seq<ICSEvent>, k: nat, now: Date, utc: int -> Moment)
    requires k < |events| && Complete(events[k])
    ensures |ReadCalendar(Document(events, now, utc))| == CompleteBefore(events, |events|)
    ensures CompleteBefore(events, k) < |ReadCalendar(Document(events, now, utc))|
    ensures Tells(ReadCalendar(Document(events, now, utc))[CompleteBefore(events, k)], events[k], now, utc)
  {
    DocumentRoundTrip(events, now, utc);
    ExpectedAt(events, k, now, utc);
    ExpectedCount(events, now, utc);
    ExpectedTells(events[k], now, utc);
  }

  // ----- The calendar around the events -----

  lemma {:induction false} PlainIsKept(s: string)
    requires forall i :: 0 <= i < |s| ==> s[i] !in "\\;,\r\n"
    ensures EscapeOnce(s) == s
  {
    if s != "" {
      PlainIsKept(s[1..]);
    }
  }

  lemma PlainEscapes(s: string)
    requires forall i :: 0 <= i < |s| ==> s[i] !in "\\;,\r\n"
    ensures EscapeICSText(s) == s
  {
    EscapeIsOnePass(s);
    PlainIsKept(s);
  }

  lemma NameIsPlain()
    ensures EscapeICSText(CALENDAR_NAME) == CALENDAR_NAME
  {
    PlainEscapes(CALENDAR_NAME);
  }

  /** Every document opens with the same six lines and ends with the closing one. */
  lemma CalendarIsFramed(events: seq<ICSEvent>, now: Date, utc: int -> Moment)
    ensures var lines := SplitLines(Unfold(Document(events, now, utc)));
            && |lines| >= 7 && lines[|lines| - 1] == "END:VCALENDAR"
            && lines[..6] == ["BEGIN:VCALENDAR", "VERSION:2.0", "PRODID:-//AgenticPay//Calendar Export//EN",
                              "CALSCALE:GREGORIAN", "METHOD:PUBLISH", "X-WR-CALNAME:" + "AgenticPay"]
  {
    DocumentRoundTrip(events, now, utc);
    NameIsPlain();
    var header, body := HeaderLines(), AllEventLines(events, now, utc);
    assert |header| == 6;
    Framed(header, body, "END:VCALENDAR");
  }

  lemma Framed(header: seq<string>, body: seq<string>, last: string)
    ensures var lines := header + body + [last];
            |lines| >= |header| + 1 && lines[|lines| - 1] == last && lines[..|header|] == header
  {
  }
}
