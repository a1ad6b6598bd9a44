/** Reading a generated calendar back: physical lines, content lines, events (sections 3.1 and 3.3.11 of RFC 5545). */
module IcsReading {
  import opened Primitives
  import opened IcsText
  import opened IcsFolding
  import opened IcsDocument

  // ----- A reader -----

  predicate FoldAt(s: string) {
    |s| >= 3 && s[0] == '\r' && s[1] == '\n' && (s[2] == ' ' || s[2] == '\t')
  }

  /** Drops every CRLF that is followed by a space or a tab, together with that character. */
  function Unfold(s: string): string {
    if s == "" then "" else if FoldAt(s) then Unfold(s[3..]) else [s[0]] + Unfold(s[1..])
  }

  function SplitLines(s: string): (lines: seq<string>)
    ensures lines != []
  {
    if s == "" then [""]
    else if |s| >= 2 && s[0] == '\r' && s[1] == '\n' then [""] + SplitLines(s[2..])
    else var rest := SplitLines(s[1..]); [[s[0]] + rest[0]] + rest[1..]
  }

  /** The event blocks among the content lines; `open` is the block being read. */
  function Blocks(lines: seq<string>, open: Option<seq<string>>): seq<seq<string>> {
    if lines == [] then []
    else if lines[0] == "BEGIN:VEVENT" then Blocks(lines[1..], Some([]))
    else if open.None? then Blocks(lines[1..], None)
    else if lines[0] == "END:VEVENT" then [open.value] + Blocks(lines[1..], None)
    else Blocks(lines[1..], Some(open.value + [lines[0]]))
  }

  datatype Property = Property(name: string, value: string)

  /** A content line split at its first colon. */
  function ParseLine(line: string): Property {
    if line == "" then Property("", "")
    else if line[0] == ':' then Property("", line[1..])
    else var rest := ParseLine(line[1..]); Property([line[0]] + rest.name, rest.value)
  }

  function ParseEach(lines: seq<string>): seq<Property> {
    if lines == [] then [] else [ParseLine(lines[0])] + ParseEach(lines[1..])
  }

  /** The value of the first property called `name`. */
  function Field(block: seq<Property>, name: string): Option<string> {
    if block == [] then None
    else if block[0].name == name then Some(block[0].value)
    else Field(block[1..], name)
  }

  datatype Entry = Entry(
    uid: Option<string>,
    summary: Option<string>,
    description: Option<string>,
    location: Option<string>,
    startDay: Option<string>,
    startTime: Option<string>,
    endDay: Option<string>,
    endTime: Option<string>,
    stamp: Option<string>)

  function TextOf(value: Option<string>): Option<string> {
    if value.Some? then Some(Unescape(value.value)) else None
  }

  function ReadEvent(block: seq<Property>): Entry {
    Entry(
      TextOf(Field(block, "UID")),
      TextOf(Field(block, "SUMMARY")),
      TextOf(Field(block, "DESCRIPTION")),
      TextOf(Field(block, "LOCATION")),
      Field(block, "DTSTART;VALUE=DATE"),
      Field(block, "DTSTART"),
      Field(block, "DTEND;VALUE=DATE"),
      Field(block, "DTEND"),
      Field(block, "DTSTAMP"))
  }

  function ReadEach(blocks: seq<seq<string>>): seq<Entry> {
    if blocks == [] then [] else [ReadEvent(ParseEach(blocks[0]))] + ReadEach(blocks[1..])
  }

  function ReadCalendar(text: string): seq<Entry> {
    ReadEach(Blocks(SplitLines(Unfold(text)), None))
  }

  // ----- What it should find -----

  function NonEmptyText(value: Option<string>): Option<string> {
    if value.Some? && value.value != "" then Some(NormaliseBreaks(value.value)) else None
  }

  /** The end an event is meant to have: a valid one as given, else a day or an hour after the start. */
  function MeantEnd(e: ICSEvent): Date
    requires e.start.At?
  {
    match e.end
    case Some(At(ms)) => At(ms)
    case _ =>
      var ms := e.start.ms + if e.allDay == Some(false) then 3_600_000 else 86_400_000;
      if ms <= 8_640_000_000_000_000 then At(ms) else InvalidDate
  }

  function Expected(e: ICSEvent, now: Date, utc: int -> Moment): Entry
    requires e.start.At?
  {
    var timed := e.allDay == Some(false);
    Entry(
      Some(NormaliseBreaks(e.uid)),
      Some(NormaliseBreaks(e.summary)),
      NonEmptyText(e.description),
      NonEmptyText(e.location),
      if timed then None else Some(FormatICSDate(e.start, utc)),
      if timed then Some(FormatICSDateTime(e.start, utc)) else None,
      if timed then None else Some(FormatICSDate(MeantEnd(e), utc)),
      if timed then Some(FormatICSDateTime(MeantEnd(e), utc)) else None,
      Some(FormatICSDateTime(now, utc)))
  }

  /** Events without uid, summary or a valid start are left out. */
  predicate Complete(e: ICSEvent) {
    |e.uid| > 0 && |e.summary| > 0 && e.start != InvalidDate
  }

  function ExpectedAll(events: seq<ICSEvent>, now: Date, utc: int -> Moment): seq<Entry> {
    if events == [] then []
    else ExpectedAll(events[..|events| - 1], now, utc)
         + (if Complete(events[|events| - 1]) then [Expected(events[|events| - 1], now, utc)] else [])
  }

  // ----- Physical lines -----

  /** The physical lines of a list of content lines. */
  function Physical(lines: seq<string>): seq<string> {
    if lines == [] then [] else Fold(lines[0]) + Physical(lines[1..])
  }

  lemma Assoc(a: string, b: string, c: string)
    ensures (a + b) + c == a + (b + c)
  {
  }

  lemma {:induction false} TailConcat(a: seq<string>, b: seq<string>)
    ensures Tail(a + b) == Tail(a) + Tail(b)
  {
    if a == [] {
      assert a + b == b;
    } else {
      TailConcat(a[1..], b);
      assert (a + b)[1..] == a[1..] + b && (a + b)[0] == a[0];
      Assoc("\r\n" + a[0], Tail(a[1..]), Tail(b));
    }
  }

  lemma TailIsBreakJoin(p: seq<string>)
    requires p != []
    ensures Tail(p) == "\r\n" + Join(p)
  {
    Assoc("\r\n", p[0], Tail(p[1..]));
  }

  lemma {:induction false} TailOfPhysical(lines: seq<string>)
    ensures Tail(FoldAll(lines)) == Tail(Physical(lines))
  {
    if lines != [] {
      var texts, rest := FoldAll(lines), FoldAll(lines[1..]);
      assert texts[1..] == rest;
      TailOfPhysical(lines[1..]);
      TailConcat(Fold(lines[0]), Physical(lines[1..]));
      TailIsBreakJoin(Fold(lines[0]));
    }
  }

  /** The folded texts joined are the physical lines joined. */
  lemma JoinOfPhysical(lines: seq<string>)
    ensures Join(FoldAll(lines)) == Join(Physical(lines))
  {
    if lines != [] {
      TailOfPhysical(lines);
      TailIsBreakJoin(FoldAll(lines));
      TailIsBreakJoin(Physical(lines));
      var a, b := Join(FoldAll(lines)), Join(Physical(lines));
      assert a == ("\r\n" + a)[2..] && b == ("\r\n" + b)[2..];
    }
  }

  predicate AllNoBreaks(lines: seq<string>) {
    forall i :: 0 <= i < |lines| ==> NoBreaks(lines[i])
  }

  lemma {:induction false} SplitSkips(a: string, rest: string)
    requires NoBreaks(a)
    ensures var r := SplitLines(rest); SplitLines(a + rest) == [a + r[0]] + r[1..]
  {
    var r := SplitLines(rest);
    if a == "" {
      assert a + rest == rest && a + r[0] == r[0];
    } else {
      SplitSkips(a[1..], rest);
      assert (a + rest)[1..] == a[1..] + rest;
      assert [a[0]] + (a[1..] + r[0]) == a + r[0];
    }
  }

  /** Splitting gives back the lines that were joined. */
  lemma {:induction false} SplitJoin(parts: seq<string>)
    requires parts != [] && AllNoBreaks(parts)
    ensures SplitLines(Join(parts)) == parts
  {
    var tail := Tail(parts[1..]);
    SplitSkips(parts[0], tail);
    assert parts[0] + "" == parts[0];
    if |parts| == 1 {
      assert parts == [parts[0]];
      assert SplitLines(tail) == [""];
    } else {
      SplitJoin(parts[1..]);
      TailIsBreakJoin(parts[1..]);
      assert tail[2..] == Join(parts[1..]);
      assert SplitLines(tail) == [""] + parts[1..];
      assert parts == [parts[0]] + parts[1..];
    }
  }

  lemma NoBreaksConcat(a: string, b: string)
    requires NoBreaks(a) && NoBreaks(b)
    ensures NoBreaks(a + b)
  {
  }

  lemma GrowNoBreaks(parts: seq<string>, c: char)
    requires parts != [] && AllNoBreaks(parts) && c != '\r' && c != '\n'
    ensures AllNoBreaks(Grow(parts, c))
  {
    NoBreaksConcat(parts[|parts| - 1], [c]);
  }

  lemma {:induction false} FoldNoBreaks(line: string)
    requires NoBreaks(line)
    ensures AllNoBreaks(Fold(line))
  {
    if line != "" {
      FoldNoBreaks(line[..|line| - 1]);
      GrowNoBreaks(Fold(line[..|line| - 1]), line[|line| - 1]);
    }
  }

  predicate AllWithin(lines: seq<string>) {
    forall i :: 0 <= i < |lines| ==> OctetsOf(lines[i]) <= MAX_LINE_OCTETS
  }

  lemma {:induction false} PhysicalFits(lines: seq<string>)
    requires AllNoBreaks(lines)
    ensures AllNoBreaks(Physical(lines)) && AllWithin(Physical(lines))
    ensures lines != [] ==> Physical(lines) != []
  {
    if lines != [] {
      FoldNoBreaks(lines[0]);
      FoldIsFolding(lines[0]);
      PhysicalFits(lines[1..]);
    }
  }

  // ----- Unfolding -----

  lemma {:induction false} UnfoldSkips(a: string, rest: string)
    requires NoBreaks(a)
    ensures Unfold(a + rest) == a + Unfold(rest)
  {
    if a == "" {
      assert a + rest == rest;
    } else {
      UnfoldSkips(a[1..], rest);
      assert (a + rest)[1..] == a[1..] + rest && (a + rest)[0] == a[0];
    }
  }

  lemma UnfoldContinuation(p: string, rest: string)
    requires NoBreaks(p) && p != "" && p[0] == ' '
    ensures Unfold("\r\n" + p + rest) == p[1..] + Unfold(rest)
  {
    var s := "\r\n" + p + rest;
    assert s[2] == ' ' && s[3..] == p[1..] + rest;
    UnfoldSkips(p[1..], rest);
  }

  lemma TailOne(p: string)
    ensures Tail([p]) == "\r\n" + p && Join([p]) == p
  {
    assert [p][1..] == [];
  }

  lemma JoinSnoc(init: seq<string>, p: string)
    requires init != []
    ensures Join(init + [p]) == Join(init) + "\r\n" + p
  {
    assert (init + [p])[1..] == init[1..] + [p];
    TailConcat(init[1..], [p]);
    TailOne(p);
  }

  lemma JoinSnocWith(init: seq<string>, p: string, rest: string)
    requires init != []
    ensures Join(init + [p]) + rest == Join(init) + ("\r\n" + p + rest)
  {
    JoinSnoc(init, p);
    Assoc(Join(init), "\r\n", p);
    Assoc(Join(init), "\r\n" + p, rest);
  }

  /** Unfolding a folded line gives its content. */
  lemma {:induction false} UnfoldParts(parts: seq<string>, rest: string)
    requires Continues(parts) && AllNoBreaks(parts)
    ensures Unfold(Join(parts) + rest) == Content(parts) + Unfold(rest)
    decreases |parts|
  {
    var init, p := parts[..|parts| - 1], parts[|parts| - 1];
    assert parts == init + [p];
    ContentOfLast(init, p);
    if init == [] {
      TailOne(p);
      UnfoldSkips(p, rest);
      assert Content(parts) == p;
    } else {
      JoinSnocWith(init, p, rest);
      UnfoldParts(init, "\r\n" + p + rest);
      UnfoldContinuation(p, rest);
      Assoc(Content(init), p[1..], Unfold(rest));
    }
  }

  lemma UnfoldFolded(line: string, rest: string)
    requires NoBreaks(line)
    ensures Unfold(Join(Fold(line)) + rest) == line + Unfold(rest)
  {
    FoldNoBreaks(line);
    FoldIsFolding(line);
    UnfoldParts(Fold(line), rest);
  }

  /** A content line that nothing before it can swallow. */
  predicate ContentLine(line: string) {
    NoBreaks(line) && line != "" && line[0] != ' ' && line[0] != '\t'
  }

  predicate AllContent(lines: seq<string>) {
    forall i :: 0 <= i < |lines| ==> ContentLine(lines[i])
  }

  lemma {:induction false} FoldStarts(line: string)
    requires line != ""
    ensures var s := Join(Fold(line)); s != "" && s[0] == line[0]
  {
    var parts := Fold(line);
    FoldHead(line);
    assert parts[0] != "" && parts[0][0] == line[0];
    assert Join(parts) == parts[0] + Tail(parts[1..]);
  }

  lemma {:induction false} FoldHead(line: string)
    requires line != ""
    ensures var p := Fold(line)[0]; p != "" && p[0] == line[0]
  {
    var init, c := line[..|line| - 1], line[|line| - 1];
    if init == "" {
      assert Fold(line) == Grow([""], c);
      assert OctetsOf("") == 0;
      assert [c] == "" + [c];
    } else {
      FoldHead(init);
    }
  }

  lemma UnfoldChar(s: string)
    requires s != "" && !FoldAt(s)
    ensures Unfold(s) == [s[0]] + Unfold(s[1..])
  {
  }

  lemma BreakFront(s: string, t: string, u: string)
    requires s != "" && t == "\r\n" + s && u == "\n" + s
    ensures t[0] == '\r' && t[1] == '\n' && t[2] == s[0] && t[1..] == u && u[0] == '\n' && u[1..] == s
  {
  }

  lemma UnfoldBreak(s: string)
    requires s != "" && s[0] != ' ' && s[0] != '\t'
    ensures Unfold("\r\n" + s) == "\r\n" + Unfold(s)
  {
    var t, u := "\r\n" + s, "\n" + s;
    BreakFront(s, t, u);
    UnfoldChar(t);
    UnfoldChar(u);
    Assoc("\r", "\n", Unfold(s));
  }

  lemma {:induction false} UnfoldTail(lines: seq<string>)
    requires AllContent(lines)
    ensures Unfold(Tail(FoldAll(lines))) == Tail(lines)
  {
    if lines != [] {
      var texts := FoldAll(lines);
      assert texts[1..] == FoldAll(lines[1..]);
      UnfoldTail(lines[1..]);
      var head, rest := Join(Fold(lines[0])), Tail(texts[1..]);
      assert Tail(texts) == "\r\n" + (head + rest);
      FoldStarts(lines[0]);
      UnfoldBreak(head + rest);
      UnfoldFolded(lines[0], rest);
    }
  }

  /** Unfolding a document gives back its content lines. */
  lemma UnfoldDocument(lines: seq<string>)
    requires lines != [] && AllContent(lines)
    ensures Unfold(Join(FoldAll(lines))) == Join(lines)
  {
    var texts := FoldAll(lines);
    assert texts[1..] == FoldAll(lines[1..]);
    UnfoldTail(lines[1..]);
    UnfoldFolded(lines[0], Tail(texts[1..]));
  }
}
