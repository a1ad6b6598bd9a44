/** TEXT escaping of calendar values (section 3.3.11 of RFC 5545) and its inverse. */
module IcsText {

  /** `replace(/c/g, r)` for one character. */
  function ReplaceChar(s: string, c: char, r: string): string {
    if s == "" then "" else (if s[0] == c then r else [s[0]]) + ReplaceChar(s[1..], c, r)
  }

  /** `replace(/\r\n|\r|\n/g, r)`: a CRLF pair is one line break. */
  function ReplaceBreaks(s: string, r: string): string {
    if s == "" then ""
    else if s[0] == '\r' && |s| > 1 && s[1] == '\n' then r + ReplaceBreaks(s[2..], r)
    else if s[0] == '\r' || s[0] == '\n' then r + ReplaceBreaks(s[1..], r)
    else [s[0]] + ReplaceBreaks(s[1..], r)
  }

  function EscapeSeparators(s: string): string {
    ReplaceChar(ReplaceChar(ReplaceChar(s, '\\', "\\\\"), ';', "\\;"), ',', "\\,")
  }

  /** Four passes, one after the other. */
  function EscapeICSText(s: string): string {
    ReplaceBreaks(EscapeSeparators(s), "\\n")
  }

  /** One pass that maps every character on its own. */
  function EscapeOnce(s: string): string {
    if s == "" then ""
    else if s[0] == '\r' && |s| > 1 && s[1] == '\n' then "\\n" + EscapeOnce(s[2..])
    else if s[0] == '\r' || s[0] == '\n' then "\\n" + EscapeOnce(s[1..])
    else (if s[0] == '\\' || s[0] == ';' || s[0] == ',' then ['\\', s[0]] else [s[0]]) + EscapeOnce(s[1..])
  }

  /** What a reader does with an escaped value. */
  function Unescape(t: string): string {
    if t == "" then ""
    else if t[0] == '\\' && |t| > 1 then (if t[1] == 'n' || t[1] == 'N' then "\n" else [t[1]]) + Unescape(t[2..])
    else [t[0]] + Unescape(t[1..])
  }

  /** Every line break as LF. */
  function NormaliseBreaks(s: string): string {
    ReplaceBreaks(s, "\n")
  }

  predicate NoBreaks(s: string) {
    forall i :: 0 <= i < |s| ==> s[i] != '\r' && s[i] != '\n'
  }

  /** No raw line break, `;` or `,`, and every backslash starts one of the four escapes. */
  predicate WellEscaped(t: string) {
    t == "" ||
    (if t[0] == '\\' then |t| > 1 && t[1] in "\\;,n" && WellEscaped(t[2..])
     else t[0] !in ";,\r\n" && WellEscaped(t[1..]))
  }

  // ----- Four passes are one -----

  lemma {:induction false} ReplaceConcat(a: string, b: string, c: char, r: string)
    ensures ReplaceChar(a + b, c, r) == ReplaceChar(a, c, r) + ReplaceChar(b, c, r)
  {
    if a == "" {
      assert a + b == b;
    } else {
      ReplaceConcat(a[1..], b, c, r);
      assert (a + b)[1..] == a[1..] + b && (a + b)[0] == a[0];
      var x, y, z := if a[0] == c then r else [a[0]], ReplaceChar(a[1..], c, r), ReplaceChar(b, c, r);
      assert ReplaceChar(a + b, c, r) == x + (y + z);
      assert x + (y + z) == (x + y) + z;
    }
  }

  function Escaped(c: char): string {
    if c == '\\' || c == ';' || c == ',' then ['\\', c] else [c]
  }

  lemma ReplaceOne(c: char, x: char, r: string)
    ensures ReplaceChar([c], x, r) == if c == x then r else [c]
  {
    assert [c][1..] == "";
    assert (if c == x then r else [c]) + "" == if c == x then r else [c];
  }

  /** An escape made by an earlier pass is left alone by a later one. */
  lemma ReplaceEscape(c: char, x: char, r: string)
    requires x != '\\' && c != x
    ensures ReplaceChar(['\\', c], x, r) == ['\\', c]
  {
    ReplaceOne('\\', x, r);
    ReplaceOne(c, x, r);
    ReplaceConcat(['\\'], [c], x, r);
    assert ['\\'] + [c] == ['\\', c];
  }

  lemma OneChar(c: char)
    ensures EscapeSeparators([c]) == Escaped(c)
  {
    ReplaceOne(c, '\\', "\\\\");
    ReplaceOne(c, ';', "\\;");
    ReplaceOne(c, ',', "\\,");
    if c == '\\' {
      ReplaceEscape('\\', ';', "\\;");
      ReplaceEscape('\\', ',', "\\,");
    } else if c == ';' {
      ReplaceEscape(';', ',', "\\,");
    }
  }

  lemma SeparatorsStep(s: string)
    requires s != ""
    ensures EscapeSeparators(s) == Escaped(s[0]) + EscapeSeparators(s[1..])
  {
    var a, b := [s[0]], s[1..];
    assert s == a + b;
    ReplaceConcat(a, b, '\\', "\\\\");
    var a1, b1 := ReplaceChar(a, '\\', "\\\\"), ReplaceChar(b, '\\', "\\\\");
    ReplaceConcat(a1, b1, ';', "\\;");
    ReplaceConcat(ReplaceChar(a1, ';', "\\;"), ReplaceChar(b1, ';', "\\;"), ',', "\\,");
    OneChar(s[0]);
  }

  lemma {:induction false} BreaksSkip(a: string, b: string, r: string)
    requires NoBreaks(a)
    ensures ReplaceBreaks(a + b, r) == a + ReplaceBreaks(b, r)
  {
    if a == "" {
      assert a + b == b;
    } else {
      BreaksSkip(a[1..], b, r);
      assert (a + b)[1..] == a[1..] + b;
    }
  }

  /** The four successive replacements are one character map. */
  lemma {:induction false} EscapeIsOnePass(s: string)
    ensures EscapeICSText(s) == EscapeOnce(s)
    decreases |s|
  {
    if s != "" {
      var t := EscapeSeparators(s);
      SeparatorsStep(s);
      EscapeIsOnePass(s[1..]);
      if s[0] == '\r' {
        assert t[1..] == EscapeSeparators(s[1..]);
        if |s| > 1 {
          SeparatorsStep(s[1..]);
          if s[1] == '\n' {
            EscapeIsOnePass(s[2..]);
            assert s[1..][1..] == s[2..] && t[2..] == EscapeSeparators(s[2..]);
          }
        }
      } else if s[0] == '\n' {
        assert t[1..] == EscapeSeparators(s[1..]);
      } else {
        BreaksSkip(Escaped(s[0]), EscapeSeparators(s[1..]), "\\n");
      }
    }
  }

  /** Each of CRLF, CR and LF is one line break. */
  lemma EachBreakIsOne(line: string, rest: string)
    requires NoBreaks(line)
    ensures NormaliseBreaks(line) == line
    ensures NormaliseBreaks(line + ("\n" + rest)) == line + ("\n" + NormaliseBreaks(rest))
    ensures NormaliseBreaks(line + ("\r\n" + rest)) == line + ("\n" + NormaliseBreaks(rest))
    ensures rest == "" || rest[0] != '\n' ==>
              NormaliseBreaks(line + ("\r" + rest)) == line + ("\n" + NormaliseBreaks(rest))
  {
    BreaksSkip(line, "", "\n");
    assert line + "" == line;
    BreaksSkip(line, "\n" + rest, "\n");
    assert ("\n" + rest)[1..] == rest;
    BreaksSkip(line, "\r\n" + rest, "\n");
    assert ("\r\n" + rest)[2..] == rest;
    BreaksSkip(line, "\r" + rest, "\n");
    assert ("\r" + rest)[1..] == rest;
  }

  // ----- Round trips -----

  lemma {:induction false} EscapeOnceIsSafe(s: string)
    ensures WellEscaped(EscapeOnce(s)) && Unescape(EscapeOnce(s)) == NormaliseBreaks(s)
    decreases |s|
  {
    if s != "" {
      var n := if s[0] == '\r' && |s| > 1 && s[1] == '\n' then 2 else 1;
      var t, rest := EscapeOnce(s), EscapeOnce(s[n..]);
      EscapeOnceIsSafe(s[n..]);
      var k := |t| - |rest|;
      assert t[k..] == rest;
    }
  }

  /** An escaped value has nothing a reader could take for structure, and reads back as the text with LF breaks. */
  lemma EscapeRoundTrip(s: string)
    ensures WellEscaped(EscapeICSText(s)) && NoBreaks(EscapeICSText(s))
    ensures Unescape(EscapeICSText(s)) == NormaliseBreaks(s)
  {
    EscapeIsOnePass(s);
    EscapeOnceIsSafe(s);
    WellEscapedHasNoBreaks(EscapeICSText(s));
  }

  lemma {:induction false} WellEscapedHasNoBreaks(t: string)
    requires WellEscaped(t)
    ensures NoBreaks(t)
    decreases |t|
  {
    if t != "" {
      var n := if t[0] == '\\' then 2 else 1;
      WellEscapedHasNoBreaks(t[n..]);
      forall i | 0 <= i < |t| ensures t[i] != '\r' && t[i] != '\n' {
        assert i >= n ==> t[i] == t[n..][i - n];
      }
    }
  }

  lemma {:induction false} ReadHasNoReturn(t: string)
    requires WellEscaped(t)
    ensures '\r' !in Unescape(t)
    decreases |t|
  {
    if t != "" {
      ReadHasNoReturn(t[if t[0] == '\\' then 2 else 1..]);
    }
  }

  lemma EscapeStep(u: string)
    requires u != "" && '\r' !in u
    ensures EscapeOnce(u)
            == (if u[0] == '\n' then "\\n" else Escaped(u[0])) + EscapeOnce(u[1..])
  {
  }

  /** The first escape or plain character of a well-escaped text, and what it reads as. */
  lemma ReadStep(t: string) returns (n: nat)
    requires WellEscaped(t) && t != ""
    ensures 1 <= n <= 2 && n <= |t| && WellEscaped(t[n..])
    ensures Unescape(t) != "" && Unescape(t)[1..] == Unescape(t[n..])
    ensures t[..n] == if Unescape(t)[0] == '\n' then "\\n" else Escaped(Unescape(t)[0])
  {
    n := if t[0] == '\\' then 2 else 1;
    assert Unescape(t)[1..] == Unescape(t[n..]);
  }

  lemma {:induction false} ReadIsEscapedBack(t: string)
    requires WellEscaped(t)
    ensures EscapeOnce(Unescape(t)) == t
    decreases |t|
  {
    if t != "" {
      var n := ReadStep(t);
      ReadIsEscapedBack(t[n..]);
      ReadHasNoReturn(t);
      EscapeStep(Unescape(t));
      assert t == t[..n] + t[n..];
    }
  }

  /** Every well-escaped value is the escape of exactly what it reads as. */
  lemma EscapeIsOnto(t: string)
    requires WellEscaped(t)
    ensures EscapeICSText(Unescape(t)) == t
  {
    ReadIsEscapedBack(t);
    EscapeIsOnePass(Unescape(t));
  }
}
