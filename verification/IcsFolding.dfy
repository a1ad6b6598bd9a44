/** Folding of content lines at 75 octets (section 3.1 of RFC 5545), and unfolding. */
module IcsFolding {

  const MAX_LINE_OCTETS: int := 75

  /** UTF-8 length of one character. */
  function Octets(c: char): (n: nat)
    ensures 1 <= n <= 4
  {
    if c as int < 0x80 then 1 else if c as int < 0x800 then 2 else if c as int < 0x1_0000 then 3 else 4
  }

  /** How many characters a UTF-8 sequence of `n` octets can tell apart: 7, 11, 16 or 21 bits of payload. */
  function Capacity(n: nat): nat {
    match n
    case 1 => 0x80
    case 2 => 0x20 * 0x40
    case 3 => 0x10 * 0x40 * 0x40
    case 4 => 0x08 * 0x40 * 0x40 * 0x40
    case _ => 0
  }

  /** `Octets` is the shortest length that has room for the character. */
  lemma OctetsAreShortest(c: char)
    ensures (c as int) < Capacity(Octets(c))
    ensures forall n :: 1 <= n < Octets(c) ==> (c as int) >= Capacity(n)
  {
  }

  function OctetsOf(s: string): nat {
    if s == "" then 0 else OctetsOf(s[..|s| - 1]) + Octets(s[|s| - 1])
  }

  /** Each line preceded by CRLF. */
  function Tail(lines: seq<string>): string {
    if lines == [] then "" else "\r\n" + lines[0] + Tail(lines[1..])
  }

  /** `join('\r\n')`. */
  function Join(lines: seq<string>): string {
    if lines == [] then "" else lines[0] + Tail(lines[1..])
  }

  /** The first physical line may fill 75 octets; the code counts the continuation space twice, leaving 74 after it. */
  function Limit(k: nat): nat {
    if k == 0 then MAX_LINE_OCTETS else MAX_LINE_OCTETS - 1
  }

  /** One more character: on the last physical line if it fits, else on a new one after a space. */
  function Grow(parts: seq<string>, c: char): (q: seq<string>)
    requires parts != []
    ensures q != []
  {
    var k := |parts| - 1;
    if OctetsOf(parts[k]) + Octets(c) > Limit(k) then parts + [[' ', c]] else parts[..k] + [parts[k] + [c]]
  }

  /** The physical lines of a content line. */
  function Fold(line: string): (parts: seq<string>)
    ensures parts != []
  {
    if line == "" then [""] else Grow(Fold(line[..|line| - 1]), line[|line| - 1])
  }

  lemma GrowLast(folded: seq<string>, current: string, c: char)
    ensures Grow(folded + [current], c)
            == if OctetsOf(current) + Octets(c) > Limit(|folded|) then folded + [current] + [[' ', c]]
               else folded + [current + [c]]
  {
    assert (folded + [current])[..|folded|] == folded;
  }

  /** One round of the loop in `FoldICSLine`. */
  lemma FoldNext(line: string, i: nat, folded: seq<string>, current: string)
    requires i < |line| && folded + [current] == Fold(line[..i])
    ensures Fold(line[..i + 1])
            == if OctetsOf(current) + Octets(line[i]) > Limit(|folded|) then folded + [current] + [" " + [line[i]]]
               else folded + [current + [line[i]]]
  {
    var whole := line[..i + 1];
    assert whole[..|whole| - 1] == line[..i] && whole[|whole| - 1] == line[i];
    assert Fold(whole) == Grow(Fold(line[..i]), line[i]);
    GrowLast(folded, current, line[i]);
    assert " " + [line[i]] == [' ', line[i]];
  }

  lemma OctetsSnoc(s: string, c: char)
    ensures OctetsOf(s + [c]) == OctetsOf(s) + Octets(c)
  {
    assert (s + [c])[..|s|] == s;
  }

  lemma OctetsOfSpace()
    ensures OctetsOf(" ") == 1
  {
    assert " "[..0] == "";
  }

  method FoldICSLine(line: string) returns (text: string)
    ensures text == Join(Fold(line))
  {
    if OctetsOf(line) <= MAX_LINE_OCTETS {
      ShortLineStays(line);
      assert Tail([line][1..]) == "";
      return line;
    }
    var folded: seq<string> := [];
    var current := "";
    var currentOctets := 0;
    var limit := MAX_LINE_OCTETS;
    for i := 0 to |line|
      invariant folded + [current] == Fold(line[..i])
      invariant currentOctets == OctetsOf(current)
      invariant limit == Limit(|folded|)
      invariant i > 0 ==> current != ""
    {
      var character := line[i];
      FoldNext(line, i, folded, current);
      var octets := Octets(character);
      if currentOctets + octets > limit {
        folded := folded + [current];
        current := "";
        currentOctets := 0;
        limit := MAX_LINE_OCTETS - 1;
        current := " ";
        currentOctets := 1;
        OctetsOfSpace();
      }
      OctetsSnoc(current, character);
      current := current + [character];
      currentOctets := currentOctets + octets;
    }
    assert line[..|line|] == line;
    if current != "" {
      folded := folded + [current];
    }
    return Join(folded);
  }

  lemma {:induction false} ShortLineStays(line: string)
    requires OctetsOf(line) <= MAX_LINE_OCTETS
    ensures Fold(line) == [line]
  {
    if line != "" {
      var init, c := line[..|line| - 1], line[|line| - 1];
      assert line == init + [c];
      OctetsSnoc(init, c);
      ShortLineStays(init);
      assert Fold(line) == Grow([init], c);
      GrowLast([], init, c);
      assert [] + [init] == [init];
    }
  }

  // ----- What folding guarantees -----

  /** The characters of the content line that physical line `k` carries. */
  function Chunk(k: nat, part: string): string {
    if k == 0 || part == "" then part else part[1..]
  }

  function Content(parts: seq<string>): string {
    if parts == [] then ""
    else Content(parts[..|parts| - 1]) + Chunk(|parts| - 1, parts[|parts| - 1])
  }

  /** Every later physical line starts with the one space that marks a continuation, and carries something. */
  predicate Continues(parts: seq<string>) {
    parts != [] && forall k :: 0 < k < |parts| ==> |parts[k]| > 1 && parts[k][0] == ' '
  }

  /** No physical line is over its limit, and none could have taken the character after it. */
  predicate Packed(parts: seq<string>) {
    && (forall k :: 0 <= k < |parts| ==> OctetsOf(parts[k]) <= Limit(k))
    && (forall k :: 0 < k < |parts| && |parts[k]| > 1 ==> OctetsOf(parts[k - 1]) + Octets(parts[k][1]) > Limit(k - 1))
  }

  predicate IsFolding(line: string, parts: seq<string>) {
    Continues(parts) && Packed(parts) && Content(parts) == line
  }

  lemma OctetsOfTwo(c: char)
    ensures OctetsOf([' ', c]) == 1 + Octets(c)
  {
    assert " " + [c] == [' ', c];
    OctetsOfSpace();
    OctetsSnoc(" ", c);
  }

  lemma ContentOfLast(parts: seq<string>, p: string)
    ensures Content(parts + [p]) == Content(parts) + Chunk(|parts|, p)
  {
    assert (parts + [p])[..|parts|] == parts;
  }

  lemma GrowContent(parts: seq<string>, c: char)
    requires Continues(parts)
    ensures Content(Grow(parts, c)) == Content(parts) + [c]
  {
    var k := |parts| - 1;
    var init, p := parts[..k], parts[k];
    assert parts == init + [p];
    ContentOfLast(init, p);
    GrowLast(init, p, c);
    if OctetsOf(p) + Octets(c) > Limit(k) {
      ContentOfLast(parts, [' ', c]);
    } else {
      ContentOfLast(init, p + [c]);
      assert Chunk(k, p + [c]) == Chunk(k, p) + [c];
    }
  }

  lemma GrowPacked(parts: seq<string>, c: char)
    requires Continues(parts) && Packed(parts)
    ensures Continues(Grow(parts, c)) && Packed(Grow(parts, c))
  {
    var k := |parts| - 1;
    var q := Grow(parts, c);
    OctetsSnoc(parts[k], c);
    OctetsOfTwo(c);
    forall j | 0 < j < |q| && |q[j]| > 1
      ensures OctetsOf(q[j - 1]) + Octets(q[j][1]) > Limit(j - 1)
    {
      if j <= k {
        assert q[j - 1] == parts[j - 1] && q[j][1] == parts[j][1];
      }
    }
  }

  lemma GrowIsFolding(line: string, parts: seq<string>, c: char)
    requires IsFolding(line, parts)
    ensures IsFolding(line + [c], Grow(parts, c))
  {
    GrowContent(parts, c);
    GrowPacked(parts, c);
  }

  lemma OneLineFolds()
    ensures IsFolding("", [""])
  {
    assert [""][..0] == [];
  }

  /** Folding keeps the content line, within the limits, and starts a new physical line only when it must. */
  lemma {:induction false} FoldIsFolding(line: string)
    ensures IsFolding(line, Fold(line))
  {
    if line == "" {
      OneLineFolds();
    } else {
      var init, c := line[..|line| - 1], line[|line| - 1];
      assert line == init + [c];
      FoldIsFolding(init);
      GrowIsFolding(init, Fold(init), c);
    }
  }

  lemma ShrinkPacked(q: seq<string>, parts: seq<string>)
    requires Packed(q) && 0 < |parts| <= |q|
    requires forall j :: 0 <= j < |parts| - 1 ==> parts[j] == q[j]
    requires var k := |parts| - 1;
             (|parts[k]| > 1 ==> |q[k]| > 1 && q[k][1] == parts[k][1]) && OctetsOf(parts[k]) <= OctetsOf(q[k])
    ensures Packed(parts)
  {
    forall j | 0 < j < |parts| && |parts[j]| > 1
      ensures OctetsOf(parts[j - 1]) + Octets(parts[j][1]) > Limit(j - 1)
    {
      assert parts[j - 1] == q[j - 1] && parts[j][1] == q[j][1];
    }
  }

  lemma ShorterContinues(init: seq<string>, p: string, parts: seq<string>)
    requires Continues(init + [p]) && parts != []
    requires parts == init || (|parts| == |init| + 1 && parts[..|init|] == init)
    requires |parts| > |init| > 0 ==> |parts[|init|]| > 1 && parts[|init|][0] == ' '
    ensures Continues(parts)
  {
    forall j | 0 < j < |parts| ensures |parts[j]| > 1 && parts[j][0] == ' ' {
      if j < |init| {
        assert (init + [p])[j] == init[j] == parts[j];
      }
    }
  }

  lemma LastIsForced(init: seq<string>, p: string)
    requires Packed(init + [p]) && init != [] && |p| > 1
    ensures Packed(init) && OctetsOf(init[|init| - 1]) + Octets(p[1]) > Limit(|init| - 1)
  {
    var q, k := init + [p], |init|;
    assert q[k] == p && q[k - 1] == init[k - 1];
    ShrinkPacked(q, init);
  }

  lemma StartsLine(init: seq<string>, c: char)
    requires init != [] && OctetsOf(init[|init| - 1]) + Octets(c) > Limit(|init| - 1)
    ensures Grow(init, c) == init + [[' ', c]]
  {
  }

  /** A folding whose last line holds one character was grown by starting that line. */
  lemma ShrinkLine(line: string, init: seq<string>, p: string)
    requires IsFolding(line, init + [p]) && init != [] && |p| == 2
    ensures line != "" && IsFolding(line[..|line| - 1], init) && Grow(init, line[|line| - 1]) == init + [p]
  {
    var q := init + [p];
    assert q[|init|] == p;
    assert p == [' ', p[1]];
    ShorterContinues(init, p, init);
    LastIsForced(init, p);
    StartsLine(init, p[1]);
    ContentOfLast(init, p);
    assert line == Content(init) + [p[1]];
  }

  lemma LastShrinks(init: seq<string>, p: string)
    requires Packed(init + [p]) && p != "" && (init != [] ==> |p| > 2)
    ensures Packed(init + [p[..|p| - 1]])
    ensures OctetsOf(p[..|p| - 1]) + Octets(p[|p| - 1]) <= Limit(|init|)
  {
    var p', c := p[..|p| - 1], p[|p| - 1];
    assert p == p' + [c];
    OctetsSnoc(p', c);
    var q, parts := init + [p], init + [p'];
    assert q[|init|] == p;
    assert parts[|init|] == p';
    if init == [] {
      assert forall k :: 0 <= k < |parts| ==> parts[k] == p';
    } else {
      ShrinkPacked(q, parts);
    }
  }

  lemma ContentShrinks(init: seq<string>, p: string)
    requires p != "" && (init != [] ==> |p| > 2)
    ensures Content(init + [p]) == Content(init + [p[..|p| - 1]]) + [p[|p| - 1]]
  {
    var p', c := p[..|p| - 1], p[|p| - 1];
    ContentOfLast(init, p);
    ContentOfLast(init, p');
    assert Chunk(|init|, p) == Chunk(|init|, p') + [c];
  }

  /** Any other folding was grown by extending its last line. */
  lemma ShrinkLast(line: string, init: seq<string>, p: string)
    requires IsFolding(line, init + [p]) && p != "" && (init != [] ==> |p| > 2)
    ensures line != "" && IsFolding(line[..|line| - 1], init + [p[..|p| - 1]])
    ensures Grow(init + [p[..|p| - 1]], line[|line| - 1]) == init + [p]
  {
    var p', c := p[..|p| - 1], p[|p| - 1];
    assert (init + [p])[|init|] == p && p == p' + [c];
    LastShrinks(init, p);
    ShorterContinues(init, p, init + [p']);
    GrowLast(init, p', c);
    ContentShrinks(init, p);
  }

  lemma LastPart(line: string, init: seq<string>, p: string)
    requires IsFolding(line, init + [p])
    ensures init != [] ==> |p| > 1
    ensures if line == "" then init == [] && p == "" else p != ""
  {
    assert (init + [p])[|init|] == p;
    ContentOfLast(init, p);
  }

  /** Taking the last character away undoes one `Grow`. */
  lemma Shrink(line: string, q: seq<string>) returns (parts: seq<string>)
    requires IsFolding(line, q) && line != ""
    ensures IsFolding(line[..|line| - 1], parts) && Grow(parts, line[|line| - 1]) == q
  {
    var init, p := q[..|q| - 1], q[|q| - 1];
    assert q == init + [p];
    LastPart(line, init, p);
    if init != [] && |p| == 2 {
      ShrinkLine(line, init, p);
      return init;
    } else {
      ShrinkLast(line, init, p);
      return init + [p[..|p| - 1]];
    }
  }

  /** A content line has only one folding. */
  lemma {:induction false} OnlyFolding(line: string, q: seq<string>)
    requires IsFolding(line, q)
    ensures q == Fold(line)
    decreases |line|
  {
    if line == "" {
      assert q == q[..|q| - 1] + [q[|q| - 1]];
      LastPart(line, q[..|q| - 1], q[|q| - 1]);
    } else {
      var parts := Shrink(line, q);
      OnlyFolding(line[..|line| - 1], parts);
    }
  }

  // ----- How much a continuation carries -----

  lemma {:induction false} OctetsFront(s: string)
    requires s != ""
    ensures OctetsOf(s) == Octets(s[0]) + OctetsOf(s[1..])
  {
    var init, c := s[..|s| - 1], s[|s| - 1];
    if init == "" {
      assert s[1..] == "";
    } else {
      OctetsFront(init);
      assert s[1..] == init[1..] + [c];
      OctetsSnoc(init[1..], c);
    }
  }

  /** Every continuation carries at most 73 octets of the content line, one fewer than 75 octets leave room for. */
  lemma ContinuationContent(line: string, k: nat)
    requires 0 < k < |Fold(line)|
    ensures OctetsOf(Chunk(k, Fold(line)[k])) <= MAX_LINE_OCTETS - 2
  {
    FoldIsFolding(line);
    OctetsFront(Fold(line)[k]);
  }
}
