/** The string operations of Rust's standard library that the engine's parsers use. */
module Text {
  import opened Common

  /** `char::is_whitespace`. */
  predicate IsSpace(c: char) {
    var u := c as int;
    || 9 <= u <= 13 || u == 32 || u == 0x85 || u == 0xA0 || u == 0x1680
    || 0x2000 <= u <= 0x200A || u == 0x2028 || u == 0x2029 || u == 0x202F || u == 0x205F || u == 0x3000
  }

  function TrimStart(s: string): string {
    if s != [] && IsSpace(s[0]) then TrimStart(s[1..]) else s
  }

  function TrimEnd(s: string): string {
    if s != [] && IsSpace(s[|s| - 1]) then TrimEnd(s[..|s| - 1]) else s
  }

  function Trim(s: string): string {
    TrimEnd(TrimStart(s))
  }

  predicate Trimmed(s: string) {
    s == [] || (!IsSpace(s[0]) && !IsSpace(s[|s| - 1]))
  }

  lemma {:induction false} TrimEndKeepsFirst(s: string)
    ensures var t := TrimEnd(s); t == [] || (!IsSpace(t[|t| - 1]) && t[0] == s[0])
    ensures s != [] && !IsSpace(s[0]) ==> TrimEnd(s) != []
  {
    if s != [] && IsSpace(s[|s| - 1]) {
      TrimEndKeepsFirst(s[..|s| - 1]);
    }
  }

  lemma {:induction false} TrimStartStops(s: string)
    ensures var t := TrimStart(s); t == [] || !IsSpace(t[0])
  {
    if s != [] && IsSpace(s[0]) {
      TrimStartStops(s[1..]);
    }
  }

  /** Trimming twice is trimming once. */
  lemma TrimIsIdempotent(s: string)
    ensures Trimmed(Trim(s)) && Trim(Trim(s)) == Trim(s)
  {
    TrimStartStops(s);
    TrimEndKeepsFirst(TrimStart(s));
  }

  /** `s.split(c)`: always at least one part. */
  function Split(s: string, c: char): (parts: seq<string>)
    ensures |parts| >= 1
  {
    if s == [] then [[]]
    else
      var rest := Split(s[1..], c);
      if s[0] == c then [[]] + rest else [[s[0]] + rest[0]] + rest[1..]
  }

  /** `parts.join(c)`. */
  function Joined(parts: seq<string>, c: char): string {
    if parts == [] then [] else if |parts| == 1 then parts[0] else parts[0] + [c] + Joined(parts[1..], c)
  }

  lemma {:induction false} SplitPrefix(part: string, rest: string, c: char)
    requires c !in part
    ensures Split(part + rest, c) == [part + Split(rest, c)[0]] + Split(rest, c)[1..]
    decreases |part|
  {
    var parts := Split(rest, c);
    if part == [] {
      assert part + rest == rest;
      assert part + parts[0] == parts[0];
      assert [part + parts[0]] + parts[1..] == parts;
    } else {
      assert (part + rest)[1..] == part[1..] + rest;
      SplitPrefix(part[1..], rest, c);
      assert [part[0]] + (part[1..] + parts[0]) == part + parts[0];
    }
  }

  lemma {:induction false} SplitUndoesJoined(parts: seq<string>, c: char)
    requires parts != [] && forall i | 0 <= i < |parts| :: c !in parts[i]
    ensures Split(Joined(parts, c), c) == parts
    decreases |parts|
  {
    if |parts| == 1 {
      SplitPrefix(parts[0], [], c);
      assert parts[0] + [] == parts[0] && parts == [parts[0]];
    } else {
      SplitUndoesJoined(parts[1..], c);
      SplitPrefix(parts[0], [c] + Joined(parts[1..], c), c);
      assert parts[0] + [c] + Joined(parts[1..], c) == parts[0] + ([c] + Joined(parts[1..], c));
      assert ([c] + Joined(parts[1..], c))[1..] == Joined(parts[1..], c);
      assert parts[0] + [] == parts[0];
      assert parts == [parts[0] + []] + parts[1..];
    }
  }

  /** `s.split_once(c)`. */
  function SplitOnce(s: string, c: char): Option<(string, string)> {
    if s == [] then None
    else if s[0] == c then Some(([], s[1..]))
    else match SplitOnce(s[1..], c)
      case None => None
      case Some((a, b)) => Some(([s[0]] + a, b))
  }

  /** Split at the first of its kind, and only where there is one. */
  lemma {:induction false} SplitOnceParts(s: string, c: char)
    ensures match SplitOnce(s, c)
      case None => c !in s
      case Some((a, b)) => s == a + [c] + b && c !in a
  {
    if s != [] && s[0] != c {
      SplitOnceParts(s[1..], c);
    }
  }

  lemma {:induction false} SplitOnceMissing(s: string, c: char)
    requires c !in s
    ensures SplitOnce(s, c) == None
  {
    if s != [] {
      SplitOnceMissing(s[1..], c);
    }
  }

  lemma {:induction false} SplitOnceAt(a: string, b: string, c: char)
    requires c !in a
    ensures SplitOnce(a + [c] + b, c) == Some((a, b))
  {
    var s := a + [c] + b;
    if a == [] {
      assert s[1..] == b;
    } else {
      SplitOnceAt(a[1..], b, c);
      assert s[1..] == a[1..] + [c] + b;
      assert [a[0]] + a[1..] == a;
    }
  }

  /** `s.split_whitespace()`: no empty parts. */
  function SplitWhitespace(s: string): seq<string> {
    Words(s, [])
  }

  function Words(s: string, word: string): seq<string> {
    if s == [] then (if word == [] then [] else [word])
    else if IsSpace(s[0]) then (if word == [] then [] else [word]) + Words(s[1..], [])
    else Words(s[1..], word + [s[0]])
  }

  lemma {:induction false} WordsRun(w: string, word: string, rest: string)
    requires forall c <- w :: !IsSpace(c)
    ensures Words(w + rest, word) == Words(rest, word + w)
    decreases |w|
  {
    if w == [] {
      assert w + rest == rest && word + w == word;
    } else {
      assert w[0] in w && (w + rest)[1..] == w[1..] + rest;
      WordsRun(w[1..], word + [w[0]], rest);
      assert word + [w[0]] + w[1..] == word + w;
    }
  }

  predicate IsAlphabetic(c: char) {
    'a' <= c <= 'z' || 'A' <= c <= 'Z'
  }

  function LowerChar(c: char): char {
    if 'A' <= c <= 'Z' then (c as int + 32) as char else c
  }

  /** `to_ascii_lowercase`. */
  function Lower(s: string): (r: string)
    ensures |r| == |s|
  {
    if s == [] then [] else [LowerChar(s[0])] + Lower(s[1..])
  }

  predicate AllDigits(s: string) {
    forall i | 0 <= i < |s| :: '0' <= s[i] <= '9'
  }

  function Digits(s: string): nat
    requires AllDigits(s)
  {
    if s == [] then 0 else Digits(s[..|s| - 1]) * 10 + (s[|s| - 1] as int - '0' as int)
  }

  /** Writing a number in decimal. */
  function Decimal(n: nat): (s: string)
    ensures s != [] && AllDigits(s)
  {
    (if n < 10 then [] else Decimal(n / 10)) + [('0' as int + n % 10) as char]
  }

  lemma {:induction false} DecimalReadsBack(n: nat)
    ensures Digits(Decimal(n)) == n
  {
    var s := Decimal(n);
    if n >= 10 {
      DecimalReadsBack(n / 10);
      assert s[..|s| - 1] == Decimal(n / 10);
    } else {
      assert s[..0] == [];
    }
  }

  const U32_LIMIT := 0x1_0000_0000

  /** `s.parse::<u32>()`: an optional plus sign, then digits, and no overflow. */
  function ParseU32(s: string): (r: Option<nat>)
    ensures r.Some? ==> r.value < U32_LIMIT
  {
    var digits := if s != [] && s[0] == '+' then s[1..] else s;
    if digits != [] && AllDigits(digits) && Digits(digits) < U32_LIMIT then Some(Digits(digits)) else None
  }

  /** Where the first line ends: at its newline, or at the end of the text. */
  function LineEnd(text: string): (n: nat)
    ensures n <= |text| && '\n' !in text[..n] && (n < |text| ==> text[n] == '\n')
  {
    if text == [] || text[0] == '\n' then 0
    else
      var n := LineEnd(text[1..]) + 1;
      assert text[..n] == [text[0]] + text[1..][..n - 1];
      n
  }

  function StripCr(line: string): string {
    if line != [] && line[|line| - 1] == '\r' then line[..|line| - 1] else line
  }

  /** `str::lines`: a carriage return goes only with the newline it precedes, and a final newline starts no line. */
  function Lines(text: string): seq<string>
    decreases |text|
  {
    if text == [] then []
    else
      var n := LineEnd(text);
      if n == |text| then [text] else [StripCr(text[..n])] + Lines(text[n + 1..])
  }

  lemma {:induction false} LineEndIs(text: string, n: nat)
    requires n <= |text| && '\n' !in text[..n] && (n < |text| ==> text[n] == '\n')
    ensures LineEnd(text) == n
  {
    if n > 0 {
      assert text[0] == text[..n][0];
      assert text[1..][..n - 1] == text[..n][1..];
      LineEndIs(text[1..], n - 1);
    }
  }

  lemma LineEndOfFirst(name: string, rest: string)
    requires '\n' !in name
    ensures LineEnd(name) == |name|
    ensures LineEnd(name + ['\n'] + rest) == |name|
  {
    assert name[..|name|] == name;
    LineEndIs(name, |name|);
    assert (name + ['\n'] + rest)[..|name|] == name;
    LineEndIs(name + ['\n'] + rest, |name|);
  }

  lemma {:induction false} LinesHaveNoNewline(text: string)
    ensures forall i | 0 <= i < |Lines(text)| :: '\n' !in Lines(text)[i]
    decreases |text|
  {
    if text != [] {
      var n := LineEnd(text);
      assert text[..|text|] == text;
      if n < |text| {
        LinesHaveNoNewline(text[n + 1..]);
      }
    }
  }

  // ── The same, in the characters themselves ──

  /** The white space of Unicode. */
  const WHITE_SPACE := {
    0x09, 0x0A, 0x0B, 0x0C, 0x0D, 0x20, 0x85, 0xA0, 0x1680, 0x2000, 0x2001, 0x2002, 0x2003, 0x2004, 0x2005, 0x2006,
    0x2007, 0x2008, 0x2009, 0x200A, 0x2028, 0x2029, 0x202F, 0x205F, 0x3000}

  const SMALL := "abcdefghijklmnopqrstuvwxyz"
  const CAPITAL := "ABCDEFGHIJKLMNOPQRSTUVWXYZ"

  predicate IsWhite(c: char) { c as int in WHITE_SPACE }

  predicate White(s: string) { forall c <- s :: IsWhite(c) }

  lemma SpacesAre(c: char)
    ensures IsSpace(c) <==> IsWhite(c)
  {
  }

  lemma {:induction false} TrimStartDrops(a: string, s: string)
    requires White(a) && (s != [] ==> !IsWhite(s[0]))
    ensures TrimStart(a + s) == s
    decreases |a|
  {
    if s != [] {
      SpacesAre(s[0]);
    }
    if a == [] {
      assert a + s == s;
    } else {
      SpacesAre(a[0]);
      assert a[0] in a && (a + s)[1..] == a[1..] + s;
      TrimStartDrops(a[1..], s);
    }
  }

  lemma {:induction false} TrimEndDrops(s: string, b: string)
    requires White(b) && (s != [] ==> !IsWhite(s[|s| - 1]))
    ensures TrimEnd(s + b) == s
    decreases |b|
  {
    if s != [] {
      SpacesAre(s[|s| - 1]);
    }
    if b == [] {
      assert s + b == s;
    } else {
      var n := |b| - 1;
      SpacesAre(b[n]);
      assert b[n] in b && (s + b)[..|s + b| - 1] == s + b[..n];
      TrimEndDrops(s, b[..n]);
    }
  }

  /** Trimming takes the white space off both ends, and nothing else. */
  lemma TrimTakesTheEndsOff(a: string, s: string, b: string)
    requires White(a) && White(b) && (s != [] ==> !IsWhite(s[0]) && !IsWhite(s[|s| - 1]))
    ensures Trim(a + s + b) == s
  {
    if s == [] {
      TrimStartDrops(a + b, []);
      assert a + s + b == a + b + [];
    } else {
      assert a + s + b == a + (s + b) && (s + b)[0] == s[0];
      TrimStartDrops(a, s + b);
      TrimEndDrops(s, b);
    }
  }

  lemma {:induction false} TrimStartEmpties(s: string)
    ensures TrimStart(s) == [] <==> White(s)
  {
    if s != [] {
      SpacesAre(s[0]);
      assert s == [s[0]] + s[1..];
      TrimStartEmpties(s[1..]);
    }
  }

  /** Nothing is left of white space only. */
  lemma TrimIsEmptyExactly(s: string)
    ensures Trim(s) == [] <==> White(s)
  {
    TrimStartEmpties(s);
    TrimStartStops(s);
    TrimEndKeepsFirst(TrimStart(s));
  }

  lemma {:induction false} WordsAround(a: string, c: char, b: string, word: string)
    requires IsWhite(c)
    ensures Words(a + [c] + b, word) == Words(a, word) + Words(b, [])
    decreases |a|
  {
    var s := a + [c] + b;
    SpacesAre(c);
    if a == [] {
      assert s[1..] == b;
    } else {
      assert s[1..] == a[1..] + [c] + b;
      WordsAround(a[1..], c, b, if IsSpace(a[0]) then [] else word + [a[0]]);
    }
  }

  /** White space parts the words on both of its sides, and a run without it is one word. */
  lemma WordsArePartedByWhiteSpace(a: string, c: char, b: string)
    ensures IsWhite(c) ==> SplitWhitespace(a + [c] + b) == SplitWhitespace(a) + SplitWhitespace(b)
    ensures (forall d <- a :: !IsWhite(d)) ==> SplitWhitespace(a) == if a == [] then [] else [a]
  {
    if IsWhite(c) {
      WordsAround(a, c, b, []);
    }
    if forall d <- a :: !IsWhite(d) {
      forall d <- a ensures !IsSpace(d) {
        SpacesAre(d);
      }
      WordsRun(a, [], []);
      assert a + [] == a && [] + a == a;
    }
  }

  lemma CapitalsAre(k: nat)
    requires k < 26
    ensures CAPITAL[k] as int == 'A' as int + k
  {
  }

  lemma SmallsAre(k: nat)
    requires k < 26
    ensures SMALL[k] as int == 'a' as int + k
  {
  }

  /** The letters are those of the two alphabets, and lowering takes each capital to the small one of its place. */
  lemma LoweringMeans(k: nat, c: char)
    requires k < 26
    ensures LowerChar(CAPITAL[k]) == SMALL[k]
    ensures c !in CAPITAL ==> LowerChar(c) == c
  {
    CapitalsAre(k);
    SmallsAre(k);
    if 'A' <= c <= 'Z' {
      CapitalsAre(c as int - 'A' as int);
      assert CAPITAL[c as int - 'A' as int] == c;
    }
  }

  lemma LettersAre(c: char)
    ensures IsAlphabetic(c) <==> c in SMALL || c in CAPITAL
  {
    if 'A' <= c <= 'Z' {
      CapitalsAre(c as int - 'A' as int);
      assert CAPITAL[c as int - 'A' as int] == c;
    }
    if 'a' <= c <= 'z' {
      SmallsAre(c as int - 'a' as int);
      assert SMALL[c as int - 'a' as int] == c;
    }
    if c in SMALL {
      var i :| 0 <= i < |SMALL| && SMALL[i] == c;
      SmallsAre(i);
    }
    if c in CAPITAL {
      var i :| 0 <= i < |CAPITAL| && CAPITAL[i] == c;
      CapitalsAre(i);
    }
  }

  lemma {:induction false} LowerGoesByCharacter(s: string, i: nat)
    requires i < |s|
    ensures Lower(s)[i] == LowerChar(s[i])
  {
    if i > 0 {
      LowerGoesByCharacter(s[1..], i - 1);
    }
  }

  function Zeros(k: nat): string { if k == 0 then [] else ['0'] + Zeros(k - 1) }

  lemma {:induction false} LeadingZeros(k: nat, s: string)
    requires AllDigits(s)
    ensures AllDigits(Zeros(k) + s) && Digits(Zeros(k) + s) == Digits(s)
    decreases k, |s|
  {
    var t := Zeros(k) + s;
    if k == 0 {
      assert t == s;
    } else if s == [] {
      LeadingZeros(k - 1, ['0']);
      assert Zeros(k - 1) + ['0'] == t by { ZerosEnd(k - 1); }
      assert Digits(['0']) == 0 by { assert ['0'][..0] == []; }
    } else {
      LeadingZeros(k, s[..|s| - 1]);
      assert t[..|t| - 1] == Zeros(k) + s[..|s| - 1];
      assert t[|t| - 1] == s[|s| - 1];
      assert forall i | 0 <= i < |t| - 1 :: t[i] == t[..|t| - 1][i];
    }
  }

  lemma {:induction false} ZerosEnd(k: nat)
    ensures Zeros(k) + ['0'] == ['0'] + Zeros(k)
  {
    if k > 0 {
      ZerosEnd(k - 1);
      assert Zeros(k) + ['0'] == ['0'] + (Zeros(k - 1) + ['0']);
    }
  }

  lemma DecimalIsRead(n: nat)
    ensures ParseU32(Decimal(n)) == if n < 4_294_967_296 then Some(n) else None
  {
    DecimalReadsBack(n);
    assert Decimal(n)[0] != '+';
  }

  /** A number that fits 32 bits is read in any spelling: a plus sign, leading zeros; a larger one is not a number. */
  lemma NumbersAreRead(n: nat, zeros: nat)
    ensures ParseU32(Zeros(zeros) + Decimal(n)) == if n < 4_294_967_296 then Some(n) else None
    ensures ParseU32("+" + (Zeros(zeros) + Decimal(n))) == if n < 4_294_967_296 then Some(n) else None
  {
    var s := Zeros(zeros) + Decimal(n);
    DecimalReadsBack(n);
    LeadingZeros(zeros, Decimal(n));
    assert s[0] != '+';
    assert ("+" + s)[1..] == s;
  }

  /** Anything else is none: no digit, a sign of its own, or any other character. */
  lemma OthersAreNoNumber(s: string, c: char)
    ensures ParseU32([]).None? && ParseU32("+").None?
    ensures c in s && !('0' <= c <= '9') && c != '+' ==> ParseU32(s).None?
    ensures ParseU32("++" + s).None?
  {
    if c in s && !('0' <= c <= '9') && c != '+' {
      var i :| 0 <= i < |s| && s[i] == c;
      assert s[0] == '+' ==> s[1..][i - 1] == c;
    }
    assert ("++" + s)[1..][0] == '+';
  }
}
