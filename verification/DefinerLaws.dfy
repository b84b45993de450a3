/** What the `DEFINER=` filter keeps, what it can break, and what it drops. */
module DefinerLaws {
  import opened Common
  import opened Definer
  import Rows = Text

  // ── Bytes ──

  /** The output is the stripped line itself exactly when no byte of 128 or more is left in it. */
  lemma OutputIsTheStrippedLineExactly(s: Line)
    ensures Encoded(s) == s <==> Ascii(s)
  {
    EncodedExactly(s);
  }

  // ── Literals ──

  lemma {:induction false} KeptOfSum(a: seq<Token>, b: seq<Token>)
    ensures Kept(a + b) == Kept(a) + Kept(b)
  {
    if a == [] {
      assert a + b == b;
    } else {
      assert (a + b)[1..] == a[1..] + b;
      KeptOfSum(a[1..], b);
    }
  }

  lemma {:induction false} TextOfSum(a: seq<Token>, b: seq<Token>)
    ensures Text(a + b) == Text(a) + Text(b)
  {
    if a == [] {
      assert a + b == b;
    } else {
      assert (a + b)[1..] == a[1..] + b;
      TextOfSum(a[1..], b);
    }
  }

  /** Every quoted literal of the line is in the output, byte for byte, after what was kept before it. */
  lemma LiteralsSurvive(line: Line, i: nat)
    requires i < |Lex(line)| && Lex(line)[i].Literal?
    ensures Stripped(line) == Text(Kept(Lex(line)[..i])) + Lex(line)[i].text + Text(Kept(Lex(line)[i + 1..]))
  {
    LiteralStays(Lex(line), i);
  }

  lemma LiteralStays(tokens: seq<Token>, i: nat)
    requires i < |tokens| && tokens[i].Literal?
    ensures Text(Kept(tokens)) == Text(Kept(tokens[..i])) + tokens[i].text + Text(Kept(tokens[i + 1..]))
  {
    SplitAround(tokens, i);
    LiteralBetween(tokens[..i], tokens[i], tokens[i + 1..]);
  }

  lemma SplitAround(tokens: seq<Token>, i: nat)
    requires i < |tokens|
    ensures tokens == tokens[..i] + ([tokens[i]] + tokens[i + 1..])
  {
  }

  lemma LiteralBetween(before: seq<Token>, t: Token, after: seq<Token>)
    requires t.Literal?
    ensures Text(Kept(before + ([t] + after))) == Text(Kept(before)) + t.text + Text(Kept(after))
  {
    KeptOfSum(before, [t] + after);
    TextOfSum(Kept(before), Kept([t] + after));
    UnfoldTokens(t, after);
    Associates(Text(Kept(before)), t.text, Text(Kept(after)));
  }

  lemma {:induction false} UnclosedRunsOut(q: Byte, s: Line)
    requires !Closes(q, s)
    ensures Closing(q, s) == |s|
    decreases |s|
  {
    if s != [] {
      if s[0] == '\\' && q != '`' {
        if |s| > 1 {
          UnclosedRunsOut(q, s[2..]);
        }
      } else if s[0] == q {
        UnclosedRunsOut(q, s[2..]);
      } else {
        UnclosedRunsOut(q, s[1..]);
      }
    }
  }

  /** Cut at its closing quote, a literal still closes there. */
  lemma {:induction false} ClosesWhereItClosed(q: Byte, s: Line)
    requires Closes(q, s)
    ensures var t := s[..Closing(q, s)]; Closes(q, t) && Closing(q, t) == |t|
    decreases |s|
  {
    var t := s[..Closing(q, s)];
    if s[0] == '\\' && q != '`' {
      ClosesWhereItClosed(q, s[2..]);
      assert t[2..] == s[2..][..Closing(q, s[2..])];
    } else if s[0] == q {
      if |s| > 1 && s[1] == q {
        ClosesWhereItClosed(q, s[2..]);
        assert t[2..] == s[2..][..Closing(q, s[2..])];
      }
    } else {
      ClosesWhereItClosed(q, s[1..]);
      assert t[1..] == s[1..][..Closing(q, s[1..])];
    }
  }

  /** Text after a closed literal leaves it alone exactly when it does not begin with the same quote. */
  lemma {:induction false} ClosedBeforeExactly(q: Byte, a: Line, b: Line)
    requires Closes(q, a) && Closing(q, a) == |a|
    ensures Closing(q, a + b) == |a| <==> b == [] || b[0] != q
    ensures Closing(q, a + b) >= |a|
    decreases |a|
  {
    if a[0] == '\\' && q != '`' {
      assert (a + b)[2..] == a[2..] + b;
      ClosedBeforeExactly(q, a[2..], b);
    } else if a[0] == q {
      if |a| > 1 {
        assert (a + b)[2..] == a[2..] + b;
        ClosedBeforeExactly(q, a[2..], b);
      } else if b != [] && b[0] == q {
        assert (a + b)[1] == b[0];
      }
    } else {
      assert (a + b)[1..] == a[1..] + b;
      ClosedBeforeExactly(q, a[1..], b);
    }
  }

  /** How a reader of the output that knows quotes, and no clauses, would cut it up. */
  function QuoteFirst(s: Line): (t: Token)
    ensures s != [] ==> 0 < |TextOf(t)| <= |s| && TextOf(t) == s[..|TextOf(t)|]
  {
    if s == [] then Plain(' ')
    else if IsQuote(s[0]) then Literal(s[..1 + Closing(s[0], s[1..])])
    else Plain(s[0])
  }

  predicate WellCutToken(t: Token, last: bool) {
    match t
    case Plain(c) => !IsQuote(c)
    case Literal(text) =>
      && text != [] && IsQuote(text[0]) && Closing(text[0], text[1..]) == |text| - 1
      && (last || Closes(text[0], text[1..]))
    case Clause(_) => false
  }

  predicate WellCut(tokens: seq<Token>) {
    tokens == [] || (WellCutToken(tokens[0], |tokens| == 1) && WellCut(tokens[1..]))
  }

  lemma FirstIsWellCut(s: Line)
    requires s != [] && !First(s).Clause?
    ensures var t := First(s);
      && WellCutToken(t, s[|TextOf(t)|..] == [])
  {
    if IsQuote(s[0]) {
      var n := Closing(s[0], s[1..]);
      var text := s[..1 + n];
      assert text[1..] == s[1..][..n];
      if Closes(s[0], s[1..]) {
        ClosesWhereItClosed(s[0], s[1..]);
      } else {
        UnclosedRunsOut(s[0], s[1..]);
        assert text == s;
      }
    }
  }

  lemma LastMayBeOpen(t: Token, last: bool)
    requires WellCutToken(t, false)
    ensures WellCutToken(t, last)
  {
  }

  lemma {:induction false} KeptIsWellCut(s: Line)
    ensures WellCut(Kept(Lex(s)))
    decreases |s|
  {
    if s != [] {
      var t := First(s);
      var rest := s[|TextOf(t)|..];
      KeptIsWellCut(rest);
      KeptOfCons(t, Lex(rest));
      if !t.Clause? {
        FirstIsWellCut(s);
        if rest == [] {
          assert Kept(Lex(rest)) == [];
        } else {
          LastMayBeOpen(t, Kept(Lex(rest)) == []);
        }
        WellCutCons(t, Kept(Lex(rest)));
      }
    }
  }

  lemma KeptOfCons(t: Token, tail: seq<Token>)
    ensures Kept([t] + tail) == if t.Clause? then Kept(tail) else [t] + Kept(tail)
  {
    assert ([t] + tail)[1..] == tail;
    assert [] + Kept(tail) == Kept(tail);
  }

  lemma WellCutCons(t: Token, tail: seq<Token>)
    requires WellCut(tail) && WellCutToken(t, tail == [])
    ensures WellCut([t] + tail)
  {
    assert ([t] + tail)[1..] == tail;
  }

  predicate Merges(t: Token, next: Token) {
    t.Literal? && next.Literal? && t.text != [] && next.text != [] && t.text[0] == next.text[0]
  }

  /** No two literals with the same quote stand side by side. */
  predicate Separated(tokens: seq<Token>) {
    forall i | 0 <= i < |tokens| - 1 :: !Merges(tokens[i], tokens[i + 1])
  }

  lemma SeparatedUnfolds(tokens: seq<Token>)
    requires |tokens| > 1
    ensures Separated(tokens) <==> !Merges(tokens[0], tokens[1]) && Separated(tokens[1..])
  {
    var rest := tokens[1..];
    if Separated(rest) && !Merges(tokens[0], tokens[1]) {
      forall i | 0 <= i < |tokens| - 1 ensures !Merges(tokens[i], tokens[i + 1]) {
        assert i > 0 ==> tokens[i] == rest[i - 1] && tokens[i + 1] == rest[i];
      }
    }
    if Separated(tokens) {
      forall i | 0 <= i < |rest| - 1 ensures !Merges(rest[i], rest[i + 1]) {
        assert rest[i] == tokens[i + 1] && rest[i + 1] == tokens[i + 2];
      }
    }
  }

  lemma {:induction false} RereadExactly(tokens: seq<Token>)
    requires WellCut(tokens)
    ensures LexBy(QuoteFirst, Text(tokens)) == tokens <==> Separated(tokens)
    decreases |tokens|
  {
    if tokens != [] {
      var t, tail := tokens[0], tokens[1..];
      assert tokens == [t] + tail;
      var b := Text(tail);
      RereadExactly(tail);
      FirstOfReread(t, tail);
      if tail != [] {
        SeparatedUnfolds(tokens);
      }
      var s := Text(tokens);
      assert s == TextOf(t) + b;
      assert s[|TextOf(t)|..] == b;
      assert LexBy(QuoteFirst, s)[0] == QuoteFirst(s);
    }
  }

  lemma FirstOfReread(t: Token, tail: seq<Token>)
    requires WellCutToken(t, tail == []) && WellCut(tail)
    ensures QuoteFirst(TextOf(t) + Text(tail)) == t <==> tail == [] || !Merges(t, tail[0])
  {
    match t {
      case Plain(c) =>
      case Literal(text) =>
        if tail == [] {
          assert text + Text(tail) == text && text[..|text|] == text;
        } else {
          TailBegins(tail);
          LiteralReread(text, Text(tail));
        }
    }
  }

  lemma TailBegins(tail: seq<Token>)
    requires WellCut(tail) && tail != []
    ensures Text(tail) != [] && Text(tail)[0] == TextOf(tail[0])[0]
    ensures IsQuote(Text(tail)[0]) <==> tail[0].Literal?
  {
  }

  lemma LiteralReread(text: Line, b: Line)
    requires text != [] && IsQuote(text[0]) && Closes(text[0], text[1..]) && Closing(text[0], text[1..]) == |text| - 1
    requires b != []
    ensures QuoteFirst(text + b) == Literal(text) <==> b[0] != text[0]
  {
    var s := text + b;
    assert s[1..] == text[1..] + b && s[..|text|] == text;
    ClosedBeforeExactly(text[0], text[1..], b);
  }

  /**
   Someone who reads the output finds the same literals and the same plain bytes exactly
   when no dropped clause stood between two literals with the same quote. Otherwise the two
   run together into one, with a doubled quote in the middle.
   */
  lemma QuotesReadBackExactly(line: Line)
    ensures LexBy(QuoteFirst, Stripped(line)) == Kept(Lex(line)) <==> Separated(Kept(Lex(line)))
  {
    KeptIsWellCut(line);
    RereadExactly(Kept(Lex(line)));
  }

  // ── What goes wrong ──

  lemma StrippedOf(s: Line)
    requires s != []
    ensures Stripped(s) == (if First(s).Clause? then [] else TextOf(First(s))) + Stripped(s[|TextOf(First(s))|..])
  {
    KeptUnfolds(First, s);
  }

  /** A text too short for the keyword, with no quote in it, is kept as it is. */
  lemma {:induction false} ShortIsKept(s: Line)
    requires |s| < |KEYWORD| && forall i | 0 <= i < |s| :: !IsQuote(s[i])
    ensures Stripped(s) == s
  {
    if s != [] {
      StrippedOf(s);
      ShortIsKept(s[1..]);
      assert [s[0]] + s[1..] == s;
    }
  }

  lemma KeywordStarts(rest: Line)
    ensures StartsWithKeyword(KEYWORD + rest) && !IsQuote((KEYWORD + rest)[0]) && (KEYWORD + rest)[|KEYWORD|..] == rest
  {
    assert (KEYWORD + rest)[..|KEYWORD|] == KEYWORD;
    KeywordIsUppercase();
  }

  lemma ClauseIsDropped(clause: Line, rest: Line)
    requires ClauseLength(clause + rest) == |clause|
    ensures Stripped(KEYWORD + (clause + rest)) == Stripped(rest)
  {
    var s := KEYWORD + (clause + rest);
    KeywordStarts(clause + rest);
    ClauseFirst(s, |clause|);
    StrippedOf(s);
    assert s[|KEYWORD| + |clause|..] == rest;
    assert [] + Stripped(rest) == Stripped(rest);
  }

  lemma ClauseFirst(s: Line, n: nat)
    requires StartsWithKeyword(s) && !IsQuote(s[0]) && ClauseLength(s[|KEYWORD|..]) == n
    ensures First(s).Clause? && |TextOf(First(s))| == |KEYWORD| + n
  {
  }

  lemma BareClause(rest: Line)
    ensures Stripped(KEYWORD + ([' '] + rest)) == Stripped(rest)
    ensures Stripped(KEYWORD) == []
  {
    var s := [' '] + rest;
    assert BareLength(s) == 0 && PartLength(s) == 0 && ClauseLength(s) == 1;
    ClauseIsDropped([' '], rest);
    assert ClauseLength([] + []) == 0;
    ClauseIsDropped([], []);
    assert KEYWORD + ([] + []) == KEYWORD;
  }

  lemma KeywordIsUppercase()
    ensures Uppercase(KEYWORD) == KEYWORD
  {
    UppercaseAt(KEYWORD);
  }

  lemma {:induction false} UppercaseAt(s: Line)
    ensures forall i | 0 <= i < |s| :: Uppercase(s)[i] == Upper(s[i])
  {
    if s != [] {
      UppercaseAt(s[1..]);
    }
  }

  lemma PlainFirst(s: Line)
    requires s != [] && !IsQuote(s[0]) && !StartsWithKeyword(s)
    ensures Stripped(s) == [s[0]] + Stripped(s[1..])
  {
    StrippedOf(s);
  }

  lemma NotTheKeyword(s: Line)
    requires |s| > 1 && Upper(s[1]) != 'E'
    ensures !StartsWithKeyword(s)
  {
    if |s| >= |KEYWORD| {
      UppercaseAt(s[..|KEYWORD|]);
      assert Uppercase(s[..|KEYWORD|])[1] == Upper(s[1]);
    }
  }

  /** Dropping a clause can make another one: its two halves stood on either side. */
  lemma StrippingTwiceDropsMore()
    ensures var line := KEYWORD[..1] + (KEYWORD + ([' '] + KEYWORD[1..]));
      Stripped(line) == KEYWORD && Stripped(KEYWORD) == []
  {
    HalvesJoin(KEYWORD[0], KEYWORD[1..]);
    assert KEYWORD[..1] == [KEYWORD[0]];
    Splits(KEYWORD, 1);
    BareClause([]);
  }

  lemma HalvesJoin(c: Byte, tail: Line)
    requires !IsQuote(c) && |tail| < |KEYWORD| && forall i | 0 <= i < |tail| :: !IsQuote(tail[i])
    ensures Stripped([c] + (KEYWORD + ([' '] + tail))) == [c] + tail
  {
    var line := [c] + (KEYWORD + ([' '] + tail));
    assert line[1] == KEYWORD[0] && line[1..] == KEYWORD + ([' '] + tail);
    NotTheKeyword(line);
    PlainFirst(line);
    BareClause(tail);
    ShortIsKept(tail);
  }

  // ── Inputs that fail ──

  lemma LexUnfolds(s: Line)
    requires s != []
    ensures Lex(s) == [First(s)] + Lex(After(First(s), s))
  {
  }

  lemma NothingLexed(s: Line)
    requires s == []
    ensures Lex(s) == []
  {
  }

  lemma KeptAlone(t: Token)
    requires !t.Clause?
    ensures Kept([t]) == [t]
  {
    KeptOfCons(t, []);
    assert [t] + [] == [t];
  }

  predicate IsLiteral(a: Line) {
    a != [] && IsQuote(a[0]) && Closes(a[0], a[1..]) && Closing(a[0], a[1..]) == |a| - 1
  }

  /** A clause between two closed literals of the same quote, as in `'a'DEFINER= 'b'`. */
  lemma LiteralsRunTogether(a: Line, b: Line)
    requires IsLiteral(a) && IsLiteral(b) && a[0] == b[0]
    ensures var line := a + (KEYWORD + ([' '] + b));
      && Kept(Lex(line)) == [Literal(a)] + [Literal(b)]
      && LexBy(QuoteFirst, Stripped(line)) != Kept(Lex(line))
  {
    var rest := KEYWORD + ([' '] + b);
    KeywordStarts([' '] + b);
    LiteralStands(a, rest);
    SpaceClause(b, rest);
    OneLiteral(b);
    KeptOfCons(First(rest), Lex(b));
    KeptOfCons(Literal(a), Lex(rest));
    NotSeparated(a, b, [Literal(a)] + [Literal(b)]);
    QuotesReadBackExactly(a + rest);
  }

  lemma NotSeparated(a: Line, b: Line, kept: seq<Token>)
    requires kept == [Literal(a)] + [Literal(b)] && a != [] && b != [] && a[0] == b[0]
    ensures !Separated(kept)
  {
    assert kept[0] == Literal(a) && kept[1] == Literal(b);
    assert Merges(kept[0], kept[1]);
  }

  lemma LiteralStands(a: Line, rest: Line)
    requires IsLiteral(a) && rest != [] && rest[0] != a[0]
    ensures Lex(a + rest) == [Literal(a)] + Lex(rest)
  {
    var s := a + rest;
    LiteralReread(a, rest);
    LexUnfolds(s);
    assert s[0] == a[0] && s[|a|..] == rest;
  }

  lemma SpaceClause(b: Line, rest: Line)
    requires rest == KEYWORD + ([' '] + b)
    ensures First(rest).Clause? && Lex(rest) == [First(rest)] + Lex(b)
  {
    var s := [' '] + b;
    KeywordStarts(s);
    assert BareLength(s) == 0 && PartLength(s) == 0 && ClauseLength(s) == 1;
    ClauseFirst(rest, 1);
    LexUnfolds(rest);
    assert rest[|KEYWORD| + 1..] == b;
  }

  lemma OneLiteral(b: Line)
    requires IsLiteral(b)
    ensures Kept(Lex(b)) == [Literal(b)]
  {
    assert b[..|b|] == b;
    LexUnfolds(b);
    var rest := After(First(b), b);
    NothingLexed(rest);
    assert [Literal(b)] + [] == [Literal(b)];
    KeptAlone(Literal(b));
  }

  lemma ShortAfterClause(rest: Line, line: Line)
    requires |rest| < |KEYWORD| && (forall i | 0 <= i < |rest| :: !IsQuote(rest[i]))
    requires line == KEYWORD + ([' '] + rest)
    ensures Stripped(line) == rest && Output(line) == Encoded(rest)
  {
    BareClause(rest);
    ShortIsKept(rest);
    SpaceClause(rest, line);
  }

  /** A character of two bytes (section 3 of RFC 3629). */
  predicate IsCharacter(pair: Line) {
    |pair| == 2 && 0xC2 <= pair[0] as int <= 0xDF && 0x80 <= pair[1] as int <= 0xBF
  }

  /** In a line that loses a clause it comes out as the two characters of its bytes, which is four bytes. */
  lemma CharacterBecomesTwo(pair: Line, line: Line)
    requires IsCharacter(pair) && line == KEYWORD + ([' '] + pair)
    ensures Stripped(line) == pair
    ensures Output(line) == [0xC3 as char, (pair[0] as int - 0x40) as char, 0xC2 as char, pair[1]]
  {
    ShortAfterClause(pair, line);
    EncodedPair(pair);
  }

  lemma EncodedPair(pair: Line)
    requires IsCharacter(pair)
    ensures Encoded(pair) == [0xC3 as char, (pair[0] as int - 0x40) as char, 0xC2 as char, pair[1]]
  {
    var first := pair[..1];
    assert Encoded(first[..0]) == [] && first[..0] + first == first;
    assert Encoded(first) == EncodedByte(pair[0]);
    assert Encoded(pair) == Encoded(first) + EncodedByte(pair[1]);
  }

  /** A carriage return before a newline is lost, clause or no clause. */
  lemma CarriageReturnIsLost(a: Line, text: Line)
    requires '\n' !in a && !HasClause(Lex(a)) && text == a + ['\r'] + ['\n']
    ensures Rows.Lines(text) == [a] && Written([a]) == a + ['\n'] != text
  {
    LinesOfOne(a + ['\r'], text);
    WrittenOne(a);
  }

  lemma LinesOfOne(line: Line, text: Line)
    requires '\n' !in line && text == line + ['\n']
    ensures Rows.Lines(text) == [Rows.StripCr(line)]
  {
    Rows.LineEndOfFirst(line, []);
    assert line + ['\n'] + [] == text;
    assert text[..|line|] == line && text[|line| + 1..] == [];
    assert [Rows.StripCr(line)] + [] == [Rows.StripCr(line)];
  }

  lemma WrittenOne(a: Line)
    requires !HasClause(Lex(a))
    ensures Written([a]) == a + ['\n']
  {
    assert [a][..0] == [] && [] + a == a;
  }

  // ── Identifiers ──

  /** The identifier with every quote doubled. */
  function Doubled(x: Line, q: Byte): Line {
    if x == [] then [] else (if x[0] == q then [q, q] else [x[0]]) + Doubled(x[1..], q)
  }

  /** `quote_mysql_ident` with a backtick, `quote_pg_ident` with a double quote. */
  function QuoteIdent(x: Line, q: Byte): Option<Line> {
    if '\0' in x then None else Some([q] + Doubled(x, q) + [q])
  }

  /** What a server reads inside a quoted identifier, and what follows it. */
  function ReadQuoted(s: Line, q: Byte): Option<(Line, Line)>
    decreases |s|
  {
    if s == [] then None
    else if s[0] == q then
      if |s| > 1 && s[1] == q then
        match ReadQuoted(s[2..], q) case None => None case Some((x, rest)) => Some(([q] + x, rest))
      else Some(([], s[1..]))
    else match ReadQuoted(s[1..], q) case None => None case Some((x, rest)) => Some(([s[0]] + x, rest))
  }

  function ReadIdent(s: Line, q: Byte): Option<(Line, Line)> {
    if s != [] && s[0] == q then ReadQuoted(s[1..], q) else None
  }

  /** A quoted identifier, in any text, is read as that identifier exactly when no further quote follows it. */
  lemma QuotedIdentReadsBackExactly(x: Line, q: Byte, rest: Line)
    requires '\0' !in x
    ensures ReadIdent(QuoteIdent(x, q).value + rest, q) == Some((x, rest)) <==> rest == [] || rest[0] != q
  {
    var s := QuoteIdent(x, q).value + rest;
    assert s[1..] == Doubled(x, q) + [q] + rest;
    QuotedReadsBack(x, q, rest);
  }

  lemma {:induction false} QuotedReadsBack(x: Line, q: Byte, rest: Line)
    ensures ReadQuoted(Doubled(x, q) + [q] + rest, q) == Some((x, rest)) <==> rest == [] || rest[0] != q
    decreases |x|
  {
    var s := Doubled(x, q) + [q] + rest;
    if x == [] {
      assert s == [q] + rest && s[1..] == rest;
    } else {
      QuotedReadsBack(x[1..], q, rest);
      assert x == [x[0]] + x[1..];
      if x[0] == q {
        assert s[2..] == Doubled(x[1..], q) + [q] + rest;
      } else {
        assert s[1..] == Doubled(x[1..], q) + [q] + rest;
      }
    }
  }

  /** The scanner skips exactly a backtick-quoted identifier, unless another backtick follows. */
  lemma PartIsTheIdentExactly(x: Line, rest: Line)
    requires '\0' !in x
    ensures var ident := QuoteIdent(x, '`').value;
      PartLength(ident + rest) == |ident| <==> rest == [] || rest[0] != '`'
  {
    var ident := QuoteIdent(x, '`').value;
    var a := Doubled(x, '`') + ['`'];
    assert (ident + rest)[1..] == a + rest;
    DoubledCloses(x);
    ClosedBeforeExactly('`', a, rest);
  }

  lemma {:induction false} DoubledCloses(x: Line)
    ensures var a := Doubled(x, '`') + ['`']; Closes('`', a) && Closing('`', a) == |a|
  {
    var a := Doubled(x, '`') + ['`'];
    if x != [] {
      DoubledCloses(x[1..]);
      if x[0] == '`' {
        assert a[2..] == Doubled(x[1..], '`') + ['`'];
      } else {
        assert a[1..] == Doubled(x[1..], '`') + ['`'];
      }
    }
  }

  /** A definer as the server writes it, whatever is in its names, is dropped whole, with the space after it. */
  lemma AccountIsDropped(user: Line, host: Line, rest: Line)
    requires '\0' !in user && '\0' !in host
    ensures var account := QuoteIdent(user, '`').value + ['@'] + QuoteIdent(host, '`').value + [' '];
      Stripped(KEYWORD + (account + rest)) == Stripped(rest)
  {
    AccountLength(user, host, rest);
    ClauseIsDropped(QuoteIdent(user, '`').value + ['@'] + QuoteIdent(host, '`').value + [' '], rest);
  }

  lemma AccountLength(user: Line, host: Line, rest: Line)
    requires '\0' !in user && '\0' !in host
    ensures var u, h := QuoteIdent(user, '`').value, QuoteIdent(host, '`').value;
      ClauseLength(u + ['@'] + h + [' '] + rest) == |u| + 1 + |h| + 1
  {
    var u, h := QuoteIdent(user, '`').value, QuoteIdent(host, '`').value;
    var s := u + ['@'] + h + [' '] + rest;
    PartIsTheIdentExactly(user, ['@'] + h + [' '] + rest);
    assert s == u + (['@'] + h + [' '] + rest);
    assert s[|u|] == '@';
    PartIsTheIdentExactly(host, [' '] + rest);
    assert s[|u| + 1..] == h + ([' '] + rest);
    assert s[|u| + 1 + |h|] == ' ';
  }

  // ── The stream ──

  function Output(line: Line): Line {
    if HasClause(Lex(line)) then Encoded(Stripped(line)) else line
  }

  function Written(lines: seq<Line>): Line {
    if lines == [] then [] else Written(lines[..|lines| - 1]) + Output(lines[|lines| - 1]) + ['\n']
  }

  function Modified(lines: seq<Line>): nat {
    if lines == [] then 0 else Modified(lines[..|lines| - 1]) + if HasClause(Lex(lines[|lines| - 1])) then 1 else 0
  }

  /** `strip_definers_stream`: every line through the filter, each with a newline, and a count of those changed. */
  method StripDefinersStream(text: Line) returns (out: Line, modified: nat)
    ensures out == Written(Rows.Lines(text)) && modified == Modified(Rows.Lines(text))
  {
    var lines := Rows.Lines(text);
    out, modified := [], 0;
    for i := 0 to |lines|
      invariant out == Written(lines[..i]) && modified == Modified(lines[..i])
    {
      assert lines[..i + 1][..i] == lines[..i];
      var filtered := StripDefiners(lines[i]);
      match filtered {
        case Borrowed => out := out + lines[i] + ['\n'];
        case Owned(s) =>
          modified := modified + 1;
          out := out + s + ['\n'];
      }
    }
    assert lines[..|lines|] == lines;
  }

  function Rejoined(lines: seq<Line>): Line {
    if lines == [] then [] else lines[0] + ['\n'] + Rejoined(lines[1..])
  }

  lemma {:induction false} WrittenUnchanged(lines: seq<Line>)
    requires forall i | 0 <= i < |lines| :: !HasClause(Lex(lines[i]))
    ensures Written(lines) == Rejoined(lines) && Modified(lines) == 0
  {
    if lines != [] {
      var init, last := lines[..|lines| - 1], lines[|lines| - 1];
      WrittenUnchanged(init);
      RejoinedOn(init, last);
      assert lines == init + [last];
    }
  }

  lemma {:induction false} RejoinedOn(lines: seq<Line>, last: Line)
    ensures Rejoined(lines + [last]) == Rejoined(lines) + last + ['\n']
  {
    if lines == [] {
      assert [] + [last] == [last] && [last][1..] == [];
      assert last + ['\n'] + [] == [] + last + ['\n'];
    } else {
      RejoinedOn(lines[1..], last);
      assert (lines + [last])[1..] == lines[1..] + [last];
      assert lines[0] + ['\n'] + (Rejoined(lines[1..]) + last + ['\n'])
        == lines[0] + ['\n'] + Rejoined(lines[1..]) + last + ['\n'];
    }
  }

  predicate UnixLines(text: Line) {
    && (text == [] || text[|text| - 1] == '\n')
    && forall i | 0 <= i < |text| - 1 :: !(text[i] == '\r' && text[i + 1] == '\n')
  }

  lemma {:induction false} RejoinedExactly(text: Line)
    ensures Rejoined(Rows.Lines(text)) == text <==> UnixLines(text)
    decreases |text|
  {
    if text != [] {
      var n := Rows.LineEnd(text);
      if n == |text| {
        assert text[..n] == text;
        assert Rows.Lines(text) == [text] && [text][1..] == [];
        assert text[|text| - 1] in text[..n];
      } else {
        RejoinedExactly(text[n + 1..]);
        RejoinedUnfolds(text, n);
        FirstLineStays(text, n, Rejoined(Rows.Lines(text[n + 1..])));
        UnixSplits(text, n);
      }
    }
  }

  lemma RejoinedUnfolds(text: Line, n: nat)
    requires n == Rows.LineEnd(text) < |text|
    ensures Rejoined(Rows.Lines(text)) == Rows.StripCr(text[..n]) + ['\n'] + Rejoined(Rows.Lines(text[n + 1..]))
  {
    var line, rest := Rows.StripCr(text[..n]), Rows.Lines(text[n + 1..]);
    assert Rows.Lines(text) == [line] + rest;
    assert ([line] + rest)[1..] == rest;
  }

  lemma FirstLineStays(text: Line, n: nat, rest: Line)
    requires n < |text| && text[n] == '\n' && '\n' !in text[..n]
    ensures Rows.StripCr(text[..n]) + ['\n'] + rest == text <==>
      Rows.StripCr(text[..n]) == text[..n] && rest == text[n + 1..]
  {
    var line := Rows.StripCr(text[..n]);
    var all := line + ['\n'] + rest;
    assert text == text[..n] + ['\n'] + text[n + 1..];
    if line == text[..n] {
      assert all[n + 1..] == rest;
    } else {
      assert n > 0 && line == text[..n - 1];
      assert all[n - 1] == '\n' && text[n - 1] == '\r';
    }
  }

  lemma UnixSplits(text: Line, n: nat)
    requires n < |text| && text[n] == '\n' && '\n' !in text[..n]
    ensures UnixLines(text) <==> Rows.StripCr(text[..n]) == text[..n] && UnixLines(text[n + 1..])
  {
    var rest := text[n + 1..];
    assert n > 0 ==> text[..n][n - 1] == text[n - 1];
    forall i | 0 <= i < n ensures text[i] != '\n' {
      assert text[i] in text[..n];
    }
    if UnixLines(text) {
      assert forall i | 0 <= i < |rest| :: rest[i] == text[n + 1 + i];
    }
    if UnixLines(rest) && Rows.StripCr(text[..n]) == text[..n] {
      forall i | 0 <= i < |text| - 1 ensures !(text[i] == '\r' && text[i + 1] == '\n') {
        if i > n {
          assert text[i] == rest[i - n - 1] && text[i + 1] == rest[i - n];
        }
      }
    }
  }

  /** A dump without a clause comes through unchanged exactly when its lines end as the filter ends them. */
  lemma StreamIsTransparentExactly(text: Line)
    requires forall i | 0 <= i < |Rows.Lines(text)| :: !HasClause(Lex(Rows.Lines(text)[i]))
    ensures Modified(Rows.Lines(text)) == 0
    ensures Written(Rows.Lines(text)) == text <==> UnixLines(text)
  {
    WrittenUnchanged(Rows.Lines(text));
    RejoinedExactly(text);
  }

  lemma {:induction false} ClosesAtQuote(s: Line)
    requires '\'' !in s && '\\' !in s
    ensures Closes('\'', s + ['\'']) && Closing('\'', s + ['\'']) == |s| + 1
  {
    if s == [] {
      assert s + ['\''] == ['\''];
    } else {
      assert (s + ['\''])[1..] == s[1..] + ['\''];
      ClosesAtQuote(s[1..]);
    }
  }

  /**
   A literal over two lines: read as one text it is one literal, but the second line is
   filtered as if it began outside of any, and loses what looks like a clause in it.
   */
  lemma LiteralsAreReadPerLine(first: Line, second: Line)
    requires first == ['\''] && second == KEYWORD + ([' '] + first)
    ensures First(first + ['\n'] + second) == Literal(first + ['\n'] + second)
    ensures Stripped(second) == first
    ensures Rows.Lines(first + ['\n'] + (second + ['\n'])) == [first, second]
  {
    var body := ['\n'] + (KEYWORD + [' ']);
    NoQuoteIn(body);
    ClosesAtQuote(body);
    WholeLiteral(body);
    TwoAsOne(first, KEYWORD);
    BareClause(first);
    OneQuoteIsKept(first);
    NoNewlineIn(second);
    TwoLines(first, second);
  }

  lemma TwoAsOne(first: Line, keyword: Line)
    ensures first + ['\n'] + (keyword + ([' '] + first)) == first + (['\n'] + (keyword + [' ']) + first)
  {
  }

  lemma NoQuoteIn(body: Line)
    requires body == ['\n'] + (KEYWORD + [' '])
    ensures '\'' !in body && '\\' !in body
  {
    assert forall i | 0 <= i < |KEYWORD| :: KEYWORD[i] != '\'' && KEYWORD[i] != '\\';
  }

  lemma NoNewlineIn(second: Line)
    requires second == KEYWORD + ([' '] + ['\''])
    ensures '\n' !in second && Rows.StripCr(second) == second
  {
    assert forall i | 0 <= i < |KEYWORD| :: KEYWORD[i] != '\n';
    assert second[|second| - 1] == '\'';
  }

  lemma WholeLiteral(body: Line)
    requires Closing('\'', body + ['\'']) == |body| + 1
    ensures First(['\''] + (body + ['\''])) == Literal(['\''] + (body + ['\'']))
  {
    var s := ['\''] + (body + ['\'']);
    assert s[1..] == body + ['\''];
    assert s[..|body| + 2] == s;
  }

  lemma OneQuoteIsKept(s: Line)
    requires |s| == 1 && IsQuote(s[0])
    ensures Stripped(s) == s
  {
    StrippedOf(s);
    assert s[..1] == s && s[1..] == [];
    assert s + [] == s;
  }

  lemma TwoLines(first: Line, second: Line)
    requires '\n' !in first && '\n' !in second && Rows.StripCr(first) == first && Rows.StripCr(second) == second
    ensures Rows.Lines(first + ['\n'] + (second + ['\n'])) == [first, second]
  {
    var rest := second + ['\n'];
    var text := first + ['\n'] + rest;
    Rows.LineEndOfFirst(first, rest);
    assert text[..|first|] == first && text[|first| + 1..] == rest;
    Rows.LineEndOfFirst(second, []);
    assert second + ['\n'] + [] == rest;
    assert rest[..|second|] == second && rest[|second| + 1..] == [];
    assert Rows.Lines(rest) == [second] + Rows.Lines([]);
  }
}
