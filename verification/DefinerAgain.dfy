/**
 Filtering the output once more, and filtering line by line.

 Both come down to where tokens end: in the joined text of the tokens a line kept, and in
 two lines read as one.
 */
module DefinerAgain {
  import opened Common
  import opened Definer
  import opened DefinerLaws
  import Rows = Text

  // ── Filtering twice ──

  lemma {:induction false} ClauseShortens(s: Line)
    ensures |Stripped(s)| <= |s|
    ensures HasClause(Lex(s)) ==> |Stripped(s)| < |s|
    decreases |s|
  {
    if s != [] {
      KeptUnfolds(First, s);
      ClauseShortens(After(First(s), s));
    }
  }

  lemma {:induction false} NoClauseNoChange(s: Line)
    requires !HasClause(Lex(s))
    ensures Stripped(s) == s
    decreases |s|
  {
    if s != [] {
      KeptUnfolds(First, s);
      NoClauseNoChange(After(First(s), s));
      Splits(s, |TextOf(First(s))|);
    }
  }

  /** A plain byte of what was kept, at which the keyword now stands. */
  predicate ClauseAt(kept: seq<Token>, i: nat)
    requires i < |kept|
  {
    kept[i].Plain? && StartsWithKeyword(Text(kept[i..]))
  }

  predicate NewClause(kept: seq<Token>) {
    kept != [] && (ClauseAt(kept, 0) || NewClause(kept[1..]))
  }

  lemma {:induction false} NewClauseSomewhere(kept: seq<Token>)
    ensures NewClause(kept) <==> exists i :: 0 <= i < |kept| && ClauseAt(kept, i)
  {
    if kept != [] {
      var rest := kept[1..];
      NewClauseSomewhere(rest);
      forall i | 0 <= i < |rest| ensures ClauseAt(rest, i) <==> ClauseAt(kept, i + 1) {
        assert rest[i..] == kept[i + 1..];
      }
      if exists i :: 0 <= i < |rest| && ClauseAt(rest, i) {
        var i :| 0 <= i < |rest| && ClauseAt(rest, i);
        assert ClauseAt(kept, i + 1);
      }
      if exists i :: 0 <= i < |kept| && ClauseAt(kept, i) {
        var i :| 0 <= i < |kept| && ClauseAt(kept, i);
        assert i > 0 ==> ClauseAt(rest, i - 1);
      }
    }
  }

  /** A closed literal that the next one is joined to goes on to where that one ends. */
  lemma {:induction false} ClosingRunsOn(q: Byte, a: Line, b: Line)
    requires Closes(q, a) && Closing(q, a) == |a| && q != '\\'
    ensures Closing(q, a + ([q] + b)) == |a| + 1 + Closing(q, b)
    decreases |a|
  {
    var s := a + ([q] + b);
    if a[0] == '\\' && q != '`' {
      assert s[2..] == a[2..] + ([q] + b);
      ClosingRunsOn(q, a[2..], b);
    } else if a[0] == q {
      if |a| > 1 {
        assert s[2..] == a[2..] + ([q] + b);
        ClosingRunsOn(q, a[2..], b);
      } else {
        assert s[1] == q && s[2..] == b;
      }
    } else {
      assert s[1..] == a[1..] + ([q] + b);
      ClosingRunsOn(q, a[1..], b);
    }
  }

  predicate AllLiterals(tokens: seq<Token>) {
    forall t <- tokens :: t.Literal?
  }

  lemma {:induction false} WellCutFrom(tokens: seq<Token>, m: nat)
    requires WellCut(tokens) && m <= |tokens|
    ensures WellCut(tokens[m..])
  {
    if m > 0 {
      WellCutFrom(tokens[1..], m - 1);
      assert tokens[m..] == tokens[1..][m - 1..];
    }
  }

  lemma TextOfParts(tokens: seq<Token>, a: seq<Token>, b: seq<Token>)
    requires tokens == a + b
    ensures Text(tokens) == Text(a) + Text(b)
  {
    TextOfSum(a, b);
  }

  /** Read again, a literal ends where it or a later literal beside it ended. */
  lemma {:induction false} RereadLiteralEnds(q: Byte, a: Line, tail: seq<Token>) returns (m: nat)
    requires IsQuote(q) && Closes(q, a) && Closing(q, a) == |a| && WellCut(tail)
    ensures m <= |tail| && AllLiterals(tail[..m])
    ensures Closing(q, a + Text(tail)) == |a| + |Text(tail[..m])|
    decreases |tail|
  {
    var b := Text(tail);
    ClosedBeforeExactly(q, a, b);
    if b == [] || b[0] != q {
      m := 0;
    } else {
      var t, rest := tail[0], tail[1..];
      assert b == TextOf(t) + Text(rest) && TextOf(t)[0] == q;
      var c := t.text[1..];
      assert t.text == [q] + c;
      JoinsOn(q, a, c, Text(rest));
      if Closes(q, c) {
        var k := RereadLiteralEnds(q, c, rest);
        m := k + 1;
        assert tail[..m] == [t] + rest[..k];
        TextOfCons(t, rest[..k]);
      } else {
        m := 1;
        assert rest == [] && tail[..1] == [t];
        TextOfCons(t, []);
        assert c + Text(rest) == c;
      }
    }
  }

  lemma JoinsOn(q: Byte, a: Line, c: Line, rest: Line)
    requires Closes(q, a) && Closing(q, a) == |a| && IsQuote(q)
    ensures Closing(q, a + (([q] + c) + rest)) == |a| + 1 + Closing(q, c + rest)
  {
    assert ([q] + c) + rest == [q] + (c + rest);
    ClosingRunsOn(q, a, c + rest);
  }

  lemma {:induction false} LiteralsHoldNoClause(kept: seq<Token>, m: nat)
    requires m <= |kept| && AllLiterals(kept[..m])
    ensures NewClause(kept) <==> NewClause(kept[m..])
  {
    if m > 0 {
      assert kept[0] in kept[..m];
      assert forall t <- kept[1..][..m - 1] :: t in kept[..m];
      LiteralsHoldNoClause(kept[1..], m - 1);
      assert kept[m..] == kept[1..][m - 1..];
    }
  }

  /** Reading what was kept again finds a clause exactly where the keyword now stands at a plain byte. */
  lemma {:induction false} ReadAgainExactly(kept: seq<Token>)
    requires WellCut(kept)
    ensures HasClause(Lex(Text(kept))) <==> NewClause(kept)
    decreases |kept|
  {
    if kept != [] {
      var t, tail := kept[0], kept[1..];
      match t {
        case Plain(c) =>
          PlainAgain(kept);
          ReadAgainExactly(tail);
        case Literal(text) =>
          if Closes(text[0], text[1..]) {
            var m := RereadLiteralEnds(text[0], text[1..], tail);
            WellCutFrom(tail, m);
            LiteralAgain(kept, m);
            ReadAgainExactly(tail[m..]);
            LiteralsHoldNoClause(tail, m);
          } else {
            assert tail == [] && text[1..] + Text(tail) == text[1..];
            LiteralAgain(kept, 0);
            ReadAgainExactly(tail);
          }
      }
    }
  }

  lemma PlainAgain(kept: seq<Token>)
    requires WellCut(kept) && kept != [] && kept[0].Plain?
    ensures ClauseAt(kept, 0) ==> HasClause(Lex(Text(kept)))
    ensures !ClauseAt(kept, 0) ==> (HasClause(Lex(Text(kept))) <==> HasClause(Lex(Text(kept[1..]))))
  {
    var s, rest := Text(kept), Text(kept[1..]);
    assert s == [kept[0].c] + rest && kept[0..] == kept;
    KeptUnfolds(First, s);
    assert s[1..] == rest;
  }

  lemma LiteralFirst(s: Line, n: nat)
    requires s != [] && IsQuote(s[0]) && n == 1 + Closing(s[0], s[1..])
    ensures HasClause(Lex(s)) <==> HasClause(Lex(s[n..]))
  {
    KeptUnfolds(First, s);
  }

  lemma LiteralAgain(kept: seq<Token>, m: nat)
    requires WellCut(kept) && kept != [] && kept[0].Literal? && m < |kept|
    requires var text, tail := kept[0].text, kept[1..];
      Closing(text[0], text[1..] + Text(tail)) == |text| - 1 + |Text(tail[..m])|
    ensures HasClause(Lex(Text(kept))) <==> HasClause(Lex(Text(kept[1..][m..])))
  {
    var text, tail := kept[0].text, kept[1..];
    TextUnfolds(kept);
    TextOfParts(tail, tail[..m], tail[m..]);
    LiteralThen(Text(kept), text, Text(tail[..m]), Text(tail[m..]));
  }

  lemma TextUnfolds(tokens: seq<Token>)
    requires tokens != []
    ensures Text(tokens) == TextOf(tokens[0]) + Text(tokens[1..])
  {
  }

  lemma LiteralThen(s: Line, text: Line, joined: Line, rest: Line)
    requires text != [] && IsQuote(text[0]) && s == text + (joined + rest)
    requires Closing(text[0], text[1..] + (joined + rest)) == |text| - 1 + |joined|
    ensures HasClause(Lex(s)) <==> HasClause(Lex(rest))
  {
    TwoParts(text, joined, rest);
    LiteralFirst(s, |text| + |joined|);
  }

  lemma TwoParts(text: Line, joined: Line, rest: Line)
    requires text != []
    ensures var s := text + (joined + rest);
      s[0] == text[0] && s[1..] == text[1..] + (joined + rest) && s[|text| + |joined|..] == rest
  {
  }

  /**
   Filtering the output again changes nothing exactly when the keyword stands at no plain
   byte of it. Inside a literal it may stand, and literals that ran together stay literals.
   */
  lemma StrippingTwiceExactly(line: Line)
    ensures var kept := Kept(Lex(line));
      Stripped(Stripped(line)) == Stripped(line)
      <==> forall i | 0 <= i < |kept| && kept[i].Plain? :: !StartsWithKeyword(Text(kept[i..]))
  {
    var kept := Kept(Lex(line));
    KeptIsWellCut(line);
    ReadAgainExactly(kept);
    NewClauseSomewhere(kept);
    ClauseShortens(Stripped(line));
    if !HasClause(Lex(Stripped(line))) {
      NoClauseNoChange(Stripped(line));
    }
    assert forall i | 0 <= i < |kept| :: ClauseAt(kept, i) <==> kept[i].Plain? && StartsWithKeyword(Text(kept[i..]));
  }

  // ── Line by line ──

  /** A quoted part that the text does not close. */
  predicate OpenPart(s: Line) {
    s != [] && IsQuote(s[0]) && !Closes(s[0], s[1..])
  }

  /** A clause, after its keyword, one of whose parts is left open. */
  predicate OpenClause(s: Line) {
    var user := PartLength(s);
    OpenPart(s) || (user < |s| && s[user] == '@' && OpenPart(s[user + 1..]))
  }

  predicate OpenToken(t: Token) {
    match t
    case Plain(_) => false
    case Literal(text) => OpenPart(text)
    case Clause(text) => |text| >= |KEYWORD| && OpenClause(text[|KEYWORD|..])
  }

  /** The line ends inside a quote: its last token is a literal that is not closed, or a clause with such a part. */
  predicate EndsOpen(line: Line) {
    var tokens := Lex(line);
    tokens != [] && OpenToken(tokens[|tokens| - 1])
  }

  lemma {:induction false} ClosesBefore(q: Byte, a: Line, b: Line)
    requires Closes(q, a) && (b == [] || b[0] != q)
    ensures Closing(q, a + b) == Closing(q, a) && Closes(q, a + b)
    decreases |a|
  {
    if a[0] == '\\' && q != '`' {
      assert (a + b)[2..] == a[2..] + b;
      ClosesBefore(q, a[2..], b);
    } else if a[0] == q {
      if |a| > 1 && a[1] == q {
        assert (a + b)[2..] == a[2..] + b;
        ClosesBefore(q, a[2..], b);
      } else if |a| == 1 && b != [] {
        assert (a + b)[1] == b[0];
      }
    } else {
      assert (a + b)[1..] == a[1..] + b;
      ClosesBefore(q, a[1..], b);
    }
  }

  lemma {:induction false} UnclosedRunsOver(q: Byte, a: Line, b: Line)
    requires !Closes(q, a) && b != []
    ensures Closing(q, a + b) > |a|
    decreases |a|
  {
    if a == [] {
      assert a + b == b;
    } else if a[0] == '\\' && q != '`' {
      if |a| > 1 {
        assert (a + b)[2..] == a[2..] + b;
        UnclosedRunsOver(q, a[2..], b);
      }
    } else if a[0] == q {
      assert (a + b)[2..] == a[2..] + b;
      UnclosedRunsOver(q, a[2..], b);
    } else {
      assert (a + b)[1..] == a[1..] + b;
      UnclosedRunsOver(q, a[1..], b);
    }
  }

  /** The next line, with the newline before it. */
  predicate NextLine(b: Line) {
    b != [] && b[0] == '\n'
  }

  lemma {:induction false} BareBefore(s: Line, b: Line)
    requires NextLine(b)
    ensures BareLength(s + b) == BareLength(s)
  {
    if s == [] {
      assert s + b == b;
    } else {
      assert (s + b)[1..] == s[1..] + b;
      BareBefore(s[1..], b);
    }
  }

  lemma PartBefore(s: Line, b: Line)
    requires NextLine(b)
    ensures !OpenPart(s) ==> PartLength(s + b) == PartLength(s) && !OpenPart(s + b)
    ensures OpenPart(s) ==> PartLength(s) == |s| < PartLength(s + b)
  {
    if s != [] && IsQuote(s[0]) {
      assert (s + b)[1..] == s[1..] + b;
      if OpenPart(s) {
        UnclosedRunsOut(s[0], s[1..]);
        UnclosedRunsOver(s[0], s[1..], b);
      } else {
        ClosesBefore(s[0], s[1..], b);
      }
    } else {
      BareBefore(s, b);
    }
  }

  lemma ClauseBefore(s: Line, b: Line)
    requires NextLine(b)
    ensures !OpenClause(s) ==> ClauseLength(s + b) == ClauseLength(s)
    ensures OpenClause(s) ==> ClauseLength(s) == |s| < ClauseLength(s + b)
  {
    PartBefore(s, b);
    var user := PartLength(s);
    if !OpenPart(s) {
      if user < |s| {
        PartBefore(s[user + 1..], b);
        assert (s + b)[user + 1..] == s[user + 1..] + b;
        AccountBefore(s, b, user);
      } else {
        assert (s + b)[user] == '\n';
      }
    }
  }

  lemma AccountBefore(s: Line, b: Line, user: nat)
    requires NextLine(b) && user < |s| && user == PartLength(s) == PartLength(s + b)
    requires var host := PartLength(s[user + 1..]);
      if OpenPart(s[user + 1..]) then host == |s| - user - 1 && PartLength((s + b)[user + 1..]) > host
      else PartLength((s + b)[user + 1..]) == host
    ensures s[user] == '@' && OpenPart(s[user + 1..]) ==> ClauseLength(s) == |s| < ClauseLength(s + b)
    ensures !(s[user] == '@' && OpenPart(s[user + 1..])) ==> ClauseLength(s + b) == ClauseLength(s)
  {
    assert (s + b)[user] == s[user] && (s + b)[|s|] == '\n';
  }

  lemma NewlineIsNoKeyword()
    ensures forall i | 0 <= i < |KEYWORD| :: KEYWORD[i] != '\n'
  {
  }

  lemma KeywordBefore(s: Line, b: Line)
    requires NextLine(b)
    ensures StartsWithKeyword(s + b) <==> StartsWithKeyword(s)
  {
    var n := |KEYWORD|;
    if |s| >= n {
      assert (s + b)[..n] == s[..n];
    } else if |s + b| >= n {
      UppercaseAt((s + b)[..n]);
      assert (s + b)[..n][|s|] == '\n';
      NewlineIsNoKeyword();
    }
  }

  lemma PartCut(s: Line, n: nat)
    requires PartLength(s) <= n <= |s|
    ensures PartLength(s[..n]) == PartLength(s)
    ensures OpenPart(s[..n]) <==> OpenPart(s)
  {
    if s != [] && IsQuote(s[0]) {
      var q, u := s[0], s[1..];
      var k := Closing(q, u);
      assert s[..n][1..] == u[..n - 1];
      if Closes(q, u) {
        ClosesWhereItClosed(q, u);
        Splits(u, k);
        ClosedBeforeExactly(q, u[..k], u[k..]);
        assert u[..n - 1] == u[..k] + u[k..][..n - 1 - k];
        ClosesBefore(q, u[..k], u[k..][..n - 1 - k]);
      } else {
        UnclosedRunsOut(q, u);
        assert s[..n] == s;
      }
    } else {
      BareCut(s, n);
    }
  }

  lemma {:induction false} BareCut(s: Line, n: nat)
    requires BareLength(s) <= n <= |s|
    ensures BareLength(s[..n]) == BareLength(s)
  {
    if s != [] && IsBare(s[0]) {
      assert s[..n][1..] == s[1..][..n - 1];
      BareCut(s[1..], n - 1);
    }
  }

  lemma ClauseCut(s: Line)
    ensures OpenClause(s[..ClauseLength(s)]) <==> OpenClause(s)
  {
    var n, user := ClauseLength(s), PartLength(s);
    var t := s[..n];
    PartCut(s, n);
    if !OpenPart(s) && user < |s| && s[user] == '@' {
      assert t[user] == '@' && t[user + 1..] == s[user + 1..][..n - user - 1];
      PartCut(s[user + 1..], n - user - 1);
    }
  }

  /** A first token that the line leaves open takes the whole line; and only it. */
  lemma OpenIsAll(a: Line)
    requires a != []
    ensures OpenToken(First(a)) <==>
      if IsQuote(a[0]) then OpenPart(a) else StartsWithKeyword(a) && OpenClause(a[|KEYWORD|..])
  {
    if IsQuote(a[0]) {
      PartCut(a, PartLength(a));
    } else if StartsWithKeyword(a) {
      var s := a[|KEYWORD|..];
      ClauseCut(s);
      assert TextOf(First(a))[|KEYWORD|..] == s[..ClauseLength(s)];
    }
  }

  /** The line after it leaves a closed token as it is, and an open one runs on into it. */
  lemma FirstBefore(a: Line, b: Line)
    requires a != [] && NextLine(b)
    ensures !OpenToken(First(a)) ==> First(a + b) == First(a)
    ensures OpenToken(First(a)) ==> |TextOf(First(a))| == |a| < |TextOf(First(a + b))|
  {
    OpenIsAll(a);
    KeywordBefore(a, b);
    if IsQuote(a[0]) {
      PartBefore(a, b);
      SameStart(a, b, PartLength(a));
    } else if StartsWithKeyword(a) {
      var s := a[|KEYWORD|..];
      assert (a + b)[|KEYWORD|..] == s + b;
      ClauseBefore(s, b);
      SameStart(a, b, |KEYWORD| + ClauseLength(s));
    }
  }

  lemma SameStart(a: Line, b: Line, n: nat)
    requires n <= |a|
    ensures (a + b)[..n] == a[..n]
  {
  }

  lemma EndsOpenUnfolds(a: Line)
    requires a != []
    ensures EndsOpen(a) <==> OpenToken(First(a)) || EndsOpen(After(First(a), a))
    ensures OpenToken(First(a)) ==> Lex(a) == [First(a)]
  {
    FirstBefore(a, ['\n']);
    var rest := Lex(After(First(a), a));
    assert Lex(a) == [First(a)] + rest;
    assert rest != [] ==> Lex(a)[|Lex(a)| - 1] == rest[|rest| - 1];
  }

  lemma NewlineFirst(b: Line)
    ensures Lex(['\n'] + b) == [Plain('\n')] + Lex(b)
  {
    var s := ['\n'] + b;
    KeywordBefore([], s);
    assert [] + s == s && s[1..] == b;
    assert First(s) == Plain('\n');
  }

  /** A line is cut up as it would be alone, exactly when it does not end inside a quote. */
  lemma {:induction false} TwoLinesExactly(a: Line, b: Line)
    ensures !EndsOpen(a) ==> Lex(a + (['\n'] + b)) == Lex(a) + ([Plain('\n')] + Lex(b))
    ensures EndsOpen(a) ==> !(Lex(a) <= Lex(a + (['\n'] + b)))
    decreases |a|
  {
    var next := ['\n'] + b;
    if a == [] {
      assert a + next == next && Lex(a) == [];
      NewlineFirst(b);
    } else {
      var t := First(a);
      var rest := After(t, a);
      EndsOpenUnfolds(a);
      if OpenToken(t) {
        OpenRunsOn(a, next);
      } else {
        TwoLinesExactly(rest, b);
        ClosedStays(a, next);
        PrefixOn(t, Lex(rest), Lex(rest + next));
        Grouped(t, Lex(rest), [Plain('\n')] + Lex(b));
      }
    }
  }

  lemma OpenRunsOn(a: Line, next: Line)
    requires a != [] && NextLine(next) && OpenToken(First(a))
    ensures !(Lex(a) <= Lex(a + next))
  {
    FirstBefore(a, next);
    assert Lex(a)[0] == First(a) && Lex(a + next)[0] == First(a + next);
  }

  lemma ClosedStays(a: Line, next: Line)
    requires a != [] && NextLine(next) && !OpenToken(First(a))
    ensures Lex(a + next) == [First(a)] + Lex(After(First(a), a) + next)
    ensures Lex(a) == [First(a)] + Lex(After(First(a), a))
  {
    FirstBefore(a, next);
    assert After(First(a), a + next) == After(First(a), a) + next;
  }

  lemma PrefixOn(t: Token, a: seq<Token>, b: seq<Token>)
    ensures [t] + a <= [t] + b <==> a <= b
  {
    assert ([t] + a)[1..] == a && ([t] + b)[1..] == b;
    if a <= b {
      assert [t] + b == [t] + a + b[|a|..];
    }
    if [t] + a <= [t] + b {
      assert ([t] + b)[..1 + |a|][1..] == b[..|a|];
    }
  }

  lemma Grouped(t: Token, a: seq<Token>, b: seq<Token>)
    ensures [t] + (a + b) == ([t] + a) + b
  {
  }

  /** Two lines read as one text give the tokens of each exactly when the first does not end inside a quote. */
  lemma JoiningLinesExactly(a: Line, b: Line)
    ensures Lex(a + (['\n'] + b)) == Lex(a) + ([Plain('\n')] + Lex(b)) <==> !EndsOpen(a)
  {
    TwoLinesExactly(a, b);
  }

  /** The tokens of each line, with its newline. */
  function LexLines(lines: seq<Line>): seq<Token> {
    if lines == [] then [] else Lex(lines[0]) + ([Plain('\n')] + LexLines(lines[1..]))
  }

  predicate NoneEndsOpen(lines: seq<Line>) {
    forall i | 0 <= i < |lines| :: !EndsOpen(lines[i])
  }

  lemma NoneUnfolds(lines: seq<Line>)
    requires lines != []
    ensures NoneEndsOpen(lines) <==> !EndsOpen(lines[0]) && NoneEndsOpen(lines[1..])
  {
    var rest := lines[1..];
    if NoneEndsOpen(rest) && !EndsOpen(lines[0]) {
      forall i | 0 <= i < |lines| ensures !EndsOpen(lines[i]) {
        assert i > 0 ==> lines[i] == rest[i - 1];
      }
    }
    if NoneEndsOpen(lines) {
      assert forall i | 0 <= i < |rest| :: rest[i] == lines[i + 1];
    }
  }

  lemma {:induction false} LinesAsOneExactly(lines: seq<Line>)
    ensures Lex(Rejoined(lines)) == LexLines(lines) <==> NoneEndsOpen(lines)
  {
    if lines != [] {
      var a, rest := lines[0], lines[1..];
      var b := Rejoined(rest);
      LinesAsOneExactly(rest);
      NoneUnfolds(lines);
      TwoLinesExactly(a, b);
      assert Rejoined(lines) == a + (['\n'] + b);
      if EndsOpen(a) {
        assert Lex(a) <= LexLines(lines);
      } else {
        SameAfter(Lex(a), Lex(b), LexLines(rest));
      }
    }
  }

  lemma SameAfter(a: seq<Token>, b: seq<Token>, c: seq<Token>)
    ensures a + ([Plain('\n')] + b) == a + ([Plain('\n')] + c) <==> b == c
  {
    var x, y := a + ([Plain('\n')] + b), a + ([Plain('\n')] + c);
    assert x[|a| + 1..] == b && y[|a| + 1..] == c;
  }

  /** A text is cut up line by line as it would be as one exactly when no line of it ends inside a quote. */
  lemma LineByLineExactly(text: Line)
    requires UnixLines(text)
    ensures Lex(text) == LexLines(Rows.Lines(text)) <==> NoneEndsOpen(Rows.Lines(text))
  {
    RejoinedExactly(text);
    LinesAsOneExactly(Rows.Lines(text));
  }

  /** What is kept of the lines, each with its newline. */
  function StrippedLines(lines: seq<Line>): Line {
    if lines == [] then [] else StrippedLines(lines[..|lines| - 1]) + (Stripped(lines[|lines| - 1]) + ['\n'])
  }

  lemma {:induction false} LexLinesOn(lines: seq<Line>, last: Line)
    ensures LexLines(lines + [last]) == LexLines(lines) + (Lex(last) + [Plain('\n')])
  {
    if lines == [] {
      assert [] + [last] == [last] && [last][1..] == [];
      assert [Plain('\n')] + LexLines([]) == [Plain('\n')];
      assert [] + (Lex(last) + [Plain('\n')]) == Lex(last) + [Plain('\n')];
    } else {
      assert (lines + [last])[1..] == lines[1..] + [last];
      LexLinesOn(lines[1..], last);
      Regrouped(Lex(lines[0]), LexLines(lines[1..]), Lex(last) + [Plain('\n')]);
    }
  }

  lemma Regrouped(a: seq<Token>, b: seq<Token>, c: seq<Token>)
    ensures a + ([Plain('\n')] + (b + c)) == a + ([Plain('\n')] + b) + c
  {
  }

  lemma {:induction false} KeptOfLines(lines: seq<Line>)
    ensures Text(Kept(LexLines(lines))) == StrippedLines(lines)
  {
    if lines != [] {
      var init, last := lines[..|lines| - 1], lines[|lines| - 1];
      KeptOfLines(init);
      assert lines == init + [last];
      LexLinesOn(init, last);
      KeptOfSum(LexLines(init), Lex(last) + [Plain('\n')]);
      TextOfSum(Kept(LexLines(init)), Kept(Lex(last) + [Plain('\n')]));
      KeptLine(last);
    }
  }

  lemma KeptLine(line: Line)
    ensures Text(Kept(Lex(line) + [Plain('\n')])) == Stripped(line) + ['\n']
  {
    KeptOfSum(Lex(line), [Plain('\n')]);
    TextOfSum(Kept(Lex(line)), Kept([Plain('\n')]));
    assert Kept([Plain('\n')]) == [Plain('\n')] && Text([Plain('\n')]) == ['\n'];
  }

  lemma OutputIsStripped(line: Line)
    requires Ascii(Stripped(line))
    ensures Output(line) == Stripped(line)
  {
    EncodedExactly(Stripped(line));
    if !HasClause(Lex(line)) {
      NoClauseNoChange(line);
    }
  }

  lemma {:induction false} WrittenIsStripped(lines: seq<Line>)
    requires forall i | 0 <= i < |lines| :: Ascii(Stripped(lines[i]))
    ensures Written(lines) == StrippedLines(lines)
  {
    if lines != [] {
      var init, last := lines[..|lines| - 1], lines[|lines| - 1];
      WrittenIsStripped(init);
      OutputIsStripped(last);
      assert Written(init) + Stripped(last) + ['\n'] == Written(init) + (Stripped(last) + ['\n']);
    }
  }

  /**
   A dump no line of which ends inside a quote is written by the line-by-line filter as it
   would be by one pass over the whole text.
   */
  lemma StreamIsOnePass(text: Line)
    requires UnixLines(text) && NoneEndsOpen(Rows.Lines(text))
    requires forall i | 0 <= i < |Rows.Lines(text)| :: Ascii(Stripped(Rows.Lines(text)[i]))
    ensures Written(Rows.Lines(text)) == Stripped(text)
  {
    LineByLineExactly(text);
    KeptOfLines(Rows.Lines(text));
    WrittenIsStripped(Rows.Lines(text));
  }
}
