/**
 Removing `DEFINER=` clauses from the lines of a dump.

 A byte is modelled as the character of that code. The filter is the engine's loop over an
 index, a quote and a buffer. It is proved against `Lex`, which cuts a line into plain bytes,
 quoted literals and clauses: the filter drops the clauses and nothing else.
 */
module Definer {
  import opened Common

  type Byte = char
  type Line = seq<Byte>

  const KEYWORD: Line := "DEFINER="

  predicate IsQuote(c: Byte) { c == '\'' || c == '"' || c == '`' }

  predicate IsBare(c: Byte) {
    '0' <= c <= '9' || 'a' <= c <= 'z' || 'A' <= c <= 'Z' || c == '_' || c == '$'
  }

  function Upper(c: Byte): Byte {
    if 'a' <= c <= 'z' then (c as int - 32) as char else c
  }

  function Uppercase(s: Line): (r: Line)
    ensures |r| == |s|
  {
    if s == [] then [] else [Upper(s[0])] + Uppercase(s[1..])
  }

  /** `matches_ignore_ascii_case`. */
  predicate StartsWithKeyword(s: Line) {
    |s| >= |KEYWORD| && Uppercase(s[..|KEYWORD|]) == KEYWORD
  }

  // ── What the filter should do ──

  datatype Token = Plain(c: Byte) | Literal(text: Line) | Clause(text: Line)

  /**
   How much of `s` is the rest of a literal that opened with `q`, its closing quote included.
   A doubled quote does not close it. Neither does an escaped one, except between backticks,
   where a backslash is a byte like any other.
   */
  function Closing(q: Byte, s: Line): (n: nat)
    ensures n <= |s| && (s != [] ==> n > 0)
    decreases |s|
  {
    if s == [] then 0
    else if s[0] == '\\' && q != '`' then (if |s| == 1 then 1 else 2 + Closing(q, s[2..]))
    else if s[0] == q then (if |s| > 1 && s[1] == q then 2 + Closing(q, s[2..]) else 1)
    else 1 + Closing(q, s[1..])
  }

  /** Whether that rest ends in a closing quote, and not because the line ended. */
  predicate Closes(q: Byte, s: Line)
    decreases |s|
  {
    if s == [] then false
    else if s[0] == '\\' && q != '`' then |s| > 1 && Closes(q, s[2..])
    else if s[0] == q then (if |s| > 1 && s[1] == q then Closes(q, s[2..]) else true)
    else Closes(q, s[1..])
  }

  function BareLength(s: Line): (n: nat)
    ensures n <= |s|
  {
    if s == [] || !IsBare(s[0]) then 0 else 1 + BareLength(s[1..])
  }

  /** A quoted or bare identifier. */
  function PartLength(s: Line): (n: nat)
    ensures n <= |s|
  {
    if s != [] && IsQuote(s[0]) then 1 + Closing(s[0], s[1..]) else BareLength(s)
  }

  /** A part, or two joined by `@`. */
  function AccountEnd(s: Line): (n: nat)
    ensures n <= |s|
  {
    var user := PartLength(s);
    if user < |s| && s[user] == '@' then user + 1 + PartLength(s[user + 1..]) else user
  }

  /** What follows the keyword: an account, and one space. */
  function ClauseLength(s: Line): (n: nat)
    ensures n <= |s|
  {
    var account := AccountEnd(s);
    if account < |s| && s[account] == ' ' then account + 1 else account
  }

  function TextOf(t: Token): Line {
    match t case Plain(c) => [c] case Literal(text) => text case Clause(text) => text
  }

  /** The token a text begins with. */
  function First(s: Line): (t: Token)
    ensures s != [] ==> 0 < |TextOf(t)| <= |s| && TextOf(t) == s[..|TextOf(t)|]
  {
    if s == [] then Plain(' ')
    else if IsQuote(s[0]) then Literal(s[..1 + Closing(s[0], s[1..])])
    else if StartsWithKeyword(s) then Clause(s[..|KEYWORD| + ClauseLength(s[|KEYWORD|..])])
    else Plain(s[0])
  }

  // Cutting a text into tokens is the same whatever says where the first one ends.
  type Cutter = Line -> Token

  predicate Begins(t: Token, s: Line) {
    0 < |TextOf(t)| <= |s| && TextOf(t) == s[..|TextOf(t)|]
  }

  /** The text after its first token. */
  function After(t: Token, s: Line): (rest: Line)
    ensures s != [] ==> |rest| < |s|
  {
    if 0 < |TextOf(t)| <= |s| then s[|TextOf(t)|..] else []
  }

  function LexBy(cut: Cutter, s: Line): seq<Token>
    decreases |s|
  {
    if s == [] then [] else [cut(s)] + LexBy(cut, After(cut(s), s))
  }

  function Lex(s: Line): seq<Token> { LexBy(First, s) }

  function Text(tokens: seq<Token>): Line {
    if tokens == [] then [] else TextOf(tokens[0]) + Text(tokens[1..])
  }

  /** The tokens that are not clauses. */
  function Kept(tokens: seq<Token>): seq<Token> {
    if tokens == [] then [] else (if tokens[0].Clause? then [] else [tokens[0]]) + Kept(tokens[1..])
  }

  predicate HasClause(tokens: seq<Token>) {
    tokens != [] && (tokens[0].Clause? || HasClause(tokens[1..]))
  }

  lemma TextOfCons(t: Token, tail: seq<Token>)
    ensures Text([t] + tail) == TextOf(t) + Text(tail)
  {
    assert ([t] + tail)[1..] == tail;
  }

  lemma Splits(s: Line, n: nat)
    requires n <= |s|
    ensures s == s[..n] + s[n..]
  {
  }

  /** The tokens are the line, cut up: nothing is lost and nothing is reordered. */
  lemma {:induction false} TokensAreTheLine(s: Line)
    ensures Text(Lex(s)) == s
    decreases |s|
  {
    if s != [] {
      var t := First(s);
      TokensAreTheLine(After(t, s));
      TextOfCons(t, Lex(After(t, s)));
      Splits(s, |TextOf(t)|);
    }
  }

  /** The line without its clauses. */
  function Stripped(s: Line): Line { KeptBy(First, s) }

  function KeptBy(cut: Cutter, s: Line): Line {
    Text(Kept(LexBy(cut, s)))
  }

  predicate ClauseBy(cut: Cutter, s: Line) {
    HasClause(LexBy(cut, s))
  }

  lemma UnfoldTokens(t: Token, tail: seq<Token>)
    ensures Text(Kept([t] + tail)) == (if t.Clause? then [] else TextOf(t)) + Text(Kept(tail))
    ensures HasClause([t] + tail) <==> t.Clause? || HasClause(tail)
  {
    assert ([t] + tail)[1..] == tail;
    assert ([t] + Kept(tail))[1..] == Kept(tail);
    assert [] + Kept(tail) == Kept(tail);
    assert [] + Text(Kept(tail)) == Text(Kept(tail));
  }

  lemma KeptUnfolds(cut: Cutter, s: Line)
    requires s != []
    ensures var t := cut(s);
      && KeptBy(cut, s) == (if t.Clause? then [] else TextOf(t)) + KeptBy(cut, After(t, s))
      && (ClauseBy(cut, s) <==> t.Clause? || ClauseBy(cut, After(t, s)))
  {
    UnfoldTokens(cut(s), LexBy(cut, After(cut(s), s)));
  }

  // ── The loops ──

  function Clip(i: nat, n: nat): nat { if i <= n then i else n }

  /** What is left from an index that may have run one past the end. */
  function From(s: Line, i: nat): Line {
    s[Clip(i, |s|)..]
  }

  /** `Closing` by index: where the literal that byte `i` is in ends. */
  function QuoteEnd(q: Byte, line: Line, i: nat): (end: nat)
    requires i <= |line|
    ensures i <= end <= |line|
    decreases |line| - i
  {
    if i == |line| then i
    else if line[i] == '\\' && q != '`' then (if i + 1 == |line| then i + 1 else QuoteEnd(q, line, i + 2))
    else if line[i] == q then (if i + 1 < |line| && line[i + 1] == q then QuoteEnd(q, line, i + 2) else i + 1)
    else QuoteEnd(q, line, i + 1)
  }

  lemma {:induction false} QuoteEndIsClosing(q: Byte, line: Line, i: nat)
    requires i <= |line|
    ensures QuoteEnd(q, line, i) == i + Closing(q, line[i..])
    decreases |line| - i
  {
    if i < |line| {
      QuoteEndIsClosing(q, line, i + 1);
      assert line[i..][1..] == line[i + 1..];
      if i + 1 < |line| {
        QuoteEndIsClosing(q, line, i + 2);
        assert line[i..][2..] == line[i + 2..];
      }
    }
  }

  /** `skip_definer_part`: an escape at the very end takes the index one past it. */
  method SkipDefinerPart(bytes: Line, start: nat) returns (i: nat)
    requires start <= |bytes| + 1
    ensures start <= i <= |bytes| + 1
    ensures Clip(i, |bytes|) == Clip(start, |bytes|) + PartLength(From(bytes, start))
  {
    i := start;
    if i >= |bytes| {
      return;
    }
    var c := bytes[i];
    if IsQuote(c) {
      i := SkipQuoted(bytes, c, i + 1);
      QuoteEndIsClosing(c, bytes, start + 1);
      assert bytes[start..][1..] == bytes[start + 1..];
    } else {
      i := SkipBare(bytes, i);
    }
  }

  method SkipQuoted(bytes: Line, c: Byte, start: nat) returns (i: nat)
    requires start <= |bytes|
    ensures start <= i <= |bytes| + 1
    ensures Clip(i, |bytes|) == QuoteEnd(c, bytes, start)
  {
    i := start;
    while i < |bytes|
      invariant start <= i <= |bytes| + 1
      invariant QuoteEnd(c, bytes, start) == QuoteEnd(c, bytes, Clip(i, |bytes|))
      decreases |bytes| + 1 - i
    {
      if bytes[i] == '\\' && c != '`' {
        i := i + 2;
        continue;
      }
      if bytes[i] == c {
        if i + 1 < |bytes| && bytes[i + 1] == c {
          i := i + 2;
          continue;
        }
        i := i + 1;
        return;
      }
      i := i + 1;
    }
  }

  method SkipBare(bytes: Line, start: nat) returns (i: nat)
    requires start <= |bytes|
    ensures start <= i <= |bytes| && i == start + BareLength(bytes[start..])
  {
    i := start;
    while i < |bytes| && IsBare(bytes[i])
      invariant start <= i <= |bytes|
      invariant start + BareLength(bytes[start..]) == i + BareLength(bytes[i..])
    {
      assert bytes[i..][1..] == bytes[i + 1..];
      i := i + 1;
    }
  }

  /** `AccountEnd` by index, from where the first part ends. */
  lemma AccountFrom(bytes: Line, start: nat, i: nat)
    requires start <= |bytes| && start <= i <= |bytes| + 1
    requires Clip(i, |bytes|) == start + PartLength(bytes[start..])
    ensures start + AccountEnd(bytes[start..]) ==
      if i < |bytes| && bytes[i] == '@' then i + 1 + PartLength(bytes[i + 1..]) else Clip(i, |bytes|)
  {
    var s := bytes[start..];
    if i < |bytes| {
      assert s[i - start] == bytes[i] && s[i - start + 1..] == bytes[i + 1..];
    }
  }

  /** `skip_definer_clause`, and the space after it. */
  method SkipDefinerClause(bytes: Line, start: nat) returns (i: nat)
    requires start <= |bytes|
    ensures start <= i <= |bytes| + 1
    ensures Clip(i, |bytes|) == start + ClauseLength(bytes[start..])
  {
    i := SkipDefinerPart(bytes, start);
    AccountFrom(bytes, start, i);
    if i < |bytes| && bytes[i] == '@' {
      i := SkipDefinerPart(bytes, i + 1);
    }
    assert Clip(i, |bytes|) == start + AccountEnd(bytes[start..]);
    if i < |bytes| && bytes[i] == ' ' {
      i := i + 1;
    }
  }

  predicate KeywordAt(s: Line, i: nat) {
    i <= |s| && StartsWithKeyword(s[i..])
  }

  method ContainsKeyword(s: Line) returns (found: bool)
    ensures found <==> exists i :: KeywordAt(s, i)
  {
    found := false;
    var i := 0;
    while i + |KEYWORD| <= |s|
      invariant i <= |s| && forall j | 0 <= j < i :: !KeywordAt(s, j)
    {
      if KeywordAt(s, i) {
        return true;
      }
      i := i + 1;
    }
  }

  /** What a text has only if it has it after its first token, it does not have. */
  lemma {:induction false} NowhereAfter(p: Line -> bool, cut: Cutter, s: Line, i: nat)
    requires i <= |s| && !p([])
    requires forall j | 0 <= j < |s| :: p(s[j..]) ==> p(After(cut(s[j..]), s[j..]))
    ensures !p(s[i..])
    decreases |s| - i
  {
    if i < |s| {
      var rest := After(cut(s[i..]), s[i..]);
      var next := |s| - |rest|;
      assert rest == s[next..];
      NowhereAfter(p, cut, s, next);
    } else {
      assert s[i..] == [];
    }
  }

  lemma NoKeywordNoClause(s: Line)
    requires forall j :: !KeywordAt(s, j)
    ensures !HasClause(Lex(s))
  {
    var p := (rest: Line) => ClauseBy(First, rest);
    forall j | 0 <= j < |s| ensures p(s[j..]) ==> p(After(First(s[j..]), s[j..])) {
      assert !KeywordAt(s, j);
      KeptUnfolds(First, s[j..]);
    }
    NowhereAfter(p, First, s, 0);
    assert s[0..] == s;
  }

  datatype Filtered = Borrowed | Owned(text: Line)

  /** `c as char`, pushed on a `String`: a byte of 128 or more becomes two. */
  function EncodedByte(c: Byte): (r: Line)
    ensures |r| == if (c as int) < 128 then 1 else 2
    ensures (c as int) < 128 ==> r == [c]
  {
    if (c as int) < 128 then [c] else [(0xC0 + c as int / 64) as char, (0x80 + c as int % 64) as char]
  }

  /** How one byte is written. */
  type Encoding = Byte -> Line

  function EncodedBy(encode: Encoding, s: Line): Line {
    if s == [] then [] else EncodedBy(encode, s[..|s| - 1]) + encode(s[|s| - 1])
  }

  /** What the output of the filter looks like. */
  function Encoded(s: Line): Line { EncodedBy(EncodedByte, s) }

  lemma {:induction false} EncodedOfSum(encode: Encoding, a: Line, b: Line)
    ensures EncodedBy(encode, a + b) == EncodedBy(encode, a) + EncodedBy(encode, b)
    decreases |b|
  {
    if b == [] {
      assert a + b == a;
    } else {
      assert (a + b)[..|a + b| - 1] == a + b[..|b| - 1];
      EncodedOfSum(encode, a, b[..|b| - 1]);
    }
  }

  predicate Ascii(s: Line) {
    forall i | 0 <= i < |s| :: (s[i] as int) < 128
  }

  lemma {:induction false} EncodedExactly(s: Line)
    ensures |Encoded(s)| >= |s|
    ensures Ascii(s) ==> Encoded(s) == s
    ensures !Ascii(s) ==> |Encoded(s)| > |s|
  {
    if s != [] {
      EncodedExactly(s[..|s| - 1]);
      assert s == s[..|s| - 1] + [s[|s| - 1]];
    }
  }

  datatype Filter = Filter(cut: Cutter, encode: Encoding)

  const DEFINERS := Filter(First, EncodedByte)

  ghost predicate CutsLikeFirst(f: Filter) {
    forall s: Line {:trigger First(s)} :: f.cut(s) == First(s)
  }

  /** What is still owed of `rest`, of which the first `left` bytes belong to the token the loop is in. */
  ghost function Owed(cut: Cutter, rest: Line, left: nat): Line
    requires left <= |rest|
  {
    rest[..left] + KeptBy(cut, rest[left..])
  }

  lemma Associates(a: Line, b: Line, c: Line)
    ensures (a + b) + c == a + (b + c)
  {
  }

  lemma OwedByte(cut: Cutter, rest: Line, left: nat)
    requires 0 < left <= |rest|
    ensures Owed(cut, rest, left) == [rest[0]] + Owed(cut, rest[1..], left - 1)
    ensures rest[left..] == rest[1..][left - 1..]
  {
    assert rest[..left] == [rest[0]] + rest[1..][..left - 1];
    assert rest[left..] == rest[1..][left - 1..];
    Associates([rest[0]], rest[1..][..left - 1], KeptBy(cut, rest[left..]));
  }

  /** A token that is kept is owed, byte for byte; a clause is not. */
  lemma OwedToken(cut: Cutter, rest: Line)
    requires rest != [] && Begins(cut(rest), rest)
    ensures var t := cut(rest); var n := |TextOf(t)|;
      && Owed(cut, rest, 0) == (if t.Clause? then Owed(cut, rest[n..], 0) else Owed(cut, rest, n))
      && (ClauseBy(cut, rest[0..]) <==> t.Clause? || ClauseBy(cut, rest[n..]))
  {
    var t := cut(rest);
    KeptUnfolds(cut, rest);
    NothingLeft(cut, rest);
    NothingLeft(cut, rest[|TextOf(t)|..]);
  }

  lemma NothingLeft(cut: Cutter, rest: Line)
    ensures Owed(cut, rest, 0) == KeptBy(cut, rest) && rest[0..] == rest
  {
    assert rest[..0] == [] && rest[0..] == rest;
    assert [] + KeptBy(cut, rest) == KeptBy(cut, rest);
  }

  /** The loop with `rest` to go: what was written and what is owed make up `total`. */
  ghost predicate Filtering(f: Filter, total: Line, clause: bool, rest: Line, left: nat, changed: bool, out: Line) {
    && left <= |rest|
    && total == out + EncodedBy(f.encode, Owed(f.cut, rest, left))
    && (clause <==> changed || ClauseBy(f.cut, rest[left..]))
  }

  lemma WrittenAndOwed(encode: Encoding, out: Line, chunk: Line, owed: Line)
    ensures out + EncodedBy(encode, chunk + owed) == out + EncodedBy(encode, chunk) + EncodedBy(encode, owed)
  {
    EncodedOfSum(encode, chunk, owed);
    Associates(out, EncodedBy(encode, chunk), EncodedBy(encode, owed));
  }

  lemma OneEncoded(encode: Encoding, a: Byte)
    ensures EncodedBy(encode, [a]) == encode(a)
  {
    assert [a][..0] == [];
    assert EncodedBy(encode, [a]) == EncodedBy(encode, []) + encode(a);
    assert [] + encode(a) == encode(a);
  }

  lemma CopiedByte(f: Filter, total: Line, clause: bool, rest: Line, left: nat, changed: bool, out: Line)
    requires Filtering(f, total, clause, rest, left, changed, out) && 0 < left
    ensures Filtering(f, total, clause, rest[1..], left - 1, changed, out + f.encode(rest[0]))
  {
    OwedByte(f.cut, rest, left);
    OneEncoded(f.encode, rest[0]);
    WrittenAndOwed(f.encode, out, [rest[0]], Owed(f.cut, rest[1..], left - 1));
  }

  /** The loop reaches a token: the first byte of a kept one is copied, a clause is passed over. */
  lemma KeptBegins(f: Filter, total: Line, clause: bool, rest: Line, changed: bool, out: Line)
    requires rest != [] && Filtering(f, total, clause, rest, 0, changed, out)
    requires !f.cut(rest).Clause? && Begins(f.cut(rest), rest)
    ensures Filtering(f, total, clause, rest[1..], |TextOf(f.cut(rest))| - 1, changed, out + f.encode(rest[0]))
  {
    OwedToken(f.cut, rest);
    CopiedByte(f, total, clause, rest, |TextOf(f.cut(rest))|, changed, out);
  }

  lemma ClausePassed(f: Filter, total: Line, clause: bool, rest: Line, changed: bool, out: Line)
    requires rest != [] && Filtering(f, total, clause, rest, 0, changed, out)
    requires f.cut(rest).Clause? && Begins(f.cut(rest), rest)
    ensures Filtering(f, total, clause, rest[|TextOf(f.cut(rest))|..], 0, true, out)
  {
    OwedToken(f.cut, rest);
  }

  lemma StartFiltering(f: Filter, line: Line)
    ensures Filtering(f, EncodedBy(f.encode, KeptBy(f.cut, line)), ClauseBy(f.cut, line), line, 0, false, [])
  {
    NothingLeft(f.cut, line);
    assert [] + EncodedBy(f.encode, KeptBy(f.cut, line)) == EncodedBy(f.encode, KeptBy(f.cut, line));
  }

  lemma EndFiltering(f: Filter, total: Line, clause: bool, rest: Line, left: nat, changed: bool, out: Line)
    requires rest == [] && Filtering(f, total, clause, rest, left, changed, out)
    ensures out == total && (clause <==> changed)
  {
    assert out + [] == out;
  }

  // The loop itself only needs to know that there is such a thing as what it owes.
  type Debt = (Line, nat) -> (Line, bool)

  ghost predicate DebtOf(f: Filter, debt: Debt) {
    forall rest: Line, left: nat {:trigger Owed(f.cut, rest, left)} | left <= |rest| ::
      debt(rest, left) == (EncodedBy(f.encode, Owed(f.cut, rest, left)), ClauseBy(f.cut, rest[left..]))
  }

  ghost predicate Going(debt: Debt, total: Line, has: bool, rest: Line, left: nat, changed: bool, out: Line) {
    left <= |rest| && total == out + debt(rest, left).0 && (has <==> changed || debt(rest, left).1)
  }

  lemma GoingIsFiltering(f: Filter, debt: Debt, total: Line, has: bool, rest: Line, left: nat, changed: bool, out: Line)
    requires DebtOf(f, debt)
    ensures Going(debt, total, has, rest, left, changed, out) <==> Filtering(f, total, has, rest, left, changed, out)
  {
    if left <= |rest| {
      assert debt(rest, left).0 == EncodedBy(f.encode, Owed(f.cut, rest, left));
    }
  }

  // ── What the next byte says about where the literal ends ──

  ghost predicate InQuote(line: Line, i: nat, quote: Option<Byte>, left: int) {
    match quote
    case None => left == 0
    case Some(q) => IsQuote(q) && i <= |line| && i + left == QuoteEnd(q, line, i)
  }

  /** How many bytes the literal goes on by, and whether it is still open after them. */
  method StepInLiteral(line: Line, i: nat, q: Byte) returns (step: nat, quote: Option<Byte>)
    requires i < |line| && IsQuote(q)
    ensures 1 <= step <= 2 && i + step <= QuoteEnd(q, line, i)
    ensures InQuote(line, i + step, quote, QuoteEnd(q, line, i) - i - step)
  {
    var c := line[i];
    if c == '\\' && q != '`' {
      if i + 1 < |line| {
        return 2, Some(q);
      }
    } else if c == q {
      if i + 1 < |line| && line[i + 1] == q {
        return 2, Some(q);
      }
      return 1, None;
    }
    return 1, Some(q);
  }

  lemma ByteTurn(f: Filter, debt: Debt, total: Line, has: bool, line: Line, i: nat, left: nat, changed: bool, out: Line)
    requires DebtOf(f, debt) && i < |line| && 0 < left && Going(debt, total, has, From(line, i), left, changed, out)
    ensures Going(debt, total, has, From(line, i + 1), left - 1, changed, out + f.encode(line[i]))
  {
    GoingIsFiltering(f, debt, total, has, From(line, i), left, changed, out);
    CopiedByte(f, total, has, From(line, i), left, changed, out);
    assert From(line, i)[1..] == From(line, i + 1);
    GoingIsFiltering(f, debt, total, has, From(line, i + 1), left - 1, changed, out + f.encode(line[i]));
  }

  lemma FirstAt(line: Line, i: nat)
    requires i < |line|
    ensures var t := First(line[i..]);
      if IsQuote(line[i]) then !t.Clause? && i + |TextOf(t)| == QuoteEnd(line[i], line, i + 1)
      else if StartsWithKeyword(line[i..]) then
        t.Clause? && |TextOf(t)| == |KEYWORD| + ClauseLength(line[i + |KEYWORD|..])
      else !t.Clause? && |TextOf(t)| == 1
  {
    assert line[i..][1..] == line[i + 1..];
    QuoteEndIsClosing(line[i], line, i + 1);
    if StartsWithKeyword(line[i..]) {
      assert line[i..][|KEYWORD|..] == line[i + |KEYWORD|..];
    }
  }

  /** What begins at `i`: how long it is, and whether it is a clause. */
  method TokenAt(ghost f: Filter, line: Line, i: nat) returns (quote: Option<Byte>, clause: bool, after: nat)
    requires i < |line| && CutsLikeFirst(f)
    ensures Begins(f.cut(line[i..]), line[i..])
    ensures clause <==> f.cut(line[i..]).Clause?
    ensures clause ==> quote.None? && i < after <= |line| + 1 && Clip(after, |line|) == i + |TextOf(f.cut(line[i..]))|
    ensures !clause ==> after == i + 1 && InQuote(line, i + 1, quote, |TextOf(f.cut(line[i..]))| - 1)
  {
    FirstAt(line, i);
    if IsQuote(line[i]) {
      return Some(line[i]), false, i + 1;
    }
    if StartsWithKeyword(line[i..]) {
      after := SkipDefinerClause(line, i + |KEYWORD|);
      return None, true, after;
    }
    return None, false, i + 1;
  }

  lemma KeptTurn(f: Filter, debt: Debt, total: Line, has: bool, line: Line, i: nat, n: nat, changed: bool, out: Line)
    requires DebtOf(f, debt) && i < |line| && Going(debt, total, has, From(line, i), 0, changed, out)
    requires !f.cut(line[i..]).Clause? && n == |TextOf(f.cut(line[i..]))| && Begins(f.cut(line[i..]), line[i..])
    ensures 0 < n && Going(debt, total, has, From(line, i + 1), n - 1, changed, out + f.encode(line[i]))
  {
    GoingIsFiltering(f, debt, total, has, From(line, i), 0, changed, out);
    KeptBegins(f, total, has, From(line, i), changed, out);
    assert From(line, i)[1..] == From(line, i + 1);
    GoingIsFiltering(f, debt, total, has, From(line, i + 1), n - 1, changed, out + f.encode(line[i]));
  }

  lemma ClauseTurn(f: Filter, debt: Debt, total: Line, has: bool, line: Line, i: nat, after: nat, changed: bool,
                   out: Line)
    requires DebtOf(f, debt) && i < |line| && Going(debt, total, has, From(line, i), 0, changed, out)
    requires f.cut(line[i..]).Clause? && Begins(f.cut(line[i..]), line[i..])
    requires Clip(after, |line|) == i + |TextOf(f.cut(line[i..]))|
    ensures Going(debt, total, has, From(line, after), 0, true, out)
  {
    GoingIsFiltering(f, debt, total, has, From(line, i), 0, changed, out);
    ClausePassed(f, total, has, From(line, i), changed, out);
    assert From(line, i)[|TextOf(f.cut(line[i..]))|..] == From(line, after);
    GoingIsFiltering(f, debt, total, has, From(line, after), 0, true, out);
  }

  lemma NothingGoing(f: Filter, debt: Debt, total: Line, has: bool, rest: Line, left: nat, changed: bool, out: Line)
    requires DebtOf(f, debt) && rest == [] && Going(debt, total, has, rest, left, changed, out)
    ensures out == total && (has <==> changed)
  {
    GoingIsFiltering(f, debt, total, has, rest, left, changed, out);
    EndFiltering(f, total, has, rest, left, changed, out);
  }

  /** `strip_definers`: a line without a clause is handed back, any other is copied without its clauses. */
  method StripDefiners(line: Line) returns (r: Filtered)
    ensures r.Owned? <==> HasClause(Lex(line))
    ensures r.Owned? ==> r.text == Encoded(Stripped(line))
  {
    var maybe := ContainsKeyword(line);
    if !maybe {
      NoKeywordNoClause(line);
      return Borrowed;
    }
    ghost var total, has := Encoded(Stripped(line)), HasClause(Lex(line));
    StartFiltering(DEFINERS, line);
    ghost var debt: Debt := (rest: Line, left: nat) =>
      if left <= |rest| then (EncodedBy(EncodedByte, Owed(First, rest, left)), ClauseBy(First, rest[left..]))
        else ([], false);
    GoingIsFiltering(DEFINERS, debt, total, has, line, 0, false, []);
    r := FilterLine(DEFINERS, debt, total, has, line);
  }

  /** One turn of the loop inside a literal. */
  method InLiteral(f: Filter, ghost debt: Debt, ghost total: Line, ghost has: bool, line: Line,
                   i: nat, q: Byte, ghost left: nat, ghost changed: bool, out: Line)
    returns (i': nat, quote: Option<Byte>, ghost left': nat, out': Line)
    requires DebtOf(f, debt) && i < |line| && InQuote(line, i, Some(q), left)
    requires Going(debt, total, has, From(line, i), left, changed, out)
    ensures i < i' <= |line| && InQuote(line, i', quote, left')
    ensures Going(debt, total, has, From(line, i'), left', changed, out')
  {
    var step: nat;
    step, quote := StepInLiteral(line, i, q);
    ByteTurn(f, debt, total, has, line, i, left, changed, out);
    i', left', out' := i + 1, left - 1, out + f.encode(line[i]);
    if step == 2 {
      ByteTurn(f, debt, total, has, line, i', left', changed, out');
      out' := out' + f.encode(line[i']);
      i', left' := i' + 1, left' - 1;
    }
  }

  /** One turn of the loop outside of any. */
  method OutsideLiterals(f: Filter, ghost debt: Debt, ghost total: Line, ghost has: bool, line: Line,
                         i: nat, changed: bool, out: Line)
    returns (i': nat, quote: Option<Byte>, ghost left': nat, changed': bool, out': Line)
    requires CutsLikeFirst(f) && DebtOf(f, debt) && i < |line|
    requires Going(debt, total, has, From(line, i), 0, changed, out)
    ensures i < i' <= |line| + 1 && InQuote(line, i', quote, left')
    ensures Going(debt, total, has, From(line, i'), left', changed', out')
  {
    ghost var n := |TextOf(f.cut(line[i..]))|;
    var clause;
    quote, clause, i' := TokenAt(f, line, i);
    if clause {
      ClauseTurn(f, debt, total, has, line, i, i', changed, out);
      changed', out', left' := true, out, 0;
    } else {
      KeptTurn(f, debt, total, has, line, i, n, changed, out);
      changed', out', left' := changed, out + f.encode(line[i]), n - 1;
    }
  }

  /** The loop, with the quote it is in and the index it has come to. */
  method FilterLine(f: Filter, ghost debt: Debt, ghost total: Line, ghost has: bool, line: Line) returns (r: Filtered)
    requires CutsLikeFirst(f) && DebtOf(f, debt) && Going(debt, total, has, line, 0, false, [])
    ensures r.Owned? <==> has
    ensures r.Owned? ==> r.text == total
  {
    var out: Line := [];
    var i := 0;
    var quote: Option<Byte> := None;
    var changed := false;
    ghost var left := 0;
    assert From(line, 0) == line;
    while i < |line|
      invariant i <= |line| + 1 && InQuote(line, i, quote, left)
      invariant Going(debt, total, has, From(line, i), left, changed, out)
      decreases |line| + 1 - i
    {
      if quote.Some? {
        i, quote, left, out := InLiteral(f, debt, total, has, line, i, quote.value, left, changed, out);
      } else {
        i, quote, left, changed, out := OutsideLiterals(f, debt, total, has, line, i, changed, out);
      }
    }
    NothingGoing(f, debt, total, has, From(line, i), left, changed, out);
    r := if changed then Owned(out) else Borrowed;
  }
}
