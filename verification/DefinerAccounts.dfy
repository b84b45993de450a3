/**
 The accounts a DEFINER clause can name, and that each of them is dropped whole.

 An account is a user, and perhaps a host after `@`. Either is a bare word or stands in one
 of three quotes, written with doubled quotes and, but between backticks, backslashes.
 */
module DefinerAccounts {
  import opened Common
  import opened Definer
  import opened DefinerLaws

  /** A piece of a quoted name: a byte as it is, a doubled quote, or a backslash and the byte it escapes. */
  datatype Piece = Raw(c: Byte) | Twice | Escaped(c: Byte)

  datatype Name = Bare(word: Line) | Quoted(q: Byte, pieces: seq<Piece>)

  datatype Account = Account(user: Name, host: Option<Name>)

  predicate IsWordByte(c: Byte) {
    'a' <= c <= 'z' || 'A' <= c <= 'Z' || '0' <= c <= '9' || c == '_' || c == '$'
  }

  predicate IsPiece(q: Byte, p: Piece) {
    match p
    case Raw(c) => c != q && (c == '\\' ==> q == '`')
    case Twice => true
    case Escaped(_) => q != '`'
  }

  predicate IsName(n: Name) {
    match n
    case Bare(word) => forall i | 0 <= i < |word| :: IsWordByte(word[i])
    case Quoted(q, pieces) =>
      (q == '\'' || q == '"' || q == '`') && forall i | 0 <= i < |pieces| :: IsPiece(q, pieces[i])
  }

  predicate IsAccount(a: Account) {
    IsName(a.user) && (a.host.Some? ==> IsName(a.host.value))
  }

  function PieceText(q: Byte, p: Piece): Line {
    match p case Raw(c) => [c] case Twice => [q, q] case Escaped(c) => ['\\', c]
  }

  function Body(q: Byte, pieces: seq<Piece>): Line {
    if pieces == [] then [] else PieceText(q, pieces[0]) + Body(q, pieces[1..])
  }

  function NameText(n: Name): Line {
    match n
    case Bare(word) => word
    case Quoted(q, pieces) => [q] + Body(q, pieces) + [q]
  }

  function AccountText(a: Account): Line {
    NameText(a.user) + if a.host.Some? then ['@'] + NameText(a.host.value) else []
  }

  /** The name cannot go on into what follows it. */
  predicate EndsBefore(n: Name, rest: Line) {
    rest != [] ==> if n.Bare? then !IsWordByte(rest[0]) && (n.word == [] ==> rest[0] !in ['\'', '"', '`'])
                   else rest[0] != n.q
  }

  // ── One name ──

  lemma {:induction false} WordLength(word: Line, rest: Line)
    requires forall i | 0 <= i < |word| :: IsWordByte(word[i])
    requires rest != [] ==> !IsWordByte(rest[0])
    ensures BareLength(word + rest) == |word|
  {
    if word == [] {
      assert word + rest == rest;
    } else {
      assert (word + rest)[1..] == word[1..] + rest;
      WordLength(word[1..], rest);
    }
  }

  lemma {:induction false} BodyCloses(q: Byte, pieces: seq<Piece>, rest: Line)
    requires forall i | 0 <= i < |pieces| :: IsPiece(q, pieces[i])
    requires (q == '\'' || q == '"' || q == '`') && (rest != [] ==> rest[0] != q)
    ensures Closing(q, Body(q, pieces) + [q] + rest) == |Body(q, pieces)| + 1
  {
    var s := Body(q, pieces) + [q] + rest;
    if pieces == [] {
      assert s == [q] + rest;
    } else {
      var first, more := PieceText(q, pieces[0]), Body(q, pieces[1..]) + [q] + rest;
      assert s == first + more;
      assert s[|first|..] == more;
      BodyCloses(q, pieces[1..], rest);
      FirstPiece(q, pieces[0], s, more);
    }
  }

  lemma FirstPiece(q: Byte, p: Piece, s: Line, more: Line)
    requires IsPiece(q, p) && (q == '\'' || q == '"' || q == '`') && more != []
    requires s == PieceText(q, p) + more && s[|PieceText(q, p)|..] == more
    ensures Closing(q, s) == |PieceText(q, p)| + Closing(q, more)
  {
    match p
    case Raw(c) => assert s[0] == c;
    case Twice => assert s[0] == q && s[1] == q;
    case Escaped(c) => assert s[0] == '\\';
  }

  lemma NameLength(n: Name, rest: Line)
    requires IsName(n) && EndsBefore(n, rest)
    ensures PartLength(NameText(n) + rest) == |NameText(n)|
  {
    var s := NameText(n) + rest;
    match n
    case Bare(word) =>
      if s != [] {
        assert s[0] == if word != [] then word[0] else rest[0];
        assert word != [] ==> IsWordByte(word[0]);
      }
      WordLength(word, rest);
    case Quoted(q, pieces) =>
      assert s[0] == q;
      assert s[1..] == Body(q, pieces) + [q] + rest;
      BodyCloses(q, pieces, rest);
  }

  // ── The clause ──

  /** The account does not go on into what follows it: not by its last name, and not with a host of its own. */
  predicate StopsBefore(a: Account, rest: Line) {
    if a.host.Some? then EndsBefore(a.host.value, rest)
    else EndsBefore(a.user, rest) && (rest != [] ==> rest[0] != '@')
  }

  lemma AccountEnds(a: Account, rest: Line)
    requires IsAccount(a) && StopsBefore(a, rest)
    ensures AccountEnd(AccountText(a) + rest) == |AccountText(a)|
  {
    var u := NameText(a.user);
    if a.host.Some? {
      var h := NameText(a.host.value);
      var s := AccountText(a) + rest;
      assert s == u + (['@'] + h + rest);
      NameLength(a.user, ['@'] + h + rest);
      assert s[|u|] == '@';
      assert s[|u| + 1..] == h + rest;
      NameLength(a.host.value, rest);
    } else {
      assert AccountText(a) == u;
      NameLength(a.user, rest);
    }
  }

  /** The keyword, each letter in either case. */
  predicate IsKeyword(k: Line) {
    |k| == 8 && forall i | 0 <= i < 8 :: k[i] == "DEFINER="[i] || k[i] == "definer="[i]
  }

  lemma KeywordBegins(k: Line, rest: Line)
    requires IsKeyword(k)
    ensures StartsWithKeyword(k + rest) && !IsQuote((k + rest)[0]) && (k + rest)[|KEYWORD|..] == rest
  {
    assert (k + rest)[..8] == k;
    UppercaseAt(k);
    assert KEYWORD == "DEFINER=";
    forall i | 0 <= i < 8 ensures Uppercase(k)[i] == KEYWORD[i] {
      assert k[i] == "DEFINER="[i] || k[i] == "definer="[i];
    }
  }

  lemma KeywordClauseIsDropped(k: Line, clause: Line, rest: Line)
    requires IsKeyword(k) && ClauseLength(clause + rest) == |clause|
    ensures Stripped(k + (clause + rest)) == Stripped(rest)
  {
    var s := k + (clause + rest);
    KeywordBegins(k, clause + rest);
    ClauseFirst(s, |clause|);
    StrippedOf(s);
    assert s[|KEYWORD| + |clause|..] == rest;
    assert [] + Stripped(rest) == Stripped(rest);
  }

  /**
   However the keyword and the account are written, the clause is dropped: with the one
   space after it, if there is one, and nothing else.
   */
  lemma AnyAccountIsDropped(k: Line, a: Account, rest: Line)
    requires IsKeyword(k) && IsAccount(a)
    ensures Stripped(k + (AccountText(a) + [' '] + rest)) == Stripped(rest)
    ensures StopsBefore(a, rest) && (rest != [] ==> rest[0] != ' ') ==>
      Stripped(k + (AccountText(a) + rest)) == Stripped(rest)
  {
    var spaced := AccountText(a) + [' '];
    AccountEnds(a, [' '] + rest);
    assert spaced + rest == AccountText(a) + ([' '] + rest);
    assert (spaced + rest)[|AccountText(a)|] == ' ';
    KeywordClauseIsDropped(k, spaced, rest);
    if StopsBefore(a, rest) && (rest != [] ==> rest[0] != ' ') {
      AccountEnds(a, rest);
      KeywordClauseIsDropped(k, AccountText(a), rest);
    }
  }

  /** A byte that begins neither a literal nor the keyword. */
  predicate IsHarmless(c: Byte) {
    c != '\'' && c != '"' && c != '`' && c != 'D' && c != 'd'
  }

  lemma HarmlessFirst(s: Line)
    requires s != [] && IsHarmless(s[0])
    ensures Stripped(s) == [s[0]] + Stripped(s[1..])
  {
    if |s| >= |KEYWORD| {
      UppercaseAt(s[..|KEYWORD|]);
      assert Uppercase(s[..|KEYWORD|])[0] == Upper(s[0]) && KEYWORD[0] == 'D';
    }
    PlainFirst(s);
  }

  /** Such bytes are kept as they are. */
  lemma {:induction false} HarmlessIsKept(before: Line, rest: Line)
    requires forall i | 0 <= i < |before| :: IsHarmless(before[i])
    ensures Stripped(before + rest) == before + Stripped(rest)
  {
    if before == [] {
      assert before + rest == rest && before + Stripped(rest) == Stripped(rest);
    } else {
      var s := before + rest;
      assert s[1..] == before[1..] + rest;
      HarmlessIsKept(before[1..], rest);
      HarmlessFirst(s);
      Regroup(before, Stripped(rest));
    }
  }

  lemma Regroup(before: Line, rest: Line)
    requires before != []
    ensures [before[0]] + (before[1..] + rest) == before + rest
  {
  }

  /** A clause in the middle of a line: what is before it stays, and what follows its one space. */
  lemma ClauseInALine(before: Line, k: Line, a: Account, rest: Line)
    requires (forall i | 0 <= i < |before| :: IsHarmless(before[i])) && IsKeyword(k) && IsAccount(a)
    ensures Stripped(before + (k + (AccountText(a) + [' '] + rest))) == before + Stripped(rest)
  {
    AnyAccountIsDropped(k, a, rest);
    HarmlessIsKept(before, k + (AccountText(a) + [' '] + rest));
  }

  /** `CREATE DEFINER=CURRENT_USER VIEW ...` loses the clause and keeps one space. */
  lemma CurrentUserIsDropped(user: Line, rest: Line)
    requires user == "CURRENT_USER"
    ensures Stripped("CREATE " + ("DEFINER=" + (user + [' '] + rest))) == "CREATE " + Stripped(rest)
  {
    var a := Account(Bare(user), None);
    assert AccountText(a) == user;
    ClauseInALine("CREATE ", "DEFINER=", a, rest);
  }
}
