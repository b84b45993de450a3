/**
 Which cron texts are refused, and with which error.

 A `Bad` entry is one of the mistakes a field can hold. A list is refused for the first of
 them, whatever follows it, and an expression for its first refused word.
 */
module CronRefusals {
  import opened Common
  import opened Text
  import opened Cron
  import opened CronParse
  import opened CronText
  import opened CronMeaning

  // ── One entry ──

  datatype Bad =
    | Blank(space: string)
    | Beyond(n: nat)
    | TooLong(n: nat)
    | Nobody(token: string)
    | Backwards(first: Value, last: Value)
    | ByNothing(range: string)
    | ByWord(range: string, word: string)

  function WrittenBad(bad: Bad): string {
    match bad
    case Blank(space) => space
    case Beyond(n) => Decimal(n)
    case TooLong(n) => Decimal(n)
    case Nobody(token) => token
    case Backwards(a, b) => WrittenValue(a) + ['-'] + WrittenValue(b)
    case ByNothing(range) => range + "/0"
    case ByWord(range, word) => range + ['/'] + word
  }

  predicate IsBad(bad: Bad, min: nat, max: nat, names: seq<string>) {
    match bad
    case Blank(space) => White(space)
    case Beyond(n) => n < 4_294_967_296 && (n < min || n > max)
    case TooLong(n) => n >= 4_294_967_296
    case Nobody(token) =>
      token != [] && (forall c <- token :: IsAlphabetic(c)) && (|token| < 3 || Lower(token[..3]) !in names)
    case Backwards(a, b) =>
      IsValue(a, min, max, names) && IsValue(b, min, max, names) && Meaning(a, min) > Meaning(b, min)
    case ByNothing(range) => Inked(range) && '/' !in range
    case ByWord(range, word) =>
      Inked(range) && '/' !in range && Inked(word) && (word == [] || exists c <- word :: !('0' <= c <= '9'))
  }

  function Complaint(bad: Bad): FieldError {
    match bad
    case Blank(_) => EmptyEntry
    case Beyond(_) => OutOfRange
    case TooLong(_) => NotANumberOrName
    case Nobody(_) => NotANumberOrName
    case Backwards(_, _) => RunsBackwards
    case ByNothing(_) => ZeroStep
    case ByWord(_, _) => BadStep
  }

  lemma {:induction false} PositionMissing(names: seq<string>, name: string)
    requires name !in names
    ensures Position(names, name).None?
  {
    if names != [] {
      PositionMissing(names[1..], name);
    }
  }

  lemma PlainIsOneValue(s: string, min: nat, max: nat, names: seq<string>)
    requires Plain(s) && s != [] && ParseValue(s, min, max, names).Err?
    ensures ParseEntry(s, min, max, names) == Err(ParseValue(s, min, max, names).error)
  {
    InkedIsTrimmed(s);
    SplitOnceMissing(s, '/');
    SplitOnceMissing(s, '-');
    assert s[0] in s;
  }

  lemma NumberIsRead(n: nat)
    ensures Trim(Decimal(n)) == Decimal(n) && !IsAlphabetic(Decimal(n)[0])
    ensures ParseU32(Decimal(n)) == if n < 4_294_967_296 then Some(n) else None
  {
    var s := Decimal(n);
    DecimalIsPlain(n);
    InkedIsTrimmed(s);
    DecimalIsRead(n);
    assert '0' <= s[0] <= '9';
  }

  lemma NumberIsRefused(n: nat, min: nat, max: nat, names: seq<string>)
    requires n >= 4_294_967_296 || n < min || n > max
    ensures ParseValue(Decimal(n), min, max, names) ==
      Err(if n < 4_294_967_296 then OutOfRange else NotANumberOrName)
  {
    NumberIsRead(n);
    assert Decimal(n)[0] in Decimal(n);
  }

  lemma TokenIsRefused(token: string, min: nat, max: nat, names: seq<string>)
    requires token != [] && (forall c <- token :: IsAlphabetic(c))
    requires |token| < 3 || Lower(token[..3]) !in names
    ensures ParseValue(token, min, max, names) == Err(NotANumberOrName)
  {
    InkedIsTrimmed(token);
    if |token| >= 3 {
      PositionMissing(names, Lower(token[..3]));
    }
    assert token[0] in token && token[0] != '+';
    OthersAreNoNumber(token, token[0]);
  }

  lemma RangeIsInked(a: string, b: string)
    requires Plain(a) && Plain(b) && a != []
    ensures Inked(a + ['-'] + b) && '/' !in a + ['-'] + b && (a + ['-'] + b)[0] != '*'
  {
    assert a[0] in a && (a + ['-'] + b)[0] == a[0];
  }

  lemma BackwardsIsOneRange(a: string, b: string)
    requires Plain(a) && Plain(b) && a != []
    ensures var text := a + ['-'] + b;
      && text != "*" && Trim(text) == text && text != [] && ParseStep(text) == Ok((text, 1))
      && SplitOnce(text, '-') == Some((a, b))
  {
    RangeIsInked(a, b);
    InkedIsTrimmed(a + ['-'] + b);
    SplitOnceMissing(a + ['-'] + b, '/');
    assert '-' !in a;
    SplitOnceAt(a, b, '-');
  }

  lemma BackwardsIsRefused(a: Value, b: Value, min: nat, max: nat, names: seq<string>)
    requires FieldShape(min, max, names) && IsValue(a, min, max, names) && IsValue(b, min, max, names)
    requires Meaning(a, min) > Meaning(b, min)
    ensures ParseEntry(WrittenValue(a) + ['-'] + WrittenValue(b), min, max, names) == Err(RunsBackwards)
  {
    ValueIsPlain(a, min, max, names);
    ValueIsPlain(b, min, max, names);
    BackwardsIsOneRange(WrittenValue(a), WrittenValue(b));
    ValueReadsBack(a, min, max, names);
    ValueReadsBack(b, min, max, names);
  }

  lemma StepIsRefused(range: string, word: string, min: nat, max: nat, names: seq<string>)
    requires Inked(range) && '/' !in range && Inked(word)
    ensures ParseU32(word).None? ==> ParseEntry(range + ['/'] + word, min, max, names) == Err(BadStep)
    ensures ParseU32(word) == Some(0) ==> ParseEntry(range + ['/'] + word, min, max, names) == Err(ZeroStep)
  {
    var text := range + ['/'] + word;
    InkedIsTrimmed(text);
    SplitOnceAt(range, word, '/');
  }

  lemma WordIsNoStep(word: string)
    requires word == [] || exists c <- word :: !('0' <= c <= '9')
    requires Inked(word)
    ensures ParseU32(word).None?
  {
    OthersAreNoNumber([], '0');
    if c :| c in word && !('0' <= c <= '9') {
      OthersAreNoNumber(word, c);
    }
  }

  lemma NothingIsZero()
    ensures ParseU32("0") == Some(0) && Inked("0")
  {
    DecimalIsRead(0);
    assert Decimal(0) == "0";
  }

  /** Each mistake is refused with its own complaint. */
  lemma BadIsRefused(bad: Bad, min: nat, max: nat, names: seq<string>)
    requires FieldShape(min, max, names) && IsBad(bad, min, max, names)
    ensures EntryOf(WrittenBad(bad), min, max, names) == Err(Complaint(bad))
  {
    match bad
    case Blank(space) =>
      TrimIsEmptyExactly(space);
    case Beyond(n) =>
      NumberIsRefused(n, min, max, names);
      DecimalIsPlain(n);
      PlainIsOneValue(Decimal(n), min, max, names);
    case TooLong(n) =>
      NumberIsRefused(n, min, max, names);
      DecimalIsPlain(n);
      PlainIsOneValue(Decimal(n), min, max, names);
    case Nobody(token) =>
      TokenIsRefused(token, min, max, names);
      PlainIsOneValue(token, min, max, names);
    case Backwards(a, b) =>
      BackwardsIsRefused(a, b, min, max, names);
    case ByNothing(range) =>
      assert range + "/0" == range + ['/'] + "0";
      NothingIsZero();
      StepIsRefused(range, "0", min, max, names);
    case ByWord(range, word) =>
      WordIsNoStep(word);
      StepIsRefused(range, word, min, max, names);
  }

  // ── A list ──

  lemma BitsBegin(part: string, rest: seq<string>, min: nat, max: nat, names: seq<string>)
    requires FieldShape(min, max, names)
    ensures var entry, bits := EntryOf(part, min, max, names), FieldBits([part] + rest, min, max, names);
      if entry.Err? then bits == Err(entry.error)
      else bits == Merge(Walked(entry.value), FieldBits(rest, min, max, names))
  {
    assert ([part] + rest)[1..] == rest;
  }

  lemma {:induction false} BitsStopAtBad(items: seq<Item>, bad: Bad, rest: seq<string>, min: nat, max: nat,
                                         names: seq<string>)
    requires FieldShape(min, max, names) && IsBad(bad, min, max, names)
    requires forall item <- items :: IsItem(item, min, max, names)
    ensures FieldBits(WrittenItems(items) + ([WrittenBad(bad)] + rest), min, max, names) == Err(Complaint(bad))
    decreases |items|
  {
    var tail := [WrittenBad(bad)] + rest;
    if items == [] {
      BadIsRefused(bad, min, max, names);
      BitsBegin(WrittenBad(bad), rest, min, max, names);
      assert WrittenItems(items) + tail == tail;
    } else {
      assert items == [items[0]] + items[1..] && items[0] in items;
      ItemReadsBack(items[0], min, max, names);
      BitsStopAtBad(items[1..], bad, rest, min, max, names);
      BitsBegin(WrittenItem(items[0]), WrittenItems(items[1..]) + tail, min, max, names);
      assert WrittenItems(items) + tail == [WrittenItem(items[0])] + (WrittenItems(items[1..]) + tail);
    }
  }

  /** A list is refused for its first mistake, whatever stands behind it. */
  lemma FirstMistakeIsReported(items: seq<Item>, bad: Bad, rest: seq<string>, min: nat, max: nat, names: seq<string>)
    requires FieldShape(min, max, names) && IsBad(bad, min, max, names)
    requires forall item <- items :: IsItem(item, min, max, names)
    requires ',' !in WrittenBad(bad) && forall part <- rest :: ',' !in part
    ensures FieldValue(Joined(WrittenItems(items) + ([WrittenBad(bad)] + rest), ','), min, max, names) ==
      Err(Complaint(bad))
  {
    var parts := WrittenItems(items) + ([WrittenBad(bad)] + rest);
    forall i | 0 <= i < |parts| ensures ',' !in parts[i] {
      if i < |items| {
        assert items[i] in items;
        ItemReadsBack(items[i], min, max, names);
      } else if i > |items| {
        assert parts[i] == rest[i - |items| - 1] && parts[i] in rest;
      }
    }
    SplitUndoesJoined(parts, ',');
    BitsStopAtBad(items, bad, rest, min, max, names);
  }

  // ── The five words ──

  predicate IsWord(word: string) {
    word != [] && forall c <- word :: !IsWhite(c)
  }

  /** Words, and no shorthand. */
  predicate AreWords(words: seq<string>) {
    words != [] && (forall i | 0 <= i < |words| :: IsWord(words[i])) && words[0][0] != '@'
  }

  lemma WordsAreRead(words: seq<string>)
    requires AreWords(words)
    ensures FromStr(Joined(words, ' ')) == ParseFieldsValue(Joined(words, ' '))
    ensures SplitWhitespace(Joined(words, ' ')) == words
  {
    var text, last := Joined(words, ' '), words[|words| - 1];
    forall i | 0 <= i < |words| ensures words[i] != [] && forall c <- words[i] :: !IsSpace(c) {
      assert IsWord(words[i]);
      forall c <- words[i] ensures !IsSpace(c) {
        SpacesAre(c);
      }
    }
    JoinedEnds(words);
    assert IsWord(words[0]) && IsWord(last);
    assert words[0][0] in words[0] && last[|last| - 1] in last;
    TrimTakesTheEndsOff([], text, []);
    assert [] + text + [] == text;
    WordsOfJoined(words);
  }

  /** The field of each word, and its bounds. */
  function FieldName(k: nat): string {
    if k == 0 then "minute" else if k == 1 then "hour" else if k == 2 then "day-of-month" else if k == 3 then "month"
    else "day-of-week"
  }

  function WordValue(word: string, k: nat): Result<(set<int>, bool), FieldError> {
    if k == 0 then FieldValue(word, 0, 59, []) else if k == 1 then FieldValue(word, 0, 23, [])
    else if k == 2 then FieldValue(word, 1, 31, []) else if k == 3 then FieldValue(word, 1, 12, MONTH_NAMES)
    else FieldValue(word, 0, 7, DOW_NAMES)
  }

  /** The first word of five that is refused is named, with its mistake. */
  lemma FirstBadWordIsNamed(words: seq<string>, k: nat, e: FieldError)
    requires |words| == 5 && AreWords(words)
    requires k < 5 && WordValue(words[k], k) == Err(e) && forall j | 0 <= j < k :: WordValue(words[j], j).Ok?
    ensures FromStr(Joined(words, ' ')) == Err(BadField(FieldName(k), e))
  {
    WordsAreRead(words);
    assert WordValue(words[0], 0).Ok? || k == 0;
    assert WordValue(words[1], 1).Ok? || k <= 1;
    assert WordValue(words[2], 2).Ok? || k <= 2;
    assert WordValue(words[3], 3).Ok? || k <= 3;
  }

  lemma CountDecides(text: string, n: nat)
    requires n == |SplitWhitespace(text)|
    ensures match ParseFieldsValue(text)
      case Ok(_) => n == 5
      case Err(LooksLikeSeconds) => 6 <= n <= 7
      case Err(WrongFieldCount(m)) => m == n && (n <= 4 || n >= 8)
      case Err(BadField(_, _)) => n == 5
      case Err(_) => false
  {
  }

  /** Any other number of words is refused: six or seven for what they look like. */
  lemma OtherCountsAreRefused(words: seq<string>)
    requires AreWords(words)
    ensures match FromStr(Joined(words, ' '))
      case Ok(_) => |words| == 5
      case Err(LooksLikeSeconds) => 6 <= |words| <= 7
      case Err(WrongFieldCount(n)) => n == |words| && (|words| <= 4 || |words| >= 8)
      case Err(BadField(_, _)) => |words| == 5
      case Err(_) => false
  {
    WordsAreRead(words);
    CountDecides(Joined(words, ' '), |words|);
  }

  /** A text is called empty exactly if it holds white space only. */
  lemma EmptyExactly(text: string)
    ensures FromStr(text) == Err(Empty) <==> White(text)
  {
    TrimIsEmptyExactly(text);
    if !White(text) && Trim(text)[0] != '@' {
      CountDecides(Trim(text), |SplitWhitespace(Trim(text))|);
    }
  }

  /** A name behind `@` that is no shorthand is refused by name; `@reboot` has a refusal of its own. */
  lemma NoShorthand(text: string, name: string)
    requires Trim(text) == ['@'] + name && Shorthand(Lower(Trim(name))).None?
    ensures FromStr(text) ==
      Err(if Lower(Trim(name)) == "reboot" then RebootUnsupported else UnknownShorthand(['@'] + Lower(Trim(name))))
  {
    assert Trim(text)[1..] == name;
    assert "@" + Lower(Trim(name)) == ['@'] + Lower(Trim(name));
  }

  /** The names of the two tables, run together. */
  lemma NamesInOrder(k: nat)
    ensures |MONTH_NAMES| == 12 && |DOW_NAMES| == 7
    ensures k < 12 ==> MONTH_NAMES[k] == ["jfmamjjasond"[k], "aeapauuuecoe"[k], "nbrrynlgptvc"[k]]
    ensures k < 7 ==> DOW_NAMES[k] == ["smtwtfs"[k], "uouehra"[k], "nneduit"[k]]
  {
    assert k < 12 ==> |MONTH_NAMES[k]| == 3;
    assert k < 7 ==> |DOW_NAMES[k]| == 3;
  }
}
