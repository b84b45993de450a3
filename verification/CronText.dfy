/**
 What a cron text says, written down independently of the parser.

 A field is a list of items: everything, one value or a span, each perhaps with a step,
 and a value is a number or a name. `Written` is such a text; the theorems say that the
 parser reads back what was written, word by word.
 */
module CronText {
  import opened Common
  import opened Text
  import opened Cron
  import opened CronParse

  datatype Value = Number(n: nat) | Named(token: string, index: nat)

  datatype Span = Everything | One(v: Value) | FromTo(first: Value, last: Value)

  datatype Item = Item(span: Span, step: Option<nat>)

  // ── What is written ──

  function WrittenValue(v: Value): string {
    match v case Number(n) => Decimal(n) case Named(token, _) => token
  }

  function WrittenSpan(span: Span): string {
    match span
    case Everything => "*"
    case One(v) => WrittenValue(v)
    case FromTo(a, b) => WrittenValue(a) + ['-'] + WrittenValue(b)
  }

  function WrittenItem(item: Item): string {
    WrittenSpan(item.span) + if item.step.Some? then ['/'] + Decimal(item.step.value) else []
  }

  function WrittenItems(items: seq<Item>): (parts: seq<string>)
    ensures |parts| == |items| && forall i | 0 <= i < |items| :: parts[i] == WrittenItem(items[i])
  {
    if items == [] then [] else [WrittenItem(items[0])] + WrittenItems(items[1..])
  }

  function Written(items: seq<Item>): string { Joined(WrittenItems(items), ',') }

  // ── What it means ──

  /** A name stands for its place in the table, counted from the least value of the field. */
  function Meaning(v: Value, min: nat): nat {
    match v case Number(n) => n case Named(_, index) => min + index
  }

  predicate IsValue(v: Value, min: nat, max: nat, names: seq<string>) {
    match v
    case Number(n) => min <= n <= max
    case Named(token, index) =>
      && index < |names| && |token| >= 3 && (forall c <- token :: IsAlphabetic(c))
      && Lower(token[..3]) == names[index]
  }

  function Lowest(span: Span, min: nat): nat {
    match span case Everything => min case One(v) => Meaning(v, min) case FromTo(a, _) => Meaning(a, min)
  }

  function StepOf(item: Item): nat { if item.step.Some? then item.step.value else 1 }

  /** Its values are of the field and in order, and its step is one the addition of the walk does not overflow with. */
  predicate IsItem(item: Item, min: nat, max: nat, names: seq<string>) {
    && 1 <= StepOf(item) && Lowest(item.span, min) + StepOf(item) < U32_LIMIT
    && match item.span
       case Everything => true
       case One(v) => IsValue(v, min, max, names)
       case FromTo(a, b) =>
         IsValue(a, min, max, names) && IsValue(b, min, max, names) && Meaning(a, min) <= Meaning(b, min)
  }

  predicate IsList(items: seq<Item>, min: nat, max: nat, names: seq<string>) {
    items != [] && forall item <- items :: IsItem(item, min, max, names)
  }

  /** The item selects the value: one value with a step above 1 is a span to the end of the field. */
  predicate Selects(item: Item, min: nat, max: nat, v: int)
    requires StepOf(item) > 0
  {
    match item.span
    case Everything => min <= v <= max && (v - min) % StepOf(item) == 0
    case One(x) =>
      if StepOf(item) == 1 then v == Meaning(x, min)
      else Meaning(x, min) <= v <= max && (v - Meaning(x, min)) % StepOf(item) == 0
    case FromTo(a, b) =>
      Meaning(a, min) <= v <= Meaning(b, min) && (v - Meaning(a, min)) % StepOf(item) == 0
  }

  ghost predicate ListSelects(items: seq<Item>, min: nat, max: nat, v: int) {
    exists item <- items :: StepOf(item) > 0 && Selects(item, min, max, v)
  }

  // ── The characters of what is written ──

  /** No white space and none of the marks that hold a list together. */
  predicate Plain(s: string) {
    forall c <- s :: ('0' <= c <= '9' || IsAlphabetic(c))
  }

  predicate Inked(s: string) {
    forall c <- s :: ('0' <= c <= '9' || IsAlphabetic(c) || c == '*' || c == '-' || c == '/')
  }

  lemma DecimalIsPlain(n: nat)
    ensures Plain(Decimal(n)) && Decimal(n) != []
  {
    var s := Decimal(n);
    forall c <- s ensures '0' <= c <= '9' {
      var i :| 0 <= i < |s| && s[i] == c;
    }
  }

  lemma ValueIsPlain(v: Value, min: nat, max: nat, names: seq<string>)
    requires IsValue(v, min, max, names)
    ensures Plain(WrittenValue(v)) && WrittenValue(v) != []
  {
    if v.Number? {
      DecimalIsPlain(v.n);
    }
  }

  lemma InkedIsTrimmed(s: string)
    requires Inked(s)
    ensures Trim(s) == s
  {
    if s != [] {
      assert s[0] in s && s[|s| - 1] in s;
      assert !IsSpace(s[0]) && !IsSpace(s[|s| - 1]);
    }
  }

  // ── Values ──

  lemma NamesAreDistinct(names: seq<string>, i: nat, j: nat)
    requires names == MONTH_NAMES || names == DOW_NAMES
    requires i < |names| && j < |names| && names[i] == names[j]
    ensures i == j
  {
    assert names[i][0] == names[j][0] && names[i][1] == names[j][1] && names[i][2] == names[j][2];
  }

  lemma {:induction false} PositionIsFirst(names: seq<string>, name: string, i: nat)
    requires i < |names| && names[i] == name && forall j | 0 <= j < i :: names[j] != name
    ensures Position(names, name) == Some(i)
  {
    if i > 0 {
      PositionIsFirst(names[1..], name, i - 1);
    }
  }

  lemma PositionIs(names: seq<string>, i: nat)
    requires (names == MONTH_NAMES || names == DOW_NAMES) && i < |names|
    ensures Position(names, names[i]) == Some(i)
  {
    forall j | 0 <= j < i ensures names[j] != names[i] {
      if names[j] == names[i] {
        NamesAreDistinct(names, j, i);
      }
    }
    PositionIsFirst(names, names[i], i);
  }

  lemma NumberReadsBack(n: nat, min: nat, max: nat, names: seq<string>)
    requires min <= n <= max < 64
    ensures ParseValue(Decimal(n), min, max, names) == Ok(n)
  {
    var s := Decimal(n);
    DecimalIsPlain(n);
    InkedIsTrimmed(s);
    DecimalIsRead(n);
    assert s[0] in s && !IsAlphabetic(s[0]);
  }

  lemma ValueReadsBack(v: Value, min: nat, max: nat, names: seq<string>)
    requires FieldShape(min, max, names) && IsValue(v, min, max, names)
    ensures ParseValue(WrittenValue(v), min, max, names) == Ok(Meaning(v, min))
  {
    ValueIsPlain(v, min, max, names);
    match v
    case Number(n) =>
      NumberReadsBack(n, min, max, names);
    case Named(token, index) =>
      InkedIsTrimmed(token);
      PositionIs(names, index);
      MonthsAreNotWeekdays();
  }

  lemma MonthsAreNotWeekdays()
    ensures MONTH_NAMES != DOW_NAMES
  {
    assert |MONTH_NAMES| == 12 && |DOW_NAMES| == 7;
  }

  // ── Items ──

  /** The progression the parser makes of an item. */
  function EntryFor(item: Item, min: nat, max: nat): Entry {
    match item.span
    case Everything => Entry(min, max, StepOf(item))
    case One(v) => Entry(Meaning(v, min), if StepOf(item) == 1 then Meaning(v, min) else max, StepOf(item))
    case FromTo(a, b) => Entry(Meaning(a, min), Meaning(b, min), StepOf(item))
  }

  lemma SpanIsInked(span: Span, min: nat, max: nat, names: seq<string>)
    requires IsItem(Item(span, None), min, max, names)
    ensures Inked(WrittenSpan(span)) && '/' !in WrittenSpan(span) && WrittenSpan(span) != []
  {
    match span
    case Everything =>
    case One(v) => ValueIsPlain(v, min, max, names);
    case FromTo(a, b) =>
      ValueIsPlain(a, min, max, names);
      ValueIsPlain(b, min, max, names);
  }

  lemma SpanReadsBack(span: Span, step: nat, min: nat, max: nat, names: seq<string>)
    requires FieldShape(min, max, names) && IsItem(Item(span, None), min, max, names) && step >= 1
    ensures ParseRange(WrittenSpan(span), step, min, max, names) == Ok(EntryFor(Item(span, Some(step)), min, max))
  {
    var text := WrittenSpan(span);
    match span
    case Everything =>
    case One(v) =>
      ValueIsPlain(v, min, max, names);
      assert text[0] in text && text != "*";
      SplitOnceMissing(text, '-');
      ValueReadsBack(v, min, max, names);
    case FromTo(a, b) =>
      ValueIsPlain(a, min, max, names);
      assert WrittenValue(a)[0] in WrittenValue(a) && text[0] == WrittenValue(a)[0];
      SplitOnceAt(WrittenValue(a), WrittenValue(b), '-');
      ValueReadsBack(a, min, max, names);
      ValueReadsBack(b, min, max, names);
  }

  lemma InkedWithStep(span: string, n: nat)
    requires Inked(span)
    ensures Inked(span + (['/'] + Decimal(n)))
  {
    DecimalIsPlain(n);
  }

  lemma StepReadsBack(item: Item, min: nat, max: nat, names: seq<string>)
    requires IsItem(item, min, max, names)
    ensures ParseStep(WrittenItem(item)) == Ok((WrittenSpan(item.span), StepOf(item)))
    ensures Inked(WrittenItem(item)) && WrittenItem(item) != []
  {
    SpanIsInked(item.span, min, max, names);
    var span := WrittenSpan(item.span);
    if item.step.Some? {
      var s := Decimal(item.step.value);
      InkedWithStep(span, item.step.value);
      DecimalIsRead(item.step.value);
      SplitOnceAt(span, s, '/');
      assert span + ['/'] + s == WrittenItem(item);
    } else {
      assert span + [] == span;
      SplitOnceMissing(span, '/');
    }
  }

  /** An item reads back as its progression. */
  lemma ItemReadsBack(item: Item, min: nat, max: nat, names: seq<string>)
    requires FieldShape(min, max, names) && IsItem(item, min, max, names)
    ensures EntryOf(WrittenItem(item), min, max, names) == Ok(EntryFor(item, min, max))
    ensures Inked(WrittenItem(item)) && WrittenItem(item) != []
  {
    StepReadsBack(item, min, max, names);
    InkedIsTrimmed(WrittenItem(item));
    SpanReadsBack(item.span, StepOf(item), min, max, names);
  }

  lemma EntryForFits(item: Item, min: nat, max: nat, names: seq<string>)
    requires FieldShape(min, max, names) && IsItem(item, min, max, names)
    ensures EntryFits(EntryFor(item, min, max), min, max) && !Wraps(EntryFor(item, min, max))
  {
    ItemReadsBack(item, min, max, names);
  }

  lemma ProgressionIs(e: Entry, v: int)
    requires e.step > 0
    ensures v in Progression(e) <==> e.lo <= v <= e.hi && (v - e.lo) % e.step == 0
  {
    assert v in Between(e.lo, e.hi) <==> e.lo <= v <= e.hi;
  }

  lemma EntryMeansItem(item: Item, min: nat, max: nat, names: seq<string>, v: int)
    requires FieldShape(min, max, names) && IsItem(item, min, max, names)
    ensures var e := EntryFor(item, min, max);
      e.step < U32_LIMIT && (v in Walked(e) <==> Selects(item, min, max, v))
  {
    EntryForFits(item, min, max, names);
    ProgressionIs(EntryFor(item, min, max), v);
  }

  // ── Lists ──

  lemma NoComma(item: Item, min: nat, max: nat, names: seq<string>)
    requires FieldShape(min, max, names) && IsItem(item, min, max, names)
    ensures ',' !in WrittenItem(item)
  {
    ItemReadsBack(item, min, max, names);
  }

  lemma ListIsSplit(items: seq<Item>, min: nat, max: nat, names: seq<string>)
    requires FieldShape(min, max, names) && IsList(items, min, max, names)
    ensures Split(Written(items), ',') == WrittenItems(items)
  {
    var parts := WrittenItems(items);
    forall i | 0 <= i < |parts| ensures ',' !in parts[i] {
      assert items[i] in items;
      NoComma(items[i], min, max, names);
    }
    SplitUndoesJoined(parts, ',');
  }

  lemma {:induction false} BitsOfList(items: seq<Item>, min: nat, max: nat, names: seq<string>)
    requires FieldShape(min, max, names) && forall item <- items :: IsItem(item, min, max, names)
    ensures FieldBits(WrittenItems(items), min, max, names).Ok?
    ensures forall v :: v in FieldBits(WrittenItems(items), min, max, names).value <==> ListSelects(items, min, max, v)
  {
    if items != [] {
      var item, rest := items[0], items[1..];
      assert items == [item] + rest && item in items;
      assert WrittenItems(items)[1..] == WrittenItems(rest);
      BitsOfList(rest, min, max, names);
      ItemReadsBack(item, min, max, names);
      forall v ensures v in Walked(EntryFor(item, min, max)) <==> Selects(item, min, max, v) {
        EntryMeansItem(item, min, max, names, v);
      }
      forall v ensures ListSelects(items, min, max, v) <==>
        Selects(item, min, max, v) || ListSelects(rest, min, max, v)
      {
      }
    }
  }

  /** The first character of what is written is a star exactly if the first item is one. */
  lemma StarFirst(items: seq<Item>, min: nat, max: nat, names: seq<string>)
    requires FieldShape(min, max, names) && IsList(items, min, max, names)
    ensures Written(items) != [] && (Written(items)[0] == '*' <==> items[0].span.Everything?)
    ensures forall c <- Written(items) :: !IsSpace(c) && c != '@'
  {
    assert items[0] in items;
    ItemReadsBack(items[0], min, max, names);
    FirstCharacter(items[0], min, max, names);
    assert WrittenItems(items)[0] == WrittenItem(items[0]);
    assert Written(items)[0] == WrittenItem(items[0])[0];
    forall i | 0 <= i < |items| ensures Inked(WrittenItems(items)[i]) {
      assert items[i] in items;
      ItemReadsBack(items[i], min, max, names);
    }
    JoinedIsInked(WrittenItems(items));
  }

  lemma FirstCharacter(item: Item, min: nat, max: nat, names: seq<string>)
    requires FieldShape(min, max, names) && IsItem(item, min, max, names)
    ensures WrittenItem(item) != [] && (WrittenItem(item)[0] == '*' <==> item.span.Everything?)
  {
    SpanIsInked(item.span, min, max, names);
    assert WrittenItem(item)[0] == WrittenSpan(item.span)[0];
    if !item.span.Everything? {
      var v := if item.span.One? then item.span.v else item.span.first;
      ValueIsPlain(v, min, max, names);
      assert WrittenSpan(item.span)[0] == WrittenValue(v)[0] && WrittenValue(v)[0] in WrittenValue(v);
    }
  }

  lemma {:induction false} JoinedIsInked(parts: seq<string>)
    requires forall i | 0 <= i < |parts| :: Inked(parts[i])
    ensures forall c <- Joined(parts, ',') :: !IsSpace(c) && c != '@'
  {
    if |parts| > 1 {
      JoinedIsInked(parts[1..]);
    }
  }

  /** A field reads back as what its items select, with the star of its first item. */
  lemma FieldReadsBack(items: seq<Item>, min: nat, max: nat, names: seq<string>)
    requires FieldShape(min, max, names) && IsList(items, min, max, names)
    ensures var r := FieldValue(Written(items), min, max, names);
      && r.Ok? && r.value.1 == items[0].span.Everything?
      && forall v :: v in r.value.0 <==> ListSelects(items, min, max, v)
  {
    ListIsSplit(items, min, max, names);
    BitsOfList(items, min, max, names);
    StarFirst(items, min, max, names);
    FieldIsInRange(Written(items), min, max, names);
  }
}
