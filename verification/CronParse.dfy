/**
 Parsing a cron expression.

 The parser is modelled as a released build runs it: `v += step` on a `u32` wraps
 around. `ParseField` is the engine's pair of loops, proved against `FieldBits`.
 */
module CronParse {
  import opened Common
  import opened Text
  import opened Cron

  datatype FieldError = EmptyEntry | BadStep | ZeroStep | RunsBackwards | NotANumberOrName | OutOfRange | MatchesNothing

  datatype CronError =
    | Empty
    | WrongFieldCount(count: nat)
    | LooksLikeSeconds
    | UnknownShorthand(name: string)
    | RebootUnsupported
    | BadField(field: string, error: FieldError)

  const MONTH_NAMES := ["jan", "feb", "mar", "apr", "may", "jun", "jul", "aug", "sep", "oct", "nov", "dec"]
  const DOW_NAMES := ["sun", "mon", "tue", "wed", "thu", "fri", "sat"]

  // ── One entry of the comma list ──

  function Position(names: seq<string>, name: string): (r: Option<nat>)
    ensures r.Some? ==> r.value < |names| && names[r.value] == name
  {
    if names == [] then None
    else if names[0] == name then Some(0)
    else match Position(names[1..], name)
      case None => None
      case Some(i) => Some(i + 1)
  }

  function ParseValue(token: string, min: nat, max: nat, names: seq<string>): (r: Result<nat, FieldError>)
    ensures r.Ok? && names == [] ==> min <= r.value <= max
  {
    var token := Trim(token);
    var isName := |token| >= 3 && forall c <- token :: IsAlphabetic(c);
    var named := if isName then Position(names, Lower(token[..3])) else None;
    if named.Some? then
      Ok(if names == MONTH_NAMES then named.value + 1 else named.value)
    else match ParseU32(token)
      case None => Err(NotANumberOrName)
      case Some(value) => if value < min || value > max then Err(OutOfRange) else Ok(value)
  }

  /** `lo`, `hi` and `step` of one entry. */
  datatype Entry = Entry(lo: nat, hi: nat, step: nat)

  function ParseStep(part: string): Result<(string, nat), FieldError> {
    match SplitOnce(part, '/')
    case None => Ok((part, 1))
    case Some((r, s)) =>
      match ParseU32(s)
      case None => Err(BadStep)
      case Some(step) => if step == 0 then Err(ZeroStep) else Ok((r, step))
  }

  function ParseRange(range: string, step: nat, min: nat, max: nat, names: seq<string>): Result<Entry, FieldError> {
    if range == "*" then Ok(Entry(min, max, step))
    else match SplitOnce(range, '-')
      case Some((a, b)) =>
        var lo := ParseValue(a, min, max, names);
        if lo.Err? then Err(lo.error) else
        var hi := ParseValue(b, min, max, names);
        if hi.Err? then Err(hi.error) else
        if lo.value > hi.value then Err(RunsBackwards) else Ok(Entry(lo.value, hi.value, step))
      case None =>
        var v := ParseValue(range, min, max, names);
        if v.Err? then Err(v.error)
        else Ok(Entry(v.value, if step > 1 then max else v.value, step))
  }

  function ParseEntry(part: string, min: nat, max: nat, names: seq<string>): Result<Entry, FieldError> {
    var part := Trim(part);
    if part == [] then Err(EmptyEntry) else
    var stepped := ParseStep(part);
    if stepped.Err? then Err(stepped.error) else
    ParseRange(stepped.value.0, stepped.value.1, min, max, names)
  }

  /** The field's bounds are those of a name table it may carry, and fit a 64-bit set. */
  predicate FieldShape(min: nat, max: nat, names: seq<string>) {
    && min <= max < 64
    && (names == [] || (names == MONTH_NAMES && min == 1 && max == 12) || (names == DOW_NAMES && min == 0 && max == 7))
  }

  ghost predicate EntryFits(e: Entry, min: nat, max: nat) {
    min <= e.lo <= e.hi <= max && 1 <= e.step < U32_LIMIT
  }

  lemma ValueFits(token: string, min: nat, max: nat, names: seq<string>)
    requires FieldShape(min, max, names) && ParseValue(token, min, max, names).Ok?
    ensures min <= ParseValue(token, min, max, names).value <= max
  {
    assert |MONTH_NAMES| == 12 && |DOW_NAMES| == 7 && MONTH_NAMES[0] != DOW_NAMES[0];
  }

  lemma EntriesFit(part: string, min: nat, max: nat, names: seq<string>)
    requires FieldShape(min, max, names) && ParseEntry(part, min, max, names).Ok?
    ensures EntryFits(ParseEntry(part, min, max, names).value, min, max)
  {
    var range := ParseStep(Trim(part)).value.0;
    if range != "*" {
      match SplitOnce(range, '-')
      case Some((a, b)) =>
        ValueFits(a, min, max, names);
        ValueFits(b, min, max, names);
      case None =>
        ValueFits(range, min, max, names);
    }
  }

  // ── The progression an entry walks ──

  /** `v += step` on a `u32`. */
  function WrappingAdd(v: nat, step: nat): nat {
    (v + step) % U32_LIMIT
  }

  function Between(lo: nat, hi: nat): set<int> { Range(lo, hi) }

  /** What the entry denotes: every `step`-th value from `lo` up to `hi`. */
  function Progression(e: Entry): set<int>
    requires e.step > 0
  {
    set v | v in Between(e.lo, e.hi) && (v - e.lo) % e.step == 0
  }

  /** What the loop collects when the addition wraps: it walks down from `lo` instead. */
  function Descent(e: Entry): set<int>
    requires e.step < U32_LIMIT
  {
    set v | v in Between(0, e.lo) && (e.lo - v) % (U32_LIMIT - e.step) == 0
  }

  predicate Wraps(e: Entry) {
    e.lo + e.step >= U32_LIMIT
  }

  function Walked(e: Entry): set<int>
    requires 1 <= e.step < U32_LIMIT
  {
    if Wraps(e) then Descent(e) else Progression(e)
  }

  /** The entry yields what it denotes exactly when adding the step to its start does not overflow. */
  lemma WalkedIsProgressionExactly(e: Entry, min: nat, max: nat)
    requires EntryFits(e, min, max)
    ensures Walked(e) == Progression(e) <==> !Wraps(e)
  {
    if Wraps(e) {
      var v := e.lo - (U32_LIMIT - e.step);
      assert v in Between(0, e.lo);
      assert (e.lo - v) % (U32_LIMIT - e.step) == 0;
      assert v in Descent(e);
      assert v < e.lo && v !in Progression(e);
    }
  }

  // ── Residues ──

  lemma AtLeastOnce(m: int, d: int)
    requires m > 0
    ensures d >= 1 ==> m * d >= m
    ensures d <= -1 ==> m * d <= -m
  {
  }

  lemma SameResidue(a: int, b: int, m: int)
    requires m > 0 && a % m == 0 && b % m == 0 && 0 <= b - a < m
    ensures a == b
  {
    var q, r := a / m, b / m;
    assert a == m * q && b == m * r;
    assert b - a == m * (r - q);
    AtLeastOnce(m, r - q);
  }

  lemma MultipleOf(q: int, m: int)
    requires m > 0
    ensures (m * q) % m == 0
  {
    var x := m * q;
    assert x == m * (x / m) + x % m;
    assert x % m == m * (q - x / m);
    AtLeastOnce(m, q - x / m);
  }

  lemma NextMultiple(a: int, m: int)
    requires m > 0 && a % m == 0
    ensures (a + m) % m == 0
  {
    var q := a / m;
    assert a == m * q;
    assert a + m == m * (q + 1);
    MultipleOf(q + 1, m);
  }

  lemma WalkedContainsStart(e: Entry, min: nat, max: nat)
    requires EntryFits(e, min, max)
    ensures e.lo in Walked(e)
  {
    MultipleOf(0, e.step);
    MultipleOf(0, U32_LIMIT - e.step);
    assert e.lo in Between(e.lo, e.hi) && e.lo in Between(0, e.lo);
  }

  /** One turn of the ascending walk collects exactly the next member of the progression. */
  lemma AscendingTurn(e: Entry, v: nat)
    requires e.step > 0 && e.lo <= v <= e.hi && (v - e.lo) % e.step == 0
    ensures (v + e.step - e.lo) % e.step == 0
    ensures (set w | w in Progression(e) && w < v) + {v} == (set w | w in Progression(e) && w < v + e.step)
  {
    NextMultiple(v - e.lo, e.step);
    assert v in Progression(e);
    forall w | w in Progression(e) && v <= w < v + e.step ensures w == v {
      SameResidue(v - e.lo, w - e.lo, e.step);
    }
  }

  /** One turn of the wrapped walk: either a step further down, or the walk is over. */
  lemma DescendingTurn(e: Entry, v: nat)
    requires e.step < U32_LIMIT && v <= e.lo && (e.lo - v) % (U32_LIMIT - e.step) == 0
    ensures var k := U32_LIMIT - e.step;
      if v >= k then
        && (e.lo - (v - k)) % k == 0
        && (set w | w in Descent(e) && w > v) + {v} == (set w | w in Descent(e) && w > v - k)
      else (set w | w in Descent(e) && w > v) + {v} == Descent(e)
  {
    var k := U32_LIMIT - e.step;
    NextMultiple(e.lo - v, k);
    assert v in Descent(e);
    forall w | w in Descent(e) && v - k < w <= v ensures w == v {
      SameResidue(e.lo - v, e.lo - w, k);
    }
  }

  /** Where the inner loop stands: what `r` has collected when the counter is at `v`. */
  ghost predicate WalkState(bits: set<int>, e: Entry, v: nat, r: set<int>)
    requires 1 <= e.step < U32_LIMIT
  {
    && v < U32_LIMIT
    && if !Wraps(e) then
         && e.lo <= v && (v - e.lo) % e.step == 0 && (v == e.lo || e.lo + e.step <= v)
         && r == bits + (set w | w in Progression(e) && w < v)
       else if v <= e.hi then
         && v <= e.lo && (e.lo - v) % (U32_LIMIT - e.step) == 0
         && r == bits + (set w | w in Descent(e) && w > v)
       else r == bits + Descent(e)
  }

  lemma AscendingWalkTurn(bits: set<int>, e: Entry, min: nat, max: nat, v: nat, r: set<int>)
    requires EntryFits(e, min, max) && max < 64 && v <= e.hi && WalkState(bits, e, v, r) && !Wraps(e)
    ensures WrappingAdd(v, e.step) == v + e.step
    ensures WalkState(bits, e, v + e.step, r + {v})
  {
    AscendingTurn(e, v);
    var below := set w | w in Progression(e) && w < v;
    assert r + {v} == bits + (below + {v});
  }

  lemma DescendingWalkTurn(bits: set<int>, e: Entry, min: nat, max: nat, v: nat, r: set<int>)
    requires EntryFits(e, min, max) && max < 64 && v <= e.hi && WalkState(bits, e, v, r) && Wraps(e)
    ensures WrappingAdd(v, e.step) < v || WrappingAdd(v, e.step) > e.hi
    ensures WalkState(bits, e, WrappingAdd(v, e.step), r + {v})
  {
    var k := U32_LIMIT - e.step;
    assert WrappingAdd(v, e.step) == if v >= k then v - k else v + e.step;
    DescendingTurn(e, v);
    var above := set w | w in Descent(e) && w > v;
    assert r + {v} == bits + (above + {v});
  }

  lemma WalkTurn(bits: set<int>, e: Entry, min: nat, max: nat, v: nat, r: set<int>)
    requires EntryFits(e, min, max) && max < 64 && v <= e.hi && WalkState(bits, e, v, r)
    ensures WalkState(bits, e, WrappingAdd(v, e.step), r + {v})
    ensures if Wraps(e) then WrappingAdd(v, e.step) < v || WrappingAdd(v, e.step) > e.hi else v < WrappingAdd(v, e.step)
  {
    if Wraps(e) {
      DescendingWalkTurn(bits, e, min, max, v, r);
    } else {
      AscendingWalkTurn(bits, e, min, max, v, r);
    }
  }

  lemma WalkStart(bits: set<int>, e: Entry, min: nat, max: nat)
    requires EntryFits(e, min, max) && max < 64
    ensures WalkState(bits, e, e.lo, bits)
  {
    assert (set w | w in Progression(e) && w < e.lo) == {};
    assert (set w | w in Descent(e) && w > e.lo) == {};
  }

  lemma WalkDone(bits: set<int>, e: Entry, min: nat, max: nat, v: nat, r: set<int>)
    requires EntryFits(e, min, max) && max < 64 && v > e.hi && WalkState(bits, e, v, r)
    ensures r == bits + Walked(e)
  {
    assert !Wraps(e) ==> (set w | w in Progression(e) && w < v) == Progression(e);
  }

  /** The inner loop. */
  method Walk(bits: set<int>, e: Entry, ghost min: nat, ghost max: nat) returns (r: set<int>)
    requires EntryFits(e, min, max) && max < 64
    ensures r == bits + Walked(e)
  {
    r := bits;
    var v: nat := e.lo;
    WalkStart(bits, e, min, max);
    while v <= e.hi
      invariant WalkState(bits, e, v, r)
      decreases if Wraps(e) then (if v <= e.hi then v + 1 else 0) else e.hi - v
    {
      WalkTurn(bits, e, min, max, v, r);
      r := r + {v};
      v := WrappingAdd(v, e.step);
    }
    WalkDone(bits, e, min, max, v, r);
  }

  // ── One field ──

  function EntryOf(part: string, min: nat, max: nat, names: seq<string>): (r: Result<Entry, FieldError>)
    requires FieldShape(min, max, names)
    ensures r.Ok? ==> EntryFits(r.value, min, max)
  {
    var r := ParseEntry(part, min, max, names);
    if r.Ok? then EntriesFit(part, min, max, names); r else r
  }

  /** The bits of a comma list, or the error of its first bad entry. */
  function FieldBits(parts: seq<string>, min: nat, max: nat, names: seq<string>): Result<set<int>, FieldError>
    requires FieldShape(min, max, names)
  {
    if parts == [] then Ok({}) else
    var entry := EntryOf(parts[0], min, max, names);
    if entry.Err? then Err(entry.error) else
    Merge(Walked(entry.value), FieldBits(parts[1..], min, max, names))
  }

  function Merge(bits: set<int>, r: Result<set<int>, FieldError>): Result<set<int>, FieldError> {
    if r.Err? then r else Ok(bits + r.value)
  }

  /** `parse_field` on values: the bit set, and whether the text begins with a star. */
  function FieldValue(spec: string, min: nat, max: nat, names: seq<string>): Result<(set<int>, bool), FieldError>
    requires FieldShape(min, max, names)
  {
    var bits := FieldBits(Split(spec, ','), min, max, names);
    if bits.Err? then Err(bits.error)
    else if bits.value == {} then Err(MatchesNothing)
    else Ok((bits.value, spec != [] && spec[0] == '*'))
  }

  /** Where the outer loop stands: `bits` holds the entries before the `i`-th. */
  ghost predicate FieldState(parts: seq<string>, i: nat, bits: set<int>, min: nat, max: nat, names: seq<string>)
    requires FieldShape(min, max, names) && i <= |parts|
  {
    FieldBits(parts, min, max, names) == Merge(bits, FieldBits(parts[i..], min, max, names))
  }

  lemma FieldStart(parts: seq<string>, min: nat, max: nat, names: seq<string>)
    requires FieldShape(min, max, names)
    ensures FieldState(parts, 0, {}, min, max, names)
  {
    assert parts[0..] == parts;
    var all := FieldBits(parts, min, max, names);
    assert all.Ok? ==> {} + all.value == all.value;
  }

  lemma FieldTurn(parts: seq<string>, i: nat, bits: set<int>, min: nat, max: nat, names: seq<string>)
    requires FieldShape(min, max, names) && i < |parts| && FieldState(parts, i, bits, min, max, names)
    ensures var entry := EntryOf(parts[i], min, max, names);
      if entry.Err? then FieldBits(parts, min, max, names) == Err(entry.error)
      else FieldState(parts, i + 1, bits + Walked(entry.value), min, max, names)
  {
    var entry := EntryOf(parts[i], min, max, names);
    assert parts[i..][1..] == parts[i + 1..];
    var rest := FieldBits(parts[i + 1..], min, max, names);
    if entry.Ok? && rest.Ok? {
      assert bits + (Walked(entry.value) + rest.value) == bits + Walked(entry.value) + rest.value;
    }
  }

  lemma FieldDone(parts: seq<string>, bits: set<int>, min: nat, max: nat, names: seq<string>)
    requires FieldShape(min, max, names) && FieldState(parts, |parts|, bits, min, max, names)
    ensures FieldBits(parts, min, max, names) == Ok(bits)
  {
    assert bits + {} == bits;
  }

  method ParseField(spec: string, min: nat, max: nat, names: seq<string>)
    returns (r: Result<(set<int>, bool), FieldError>)
    requires FieldShape(min, max, names)
    ensures r == FieldValue(spec, min, max, names)
  {
    var isStar := spec != [] && spec[0] == '*';
    var bits: set<int> := {};
    var parts := Split(spec, ',');
    var i := 0;
    FieldStart(parts, min, max, names);
    while i < |parts|
      invariant 0 <= i <= |parts|
      invariant FieldState(parts, i, bits, min, max, names)
    {
      FieldTurn(parts, i, bits, min, max, names);
      var entry := EntryOf(parts[i], min, max, names);
      if entry.Err? {
        return Err(entry.error);
      }
      bits := Walk(bits, entry.value, min, max);
      i := i + 1;
    }
    FieldDone(parts, bits, min, max, names);
    if bits == {} {
      return Err(MatchesNothing);
    }
    r := Ok((bits, isStar));
  }

  // ── What a field means ──

  /** The value is a member of the progression of one of the entries. */
  ghost predicate Denoted(parts: seq<string>, min: nat, max: nat, names: seq<string>, v: int)
    requires FieldShape(min, max, names)
  {
    exists part <- parts :: EntryOf(part, min, max, names).Ok? && v in Progression(EntryOf(part, min, max, names).value)
  }

  /** The walk of one of the entries collects the value. */
  ghost predicate Collected(parts: seq<string>, min: nat, max: nat, names: seq<string>, v: int)
    requires FieldShape(min, max, names)
  {
    exists part <- parts :: EntryOf(part, min, max, names).Ok? && v in Walked(EntryOf(part, min, max, names).value)
  }

  lemma {:induction false} BitsAreCollected(parts: seq<string>, min: nat, max: nat, names: seq<string>)
    requires FieldShape(min, max, names) && FieldBits(parts, min, max, names).Ok?
    ensures forall v :: v in FieldBits(parts, min, max, names).value <==> Collected(parts, min, max, names, v)
    ensures forall part <- parts :: EntryOf(part, min, max, names).Ok?
  {
    if parts != [] {
      var entry := EntryOf(parts[0], min, max, names).value;
      var rest := parts[1..];
      BitsAreCollected(rest, min, max, names);
      assert parts == [parts[0]] + rest;
      forall v ensures Collected(parts, min, max, names, v) <==>
        v in Walked(entry) || Collected(rest, min, max, names, v)
      {
        if v in Walked(entry) {
          assert parts[0] in parts;
        }
      }
    }
  }

  /** Wrapped or not, a walk collects what its entry denotes; wrapped, the entry denotes its start alone. */
  lemma ProgressionIsWalked(e: Entry, min: nat, max: nat)
    requires EntryFits(e, min, max) && max < 64
    ensures Progression(e) <= Walked(e)
  {
    if Wraps(e) {
      WalkedContainsStart(e, min, max);
      forall v | v in Progression(e) ensures v == e.lo {
        MultipleOf(0, e.step);
        SameResidue(0, v - e.lo, e.step);
      }
    }
  }

  /** What each wrapping entry collects on its way down is denoted by some entry. */
  ghost predicate DescentsAreDenoted(parts: seq<string>, min: nat, max: nat, names: seq<string>)
    requires FieldShape(min, max, names)
  {
    forall part <- parts | EntryOf(part, min, max, names).Ok? && Wraps(EntryOf(part, min, max, names).value) ::
      forall v <- Descent(EntryOf(part, min, max, names).value) :: Denoted(parts, min, max, names, v)
  }

  lemma CollectedIsDenotedExactly(parts: seq<string>, min: nat, max: nat, names: seq<string>)
    requires FieldShape(min, max, names)
    ensures forall v :: Denoted(parts, min, max, names, v) ==> Collected(parts, min, max, names, v)
    ensures (forall v :: Collected(parts, min, max, names, v) ==> Denoted(parts, min, max, names, v)) <==>
      DescentsAreDenoted(parts, min, max, names)
  {
    forall part <- parts | EntryOf(part, min, max, names).Ok?
      ensures Progression(EntryOf(part, min, max, names).value) <= Walked(EntryOf(part, min, max, names).value)
    {
      ProgressionIsWalked(EntryOf(part, min, max, names).value, min, max);
    }
    if forall v :: Collected(parts, min, max, names, v) ==> Denoted(parts, min, max, names, v) {
      forall part <- parts, v | EntryOf(part, min, max, names).Ok? && Wraps(EntryOf(part, min, max, names).value)
        && v in Descent(EntryOf(part, min, max, names).value)
        ensures Denoted(parts, min, max, names, v)
      {
        assert Collected(parts, min, max, names, v);
      }
    }
  }

  /**
   A field parses to the union of the progressions its comma list denotes exactly if what
   its wrapping entries collect is denoted as well; without a wrapping entry that is so.
   It is never empty: the "matches nothing" error of the engine cannot arise.
   */
  lemma FieldMeansItsProgressions(spec: string, min: nat, max: nat, names: seq<string>)
    requires FieldShape(min, max, names) && FieldBits(Split(spec, ','), min, max, names).Ok?
    ensures FieldValue(spec, min, max, names).Ok?
    ensures var parts := Split(spec, ',');
      (forall v :: v in FieldValue(spec, min, max, names).value.0 <==> Denoted(parts, min, max, names, v)) <==>
      DescentsAreDenoted(parts, min, max, names)
  {
    FieldIsInRange(spec, min, max, names);
    BitsAreCollected(Split(spec, ','), min, max, names);
    CollectedIsDenotedExactly(Split(spec, ','), min, max, names);
  }

  // ── The bounds of a field ──

  /** A value of the range is in the field, and none above the range or below 0. */
  ghost predicate Holds(field: set<int>, min: nat, max: nat) {
    (exists v <- field :: min <= v <= max) && forall v <- field :: 0 <= v <= max
  }

  /** A wrapping entry walks down to the rest of its start, in steps of what its step lacks to 2^32. */
  predicate StaysAbove(e: Entry, min: nat)
    requires e.step < U32_LIMIT
  {
    Wraps(e) ==> min <= e.lo % (U32_LIMIT - e.step)
  }

  lemma WalkedBounds(e: Entry, min: nat, max: nat)
    requires EntryFits(e, min, max)
    ensures e.lo in Walked(e) && forall v <- Walked(e) :: 0 <= v <= max
    ensures (forall v <- Walked(e) :: min <= v) <==> StaysAbove(e, min)
  {
    WalkedContainsStart(e, min, max);
    if Wraps(e) {
      var k := U32_LIMIT - e.step;
      var least := e.lo % k;
      assert e.lo - least == k * (e.lo / k);
      MultipleOf(e.lo / k, k);
      assert least in Between(0, e.lo) && least in Descent(e);
      forall v | v in Descent(e) ensures least <= v {
        if v < least {
          SameResidue(e.lo - least, e.lo - v, k);
        }
      }
    }
  }

  /** No entry of the list walks down past the field's least value. */
  predicate ListStaysAbove(parts: seq<string>, min: nat, max: nat, names: seq<string>)
    requires FieldShape(min, max, names)
  {
    forall part <- parts | EntryOf(part, min, max, names).Ok? :: StaysAbove(EntryOf(part, min, max, names).value, min)
  }

  /**
   A field that parses holds a value of its own range and none above it; none below it
   exactly if no entry walks down past it.
   */
  lemma FieldIsInRange(spec: string, min: nat, max: nat, names: seq<string>)
    requires FieldShape(min, max, names) && FieldBits(Split(spec, ','), min, max, names).Ok?
    ensures FieldValue(spec, min, max, names).Ok?
    ensures Holds(FieldValue(spec, min, max, names).value.0, min, max)
    ensures (forall v <- FieldValue(spec, min, max, names).value.0 :: min <= v) <==>
      ListStaysAbove(Split(spec, ','), min, max, names)
  {
    var parts := Split(spec, ',');
    BitsAreCollected(parts, min, max, names);
    forall part <- parts ensures var e := EntryOf(part, min, max, names).value;
      && e.lo in Walked(e) && (forall v <- Walked(e) :: 0 <= v <= max)
      && ((forall v <- Walked(e) :: min <= v) <==> StaysAbove(e, min))
    {
      WalkedBounds(EntryOf(part, min, max, names).value, min, max);
    }
    var first := EntryOf(parts[0], min, max, names).value;
    assert Collected(parts, min, max, names, first.lo);
    if forall v <- FieldBits(parts, min, max, names).value :: min <= v {
      forall part <- parts ensures StaysAbove(EntryOf(part, min, max, names).value, min) {
        forall v | v in Walked(EntryOf(part, min, max, names).value) ensures min <= v {
          assert Collected(parts, min, max, names, v);
        }
      }
    }
  }

  /** `5/4294967295` in the day-of-month field collects 5, 4, 3, 2, 1 and 0; it denotes 5 alone. */
  lemma WrappedEntry()
    ensures var e := Entry(5, 31, 4294967295);
      EntryFits(e, 1, 31) && Walked(e) == {0, 1, 2, 3, 4, 5} && Progression(e) == {5}
  {
    var e := Entry(5, 31, 4294967295);
    forall v ensures v in Walked(e) <==> v in {0, 1, 2, 3, 4, 5} {
      if 0 <= v <= 5 {
        assert v in Between(0, 5) && (5 - v) % 1 == 0;
      }
    }
    forall v ensures v in Progression(e) <==> v == 5 {
      if v in Between(5, 31) {
        assert (v - 5) % 4294967295 == v - 5;
      }
    }
  }

  // ── The whole expression ──

  function Fail<T>(field: string, e: FieldError): Result<T, CronError> {
    Err(BadField(field, e))
  }

  /** Both 0 and 7 mean Sunday. */
  function FoldSunday(dow: set<int>): set<int> {
    if 7 in dow then (dow - {7}) + {0} else dow
  }

  function ParseFieldsValue(text: string): Result<CronExpression, CronError> {
    var fields := SplitWhitespace(text);
    if |fields| == 6 || |fields| == 7 then Err(LooksLikeSeconds)
    else if |fields| != 5 then Err(WrongFieldCount(|fields|))
    else
      var minute := FieldValue(fields[0], 0, 59, []);
      if minute.Err? then Fail("minute", minute.error) else
      var hour := FieldValue(fields[1], 0, 23, []);
      if hour.Err? then Fail("hour", hour.error) else
      var dom := FieldValue(fields[2], 1, 31, []);
      if dom.Err? then Fail("day-of-month", dom.error) else
      var month := FieldValue(fields[3], 1, 12, MONTH_NAMES);
      if month.Err? then Fail("month", month.error) else
      var dow := FieldValue(fields[4], 0, 7, DOW_NAMES);
      if dow.Err? then Fail("day-of-week", dow.error) else
      Ok(CronExpression(minute.value.0, hour.value.0, dom.value.0, month.value.0, FoldSunday(dow.value.0),
        dom.value.1, dow.value.1, text))
  }

  function ExpandShorthand(name: string): Result<string, CronError> {
    var n := Lower(Trim(name));
    if n == "yearly" || n == "annually" then Ok("0 0 1 1 *")
    else if n == "monthly" then Ok("0 0 1 * *")
    else if n == "weekly" then Ok("0 0 * * 0")
    else if n == "daily" || n == "midnight" then Ok("0 0 * * *")
    else if n == "hourly" then Ok("0 * * * *")
    else if n == "reboot" then Err(RebootUnsupported)
    else Err(UnknownShorthand("@" + n))
  }

  function FromStr(s: string): Result<CronExpression, CronError> {
    var trimmed := Trim(s);
    if trimmed == [] then Err(Empty)
    else if trimmed[0] == '@' then
      var expanded := ExpandShorthand(trimmed[1..]);
      if expanded.Err? then Err(expanded.error) else
      var parsed := ParseFieldsValue(expanded.value);
      if parsed.Err? then parsed else Ok(parsed.value.(source := trimmed))
    else ParseFieldsValue(trimmed)
  }

  method ParseFields(text: string) returns (r: Result<CronExpression, CronError>)
    ensures r == ParseFieldsValue(text)
  {
    var fields := SplitWhitespace(text);
    if |fields| == 6 || |fields| == 7 {
      return Err(LooksLikeSeconds);
    }
    if |fields| != 5 {
      return Err(WrongFieldCount(|fields|));
    }
    var minute := ParseField(fields[0], 0, 59, []);
    if minute.Err? { return Fail("minute", minute.error); }
    var hour := ParseField(fields[1], 0, 23, []);
    if hour.Err? { return Fail("hour", hour.error); }
    var dom := ParseField(fields[2], 1, 31, []);
    if dom.Err? { return Fail("day-of-month", dom.error); }
    var month := ParseField(fields[3], 1, 12, MONTH_NAMES);
    if month.Err? { return Fail("month", month.error); }
    var dow := ParseField(fields[4], 0, 7, DOW_NAMES);
    if dow.Err? { return Fail("day-of-week", dow.error); }
    r := Ok(CronExpression(minute.value.0, hour.value.0, dom.value.0, month.value.0, FoldSunday(dow.value.0),
      dom.value.1, dow.value.1, text));
  }

  method Parse(s: string) returns (r: Result<CronExpression, CronError>)
    ensures r == FromStr(s)
  {
    var trimmed := Trim(s);
    if trimmed == [] {
      return Err(Empty);
    }
    if trimmed[0] == '@' {
      var expanded := ExpandShorthand(trimmed[1..]);
      if expanded.Err? {
        return Err(expanded.error);
      }
      r := ParseFields(expanded.value);
      if r.Ok? {
        r := Ok(r.value.(source := trimmed));
      }
    } else {
      r := ParseFields(trimmed);
    }
  }

  /** What parsing guarantees of the five fields. */
  ghost predicate WellFormed(e: CronExpression) {
    && Parsed(e)
    && Holds(e.dom, 1, 31) && Holds(e.month, 1, 12) && Holds(e.dow, 0, 6)
  }

  lemma ParsedFieldsAreWellFormed(text: string)
    ensures ParseFieldsValue(text).Ok? ==> WellFormed(ParseFieldsValue(text).value)
  {
    if ParseFieldsValue(text).Ok? {
      var fields := SplitWhitespace(text);
      FieldIsInRange(fields[0], 0, 59, []);
      FieldIsInRange(fields[1], 0, 23, []);
      FieldIsInRange(fields[2], 1, 31, []);
      FieldIsInRange(fields[3], 1, 12, MONTH_NAMES);
      FieldIsInRange(fields[4], 0, 7, DOW_NAMES);
      SundayFolds(FieldValue(fields[4], 0, 7, DOW_NAMES).value.0);
    }
  }

  /** The day of the month and the month hold a 0, which no date has, exactly if an entry walks down to it. */
  lemma DatesStayInRangeExactly(text: string)
    requires ParseFieldsValue(text).Ok?
    ensures var e, fields := ParseFieldsValue(text).value, SplitWhitespace(text);
      && ((forall v <- e.dom :: 1 <= v <= 31) <==> ListStaysAbove(Split(fields[2], ','), 1, 31, []))
      && ((forall v <- e.month :: 1 <= v <= 12) <==> ListStaysAbove(Split(fields[3], ','), 1, 12, MONTH_NAMES))
  {
    var fields := SplitWhitespace(text);
    FieldIsInRange(fields[2], 1, 31, []);
    FieldIsInRange(fields[3], 1, 12, MONTH_NAMES);
  }

  lemma SundayFolds(dow: set<int>)
    requires Holds(dow, 0, 7)
    ensures Holds(FoldSunday(dow), 0, 6)
  {
    var v :| v in dow;
    assert (if 7 in dow then 0 else v) in FoldSunday(dow);
  }

  /** Every expression that parses satisfies what the scan assumes of it, and Sunday is folded to 0. */
  lemma ParsedIsWellFormed(s: string)
    requires FromStr(s).Ok?
    ensures WellFormed(FromStr(s).value)
  {
    var trimmed := Trim(s);
    if trimmed[0] == '@' {
      var expanded := ExpandShorthand(trimmed[1..]);
      ParsedFieldsAreWellFormed(expanded.value);
    } else {
      ParsedFieldsAreWellFormed(trimmed);
    }
  }

  /** The stored text of a parsed expression parses back to that expression. */
  lemma StoredTextParsesBack(s: string)
    requires FromStr(s).Ok?
    ensures FromStr(FromStr(s).value.source) == FromStr(s)
  {
    TrimIsIdempotent(s);
  }
}
