/** Completing a saved table selection against the tables its server has. */
module Selections {
  import opened Common
  import opened Text

  datatype TableMode = SchemaAndData | SchemaOnly | Exclude

  datatype TableSelection = TableSelection(name: string, mode: TableMode, whereFilter: Option<string>)

  function WithData(name: string): TableSelection { TableSelection(name, SchemaAndData, None) }
  function OnlySchema(name: string): TableSelection { TableSelection(name, SchemaOnly, None) }

  const PUBLIC := "public."

  /** A saved bare name means the table of that name in the `public` schema. */
  predicate SameTable(saved: string, available: string) {
    saved == available || PUBLIC + saved == available
  }

  predicate FirstMatch(selections: seq<TableSelection>, name: string, i: int) {
    && 0 <= i < |selections| && SameTable(selections[i].name, name)
    && forall j | 0 <= j < i :: !SameTable(selections[j].name, name)
  }

  lemma FirstMatchShifts(selections: seq<TableSelection>, name: string)
    requires selections != [] && !SameTable(selections[0].name, name)
    ensures forall i :: FirstMatch(selections[1..], name, i) ==> FirstMatch(selections, name, i + 1)
  {
    forall i | FirstMatch(selections[1..], name, i) ensures FirstMatch(selections, name, i + 1) {
      forall j | 0 <= j < i + 1 ensures !SameTable(selections[j].name, name) {
        if j > 0 { assert selections[j] == selections[1..][j - 1]; }
      }
    }
  }

  /** The first saved entry naming a table, if there is one. */
  function Saved(selections: seq<TableSelection>, name: string): (r: Option<TableSelection>)
    ensures r.Some? ==> exists i :: FirstMatch(selections, name, i) && selections[i] == r.value
    ensures r.None? ==> forall j | 0 <= j < |selections| :: !SameTable(selections[j].name, name)
  {
    if selections == [] then None
    else if SameTable(selections[0].name, name) then Some(selections[0])
    else
      var r := Saved(selections[1..], name);
      assert forall i :: FirstMatch(selections[1..], name, i) ==> FirstMatch(selections, name, i + 1) by {
        FirstMatchShifts(selections, name);
      }
      r
  }

  /** A table no entry names is taken with its data. */
  function Governing(selections: seq<TableSelection>, name: string): TableSelection {
    match Saved(selections, name)
    case Some(s) => s
    case None => WithData(name)
  }

  function Expand(selections: seq<TableSelection>, available: seq<string>): (r: seq<TableSelection>)
    ensures |r| == |available| && forall i | 0 <= i < |available| :: r[i] == Governing(selections, available[i])
  {
    if available == [] then [] else [Governing(selections, available[0])] + Expand(selections, available[1..])
  }

  /** Position of the first saved entry naming a table is what decides which entry governs it. */
  lemma {:induction false} SavedIsFirst(selections: seq<TableSelection>, name: string, i: nat)
    requires FirstMatch(selections, name, i)
    ensures Saved(selections, name) == Some(selections[i])
  {
    if i > 0 {
      assert forall j | 0 <= j < i - 1 :: selections[1..][j] == selections[j + 1];
      SavedIsFirst(selections[1..], name, i - 1);
    }
  }

  lemma GoverningNames(selections: seq<TableSelection>, name: string)
    ensures SameTable(Governing(selections, name).name, name)
  {
  }

  /** The smallest position of an expansion that names the table at `j`. */
  lemma {:induction false} FirstNaming(selections: seq<TableSelection>, available: seq<string>, j: nat) returns (k: nat)
    requires j < |available|
    ensures k <= j && SameTable(Governing(selections, available[k]).name, available[j])
    ensures forall i | 0 <= i < k :: !SameTable(Governing(selections, available[i]).name, available[j])
    ensures Governing(Expand(selections, available), available[j]) == Governing(selections, available[k])
  {
    GoverningNames(selections, available[j]);
    k := 0;
    while !SameTable(Governing(selections, available[k]).name, available[j])
      invariant k <= j
      invariant forall i | 0 <= i < k :: !SameTable(Governing(selections, available[i]).name, available[j])
      decreases j - k
    {
      k := k + 1;
    }
    SavedIsFirst(Expand(selections, available), available[j], k);
  }

  /** The saved entry at `i` is the first that names the table, by its own name or by its bare name in `public`. */
  predicate GovernsFirst(selections: seq<TableSelection>, table: string, i: nat) {
    && i < |selections| && (selections[i].name == table || "public." + selections[i].name == table)
    && forall j | 0 <= j < i :: selections[j].name != table && "public." + selections[j].name != table
  }

  /**
   A completed list has one entry for each table there is, in order: the first saved entry
   that names it, as it was saved; or, if none does, the table with its data and no filter.
   */
  lemma ExpandMeans(selections: seq<TableSelection>, available: seq<string>, j: nat)
    requires j < |available|
    ensures |Expand(selections, available)| == |available|
    ensures forall i: nat | GovernsFirst(selections, available[j], i) ::
      Expand(selections, available)[j] == selections[i]
    ensures (forall i: nat :: !GovernsFirst(selections, available[j], i)) ==>
      Expand(selections, available)[j] == TableSelection(available[j], SchemaAndData, None)
  {
    var n := available[j];
    forall i: nat | GovernsFirst(selections, n, i) ensures Expand(selections, available)[j] == selections[i] {
      SavedIsFirst(selections, n, i);
    }
    var saved := Saved(selections, n);
    if saved.Some? {
      var i :| FirstMatch(selections, n, i) && selections[i] == saved.value;
      assert GovernsFirst(selections, n, i);
    }
  }

  // ── Completing a completed list ──

  /** An earlier table whose bare name, or whose qualified name, a later one can be taken for. */
  predicate Shadows(available: seq<string>, k: nat, j: nat)
    requires k < |available| && j < |available|
  {
    && k < j && available[j] !in available[..k]
    && (|| available[j] == PUBLIC + available[k]
        || (available[k] == PUBLIC + available[j] && PUBLIC <= available[j]))
  }

  /** Completing twice is completing once, for every saved list, exactly when no table shadows a later one. */
  lemma ExpandIsIdempotentExactly(available: seq<string>)
    ensures (forall selections :: Expand(Expand(selections, available), available) == Expand(selections, available))
      <==> (forall k, j | 0 <= k < j < |available| :: !Shadows(available, k, j))
  {
    if forall k, j | 0 <= k < j < |available| :: !Shadows(available, k, j) {
      forall selections ensures Expand(Expand(selections, available), available) == Expand(selections, available) {
        IdempotentWithoutShadows(selections, available);
      }
    } else {
      var k, j :| 0 <= k < j < |available| && Shadows(available, k, j);
      ShadowBreaks(available, k, j);
    }
  }

  lemma IdempotentWithoutShadows(selections: seq<TableSelection>, available: seq<string>)
    requires forall k, j | 0 <= k < j < |available| :: !Shadows(available, k, j)
    ensures Expand(Expand(selections, available), available) == Expand(selections, available)
  {
    forall j | 0 <= j < |available|
      ensures Governing(Expand(selections, available), available[j]) == Governing(selections, available[j])
    {
      var k := FirstNaming(selections, available, j);
      if available[k] != available[j] {
        assert k < j && !Shadows(available, k, j);
        NotTakenFor(selections, available, k, j);
      }
    }
  }

  lemma NotTakenFor(selections: seq<TableSelection>, available: seq<string>, k: nat, j: nat)
    requires k < j < |available| && available[k] != available[j] && !Shadows(available, k, j)
    requires SameTable(Governing(selections, available[k]).name, available[j])
    requires forall i | 0 <= i < k :: !SameTable(Governing(selections, available[i]).name, available[j])
    ensures Governing(selections, available[k]) == Governing(selections, available[j])
  {
    var n, e := available[j], Governing(selections, available[k]);
    GoverningNames(selections, n);
    assert n !in available[..k];
    GoverningNames(selections, available[k]);
    assert e.name != available[k];
    assert available[k] == PUBLIC + e.name;
    assert e.name == n;
    var i :| FirstMatch(selections, available[k], i) && selections[i] == e;
    assert forall h | 0 <= h < i :: selections[h].name != n;
    assert forall m: string :: PUBLIC + m == n ==> PUBLIC <= n;
    SavedIsFirst(selections, n, i);
  }

  /** Saved lists that a shadowed table breaks. */
  lemma ShadowBreaks(available: seq<string>, k: nat, j: nat)
    requires k < j < |available| && Shadows(available, k, j)
    ensures exists selections :: Expand(Expand(selections, available), available) != Expand(selections, available)
  {
    var n := available[j];
    if n == PUBLIC + available[k] {
      assert |n| > |available[k]|;
      ShadowedName(available, k, n);
      BareShadowBreaks(available, k, j);
    } else if i :| 0 <= i < k && SameTable(available[i], n) {
      assert available[i] in available[..k] && available[..i] <= available[..k];
      ShadowedName(available, i, n);
      BareShadowBreaks(available, i, j);
    } else {
      SameTableNames(n, available[k]);
      QualifiedShadow(available, k, j);
    }
  }

  lemma QualifiedShadow(available: seq<string>, k: nat, j: nat)
    requires k < j < |available| && available[j] !in available[..k] && PUBLIC <= available[j]
    requires SameTable(available[j], available[k]) && available[j] != available[k]
    requires !SameTable(available[k], available[j]) && forall i | 0 <= i < k :: !SameTable(available[i], available[j])
    ensures exists selections :: Expand(Expand(selections, available), available) != Expand(selections, available)
  {
    var n := available[j];
    var bare := BareOf(n);
    ShadowedName(available, k, n);
    assert bare !in available[..k + 1];
    NotTheBareName(bare, n, available[k]);
    QualifiedShadowBreaks(available, k, j, bare);
  }

  lemma BareOf(n: string) returns (bare: string)
    requires PUBLIC <= n
    ensures SameTable(bare, n) && bare != n
  {
    bare := n[|PUBLIC|..];
    assert n == PUBLIC + bare;
  }

  lemma NotTheBareName(bare: string, n: string, name: string)
    requires SameTable(bare, n) && SameTable(n, name) && bare != n && name != n
    ensures !SameTable(bare, name)
  {
    SameTableNames(bare, n);
    SameTableNames(n, name);
    assert bare != name;
    assert PUBLIC + bare == n;
  }

  lemma ShadowedName(available: seq<string>, i: nat, n: string)
    requires i < |available| && n !in available[..i] && n != available[i]
    ensures n !in available[..i + 1]
  {
    assert available[..i + 1] == available[..i] + [available[i]];
  }

  /** A name in the expansion that differs from what is expanded there. */
  lemma NotFixed(selections: seq<TableSelection>, available: seq<string>, j: nat)
    requires j < |available|
    requires Governing(Expand(selections, available), available[j]) != Governing(selections, available[j])
    ensures Expand(Expand(selections, available), available) != Expand(selections, available)
  {
    assert Expand(Expand(selections, available), available)[j] != Expand(selections, available)[j];
  }

  lemma SameTableNames(saved: string, name: string)
    requires SameTable(saved, name)
    ensures saved == name || |saved| < |name|
    ensures forall other | SameTable(other, name) && other != name && saved != name :: other == saved
  {
    forall other | SameTable(other, name) && other != name && saved != name ensures other == saved {
      assert PUBLIC + other == PUBLIC + saved;
      assert other == (PUBLIC + other)[|PUBLIC|..] == saved;
    }
  }

  /** `public.t` after `t`, with nothing saved: the completed entry for `t` is taken for both. */
  lemma BareShadowBreaks(available: seq<string>, i: nat, j: nat)
    requires i < j < |available| && SameTable(available[i], available[j]) && available[j] !in available[..i + 1]
    ensures Expand(Expand([], available), available) != Expand([], available)
  {
    var f := FirstNaming([], available, j);
    assert Governing([], available[i]) == WithData(available[i]);
    assert f <= i;
    assert available[f] in available[..i + 1];
    assert Governing([], available[f]) == WithData(available[f]);
    NotFixed([], available, j);
  }

  /** `public.public.t` before `public.t`, with `t` and `public.t` saved in that order. */
  lemma QualifiedShadowBreaks(available: seq<string>, k: nat, j: nat, bare: string)
    requires k < j < |available| && available[j] !in available[..k + 1] && bare !in available[..k + 1]
    requires SameTable(bare, available[j]) && SameTable(available[j], available[k])
    requires bare != available[j] && !SameTable(bare, available[k])
    ensures var selections := [OnlySchema(bare), WithData(available[j])];
      Expand(Expand(selections, available), available) != Expand(selections, available)
  {
    var n := available[j];
    var selections := [OnlySchema(bare), WithData(n)];
    SavedIsFirst(selections, n, 0);
    SavedIsFirst(selections, available[k], 1);
    var f := FirstNaming(selections, available, j);
    assert f <= k;
    assert available[f] in available[..k + 1];
    GoverningIsOneOf(bare, n, available[f]);
    SameTableNames(bare, n);
    NotFixed(selections, available, j);
  }

  lemma GoverningIsOneOf(bare: string, n: string, name: string)
    requires bare != n && name != bare && name != n && SameTable(bare, n)
    ensures Governing([OnlySchema(bare), WithData(n)], name) != OnlySchema(bare)
  {
    var selections := [OnlySchema(bare), WithData(n)];
    assert SameTable(bare, name) ==> PUBLIC + bare == name;
    var s := Saved(selections, name);
    if s.Some? {
      var i :| FirstMatch(selections, name, i) && selections[i] == s.value;
    }
  }

  /** In particular when no table is named `public.` and the name of another. */
  lemma ExpandIsIdempotent(selections: seq<TableSelection>, available: seq<string>)
    requires forall k, j | 0 <= k < |available| && 0 <= j < |available| :: available[j] != PUBLIC + available[k]
    ensures Expand(Expand(selections, available), available) == Expand(selections, available)
  {
    IdempotentWithoutShadows(selections, available);
  }

  // ── The legacy file ──

  /** The table a line of the file names. */
  function Listed(line: string): Option<string> {
    var t := Trim(line);
    if t == [] || t[0] == '#' || SplitWhitespace(t) == [] then None else Some(SplitWhitespace(t)[0])
  }

  lemma {:induction false} LeadingSpace(indent: string, rest: string)
    requires forall c <- indent :: IsSpace(c)
    ensures TrimStart(indent + rest) == TrimStart(rest)
  {
    if indent == [] {
      assert indent + rest == rest;
    } else {
      assert indent[0] in indent && (indent + rest)[1..] == indent[1..] + rest;
      LeadingSpace(indent[1..], rest);
    }
  }

  lemma {:induction false} EndAfter(word: string, tail: string)
    requires word != [] && !IsSpace(word[|word| - 1])
    ensures exists n :: 0 <= n <= |tail| && TrimEnd(word + tail) == word + tail[..n]
    decreases |tail|
  {
    var s := word + tail;
    if tail != [] && IsSpace(tail[|tail| - 1]) {
      assert s[..|s| - 1] == word + tail[..|tail| - 1];
      EndAfter(word, tail[..|tail| - 1]);
      var n :| 0 <= n <= |tail| - 1 && TrimEnd(word + tail[..|tail| - 1]) == word + tail[..|tail| - 1][..n];
      assert tail[..|tail| - 1][..n] == tail[..n];
    } else {
      assert s[|s| - 1] == if tail == [] then word[|word| - 1] else tail[|tail| - 1];
      assert tail[..|tail|] == tail;
    }
  }

  lemma {:induction false} FirstWord(word: string, acc: string, tail: string)
    requires (forall c <- word :: !IsSpace(c)) && (tail != [] ==> IsSpace(tail[0])) && word + acc != []
    ensures var words := Words(word + tail, acc); words != [] && words[0] == acc + word
    decreases |word|
  {
    if word == [] {
      assert word + tail == tail && acc + word == acc;
    } else {
      assert word[0] in word && (word + tail)[1..] == word[1..] + tail;
      FirstWord(word[1..], acc + [word[0]], tail);
      assert acc + [word[0]] + word[1..] == acc + word;
    }
  }

  /** A line lists its first word, whatever stands around it; a comment or a blank line lists nothing. */
  lemma ListedExactly(indent: string, word: string, tail: string)
    requires (forall c <- indent :: IsSpace(c)) && (forall c <- word :: !IsSpace(c))
    requires tail != [] ==> IsSpace(tail[0])
    ensures word != [] ==> Listed(indent + word + tail) == if word[0] == '#' then None else Some(word)
    ensures Listed(indent) == None
  {
    LeadingSpace(indent, []);
    assert indent + [] == indent;
    if word != [] {
      assert word[0] in word && word[|word| - 1] in word;
      LeadingSpace(indent, word + tail);
      assert indent + word + tail == indent + (word + tail);
      assert (word + tail)[0] == word[0];
      EndAfter(word, tail);
      var n :| 0 <= n <= |tail| && TrimEnd(word + tail) == word + tail[..n];
      var t := Trim(indent + word + tail);
      assert t == word + tail[..n] && t[0] == word[0];
      FirstWord(word, [], tail[..n]);
      assert [] + word == word;
    }
  }

  /** What each line of the file lists. */
  function ListedNames(lines: seq<string>): seq<Option<string>> {
    seq(|lines|, i requires 0 <= i < |lines| => Listed(lines[i]))
  }

  /** The entries of the names, without the repeated ones. */
  function Distinct(names: seq<Option<string>>, seen: set<string>): seq<TableSelection>
    decreases |names|
  {
    if names == [] then []
    else if names[0].None? || names[0].value in seen then Distinct(names[1..], seen)
    else [WithData(names[0].value)] + Distinct(names[1..], seen + {names[0].value})
  }

  /** `parse_tables_conf`. */
  function ParseTablesConf(contents: string): seq<TableSelection> {
    Distinct(ListedNames(Lines(contents)), {})
  }

  predicate NamedOnce(entries: seq<TableSelection>) {
    forall i, j | 0 <= i < j < |entries| :: entries[i].name != entries[j].name
  }

  /** One entry for each name, all with data. */
  lemma {:induction false} DistinctNames(names: seq<Option<string>>, seen: set<string>)
    ensures forall s <- Distinct(names, seen) :: s == WithData(s.name) && s.name !in seen && Some(s.name) in names
    ensures forall name | Some(name) in names && name !in seen :: WithData(name) in Distinct(names, seen)
    ensures NamedOnce(Distinct(names, seen))
    decreases |names|
  {
    if names != [] {
      var rest := names[1..];
      assert names == [names[0]] + rest;
      assert forall name :: Some(name) in names <==> Some(name) == names[0] || Some(name) in rest;
      if names[0].None? || names[0].value in seen {
        DistinctNames(rest, seen);
      } else {
        var first := WithData(names[0].value);
        var tail := Distinct(rest, seen + {first.name});
        DistinctNames(rest, seen + {first.name});
        assert Distinct(names, seen) == [first] + tail;
        forall s | s in Distinct(names, seen)
          ensures s == WithData(s.name) && s.name !in seen && Some(s.name) in names
        {
          assert s == first || s in tail;
        }
        forall name | Some(name) in names && name !in seen ensures WithData(name) in Distinct(names, seen) {
          assert name == first.name || WithData(name) in tail;
        }
      }
    }
  }

  function Complete(listed: seq<TableSelection>, available: seq<string>): (r: seq<TableSelection>)
    ensures |r| == |available| && forall i | 0 <= i < |available| ::
      r[i] == if Saved(listed, available[i]).Some? then WithData(available[i]) else OnlySchema(available[i])
  {
    if available == [] then []
    else [if Saved(listed, available[0]).Some? then WithData(available[0]) else OnlySchema(available[0])]
         + Complete(listed, available[1..])
  }

  function SelectionsFromTablesConf(contents: string, available: seq<string>): seq<TableSelection> {
    Complete(ParseTablesConf(contents), available)
  }

  predicate Covers(name: Option<string>, table: string) {
    name.Some? && SameTable(name.value, table)
  }

  /** Some line of the file lists the table. */
  predicate ListsTable(lines: seq<string>, table: string) {
    exists i :: 0 <= i < |lines| && Covers(Listed(lines[i]), table)
  }

  /** Every table has an entry under its own name, with data exactly when some line of the file lists it. */
  lemma ConfMeansItsLines(contents: string, available: seq<string>, i: nat)
    requires i < |available|
    ensures var r := SelectionsFromTablesConf(contents, available);
      && |r| == |available|
      && r[i] == if ListsTable(Lines(contents), available[i]) then WithData(available[i]) else OnlySchema(available[i])
  {
    var names := ListedNames(Lines(contents));
    DistinctNames(names, {});
    NamesCover(names, Distinct(names, {}), available[i]);
    LinesCover(Lines(contents), available[i]);
  }

  lemma LinesCover(lines: seq<string>, table: string)
    ensures ListsTable(lines, table) <==> exists i :: 0 <= i < |lines| && Covers(ListedNames(lines)[i], table)
  {
    assert forall i | 0 <= i < |lines| :: Covers(ListedNames(lines)[i], table) <==> Covers(Listed(lines[i]), table);
  }

  lemma NamesCover(names: seq<Option<string>>, listed: seq<TableSelection>, table: string)
    requires forall s <- listed :: Some(s.name) in names
    requires forall name | Some(name) in names :: WithData(name) in listed
    ensures Saved(listed, table).Some? <==> exists i :: 0 <= i < |names| && Covers(names[i], table)
  {
    if i :| 0 <= i < |names| && Covers(names[i], table) {
      assert names[i] == Some(names[i].value);
      assert WithData(names[i].value) in listed;
    }
    var s := Saved(listed, table);
    if s.Some? {
      var i :| FirstMatch(listed, table, i) && listed[i] == s.value;
      assert listed[i] in listed;
      var k :| 0 <= k < |names| && names[k] == Some(listed[i].name);
      assert Covers(names[k], table);
    }
  }

  /**
   A completed file is what a backup will take, unchanged by completion at run time,
   exactly when no earlier table's bare name is a later one's.
   */
  lemma ConfIsFixedExactly(contents: string, available: seq<string>)
    ensures var r := SelectionsFromTablesConf(contents, available);
      Expand(r, available) == r <==>
      forall k, j | 0 <= k < j < |available| :: available[j] == PUBLIC + available[k] ==> available[j] in available[..k]
  {
    var r := SelectionsFromTablesConf(contents, available);
    forall j | 0 <= j < |available|
      ensures Governing(r, available[j]) == r[j]
        <==> forall k | 0 <= k < j :: available[j] == PUBLIC + available[k] ==> available[j] in available[..k]
    {
      FixedAt(r, available, j);
    }
    if Expand(r, available) == r {
      forall j | 0 <= j < |available| ensures Governing(r, available[j]) == r[j] {
        assert Expand(r, available)[j] == r[j];
      }
    }
  }

  lemma FixedAt(r: seq<TableSelection>, available: seq<string>, j: nat)
    requires |r| == |available| && j < |r| && forall i | 0 <= i < |r| :: r[i].name == available[i]
    requires forall i, h | 0 <= i < |r| && 0 <= h < |r| && available[i] == available[h] :: r[i] == r[h]
    ensures Governing(r, available[j]) == r[j]
      <==> forall k | 0 <= k < j :: available[j] == PUBLIC + available[k] ==> available[j] in available[..k]
  {
    var n := available[j];
    assert SameTable(r[j].name, n);
    var s := Saved(r, n);
    var i :| FirstMatch(r, n, i) && r[i] == s.value;
    assert i <= j;
    assert forall h | 0 <= h < i :: available[h] != n && n != PUBLIC + available[h];
    if available[i] == n {
      forall k | 0 <= k < j && n == PUBLIC + available[k] ensures n in available[..k] {
        assert i < k by { assert |PUBLIC + n| > |n|; }
        assert available[..k][i] == n;
      }
    } else {
      assert i < j && n == PUBLIC + available[i] && n !in available[..i];
      assert r[i].name != r[j].name;
    }
  }
}
