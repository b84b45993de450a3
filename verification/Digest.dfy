/**
 The digest of a document collection.

 A document's keys are sorted at every depth, the result is hashed, and the hashes are
 folded together with exclusive or. The hash itself is a parameter, any function at all.
 */
module Digest {
  import opened Common

  datatype Field = Field(key: string, value: Bson)

  /** A value: a document, an array, or anything else, kept as it is. */
  datatype Bson = Document(fields: seq<Field>) | Array(items: seq<Bson>) | Scalar(text: string)

  /** A `Document` holds each key once. */
  predicate UniqueKeys(fields: seq<Field>) {
    forall i, j | 0 <= i < j < |fields| :: fields[i].key != fields[j].key
  }

  predicate Proper(v: Bson) {
    match v
    case Document(fields) => UniqueKeys(fields) && forall i | 0 <= i < |fields| :: Proper(fields[i].value)
    case Array(items) => forall i | 0 <= i < |items| :: Proper(items[i])
    case Scalar(_) => true
  }

  ghost function Keys(fields: seq<Field>): set<string> {
    set i | 0 <= i < |fields| :: fields[i].key
  }

  /** The same data: keys may be in any order, at every depth; the items of an array may not. */
  ghost predicate Equivalent(a: Bson, b: Bson) {
    match (a, b)
    case (Document(f), Document(g)) =>
      && Keys(f) == Keys(g)
      && forall i, j | 0 <= i < |f| && 0 <= j < |g| && f[i].key == g[j].key :: Equivalent(f[i].value, g[j].value)
    case (Array(s), Array(t)) => |s| == |t| && forall i | 0 <= i < |s| :: Equivalent(s[i], t[i])
    case (Scalar(s), Scalar(t)) => s == t
    case _ => false
  }

  // ── Sorting by key ──

  /** The order of strings: by the first character that differs. */
  predicate Before(a: string, b: string) {
    b != [] && (a == [] || a[0] < b[0] || (a[0] == b[0] && Before(a[1..], b[1..])))
  }

  lemma {:induction false} BeforeIsStrict(a: string, b: string)
    ensures a == b ==> !Before(a, b)
    ensures a != b ==> (Before(a, b) <==> !Before(b, a))
    decreases |a|
  {
    if a != [] && b != [] {
      BeforeIsStrict(a[1..], b[1..]);
      assert a == [a[0]] + a[1..] && b == [b[0]] + b[1..];
    }
  }

  lemma {:induction false} BeforeChains(a: string, b: string, c: string)
    requires Before(a, b) && Before(b, c)
    ensures Before(a, c)
    decreases |a|
  {
    if a != [] && a[0] == b[0] == c[0] {
      BeforeChains(a[1..], b[1..], c[1..]);
    }
  }

  predicate Sorted(fields: seq<Field>) {
    forall i, j | 0 <= i < j < |fields| :: Before(fields[i].key, fields[j].key)
  }

  /** Puts a field in its place among sorted ones. */
  function Insert(field: Field, fields: seq<Field>): seq<Field> {
    if fields == [] then [field]
    else if Before(field.key, fields[0].key) then [field] + fields
    else [fields[0]] + Insert(field, fields[1..])
  }

  function Sort(fields: seq<Field>): seq<Field> {
    if fields == [] then [] else Insert(fields[0], Sort(fields[1..]))
  }

  lemma {:induction false} InsertKeeps(field: Field, fields: seq<Field>)
    ensures forall x :: x in Insert(field, fields) <==> x == field || x in fields
  {
    if fields != [] {
      InsertKeeps(field, fields[1..]);
      assert fields == [fields[0]] + fields[1..];
    }
  }

  lemma SortedTail(fields: seq<Field>)
    requires fields != [] && Sorted(fields)
    ensures Sorted(fields[1..]) && forall x <- fields[1..] :: Before(fields[0].key, x.key)
  {
  }

  lemma SortedCons(field: Field, fields: seq<Field>)
    requires Sorted(fields) && forall x <- fields :: Before(field.key, x.key)
    ensures Sorted([field] + fields)
  {
    assert forall i | 0 <= i < |fields| :: fields[i] in fields;
  }

  lemma {:induction false} InsertSorts(field: Field, fields: seq<Field>)
    requires Sorted(fields) && forall x <- fields :: x.key != field.key
    ensures Sorted(Insert(field, fields))
  {
    if fields == [] {
    } else if Before(field.key, fields[0].key) {
      forall x <- fields ensures Before(field.key, x.key) {
        if x != fields[0] {
          SortedTail(fields);
          assert x in fields[1..];
          BeforeChains(field.key, fields[0].key, x.key);
        }
      }
      SortedCons(field, fields);
    } else {
      SortedTail(fields);
      InsertSorts(field, fields[1..]);
      InsertKeeps(field, fields[1..]);
      assert fields[0] in fields;
      BeforeIsStrict(field.key, fields[0].key);
      SortedCons(fields[0], Insert(field, fields[1..]));
    }
  }

  lemma {:induction false} SortSorts(fields: seq<Field>)
    requires UniqueKeys(fields)
    ensures Sorted(Sort(fields)) && forall x :: x in Sort(fields) <==> x in fields
  {
    if fields != [] {
      var rest := fields[1..];
      SortSorts(rest);
      InsertKeeps(fields[0], Sort(rest));
      assert fields == [fields[0]] + rest;
      forall x <- Sort(rest) ensures x.key != fields[0].key {
        var i :| 0 <= i < |rest| && rest[i] == x;
        assert fields[i + 1] == x;
      }
      InsertSorts(fields[0], Sort(rest));
    }
  }

  lemma HasElement(fields: seq<Field>)
    requires fields != []
    ensures exists x :: x in fields
  {
    assert fields[0] in fields;
  }

  /** There is only one way to sort fields with distinct keys. */
  lemma {:induction false} SortedOnce(a: seq<Field>, b: seq<Field>)
    requires Sorted(a) && Sorted(b) && forall x :: x in a <==> x in b
    ensures a == b
    decreases |a|
  {
    if a == [] {
      if b != [] {
        HasElement(b);
      }
    } else {
      assert a[0] in b && b != [] && b[0] in a;
      SortedTail(a);
      SortedTail(b);
      assert a == [a[0]] + a[1..] && b == [b[0]] + b[1..];
      if a[0] != b[0] {
        assert a[0] in b[1..] && b[0] in a[1..];
        BeforeIsStrict(a[0].key, b[0].key);
      }
      BeforeIsStrict(a[0].key, a[0].key);
      forall x ensures x in a[1..] <==> x in b[1..] {
        assert x in a <==> x == a[0] || x in a[1..];
        assert x in b <==> x == b[0] || x in b[1..];
      }
      SortedOnce(a[1..], b[1..]);
    }
  }

  // ── The canonical form ──

  function Canon(v: Bson): Bson {
    match v
    case Document(fields) => Document(Sort(CanonFields(fields)))
    case Array(items) => Array(CanonItems(items))
    case Scalar(_) => v
  }

  function CanonFields(fields: seq<Field>): (r: seq<Field>)
    ensures |r| == |fields|
    ensures forall i | 0 <= i < |fields| :: r[i] == Field(fields[i].key, Canon(fields[i].value))
  {
    if fields == [] then [] else [Field(fields[0].key, Canon(fields[0].value))] + CanonFields(fields[1..])
  }

  function CanonItems(items: seq<Bson>): (r: seq<Bson>)
    ensures |r| == |items| && forall i | 0 <= i < |items| :: r[i] == Canon(items[i])
  {
    if items == [] then [] else [Canon(items[0])] + CanonItems(items[1..])
  }

  /**
   Two values have the same canonical form exactly when they hold the same data: sorting
   loses nothing, and order among keys is all it forgets.
   */
  lemma {:induction false} CanonDecidesEquivalence(a: Bson, b: Bson)
    requires Proper(a) && Proper(b)
    ensures Canon(a) == Canon(b) <==> Equivalent(a, b)
    decreases a
  {
    match (a, b) {
      case (Document(f), Document(g)) =>
        forall i, j | 0 <= i < |f| && 0 <= j < |g|
          ensures Canon(f[i].value) == Canon(g[j].value) <==> Equivalent(f[i].value, g[j].value)
        {
          CanonDecidesEquivalence(f[i].value, g[j].value);
        }
        FieldsDecide(f, g);
      case (Array(s), Array(t)) =>
        if |s| == |t| {
          forall i | 0 <= i < |s| ensures Canon(s[i]) == Canon(t[i]) <==> Equivalent(s[i], t[i]) {
            CanonDecidesEquivalence(s[i], t[i]);
          }
          assert CanonItems(s) == CanonItems(t) <==> forall i | 0 <= i < |s| :: CanonItems(s)[i] == CanonItems(t)[i];
        }
      case _ =>
    }
  }

  lemma FieldsDecide(f: seq<Field>, g: seq<Field>)
    requires UniqueKeys(f) && UniqueKeys(g)
    ensures Sort(CanonFields(f)) == Sort(CanonFields(g)) <==>
      && Keys(f) == Keys(g)
      && forall i, j | 0 <= i < |f| && 0 <= j < |g| && f[i].key == g[j].key :: Canon(f[i].value) == Canon(g[j].value)
  {
    if Sort(CanonFields(f)) == Sort(CanonFields(g)) {
      SameSortSameKeys(f, g);
      SameSortSameValues(f, g);
    }
    if Keys(f) == Keys(g)
      && forall i, j | 0 <= i < |f| && 0 <= j < |g| && f[i].key == g[j].key :: Canon(f[i].value) == Canon(g[j].value)
    {
      SameFieldsSameSort(f, g);
    }
  }

  lemma SameSortSameValues(f: seq<Field>, g: seq<Field>)
    requires UniqueKeys(f) && UniqueKeys(g) && Sort(CanonFields(f)) == Sort(CanonFields(g))
    ensures forall i, j | 0 <= i < |f| && 0 <= j < |g| && f[i].key == g[j].key :: Canon(f[i].value) == Canon(g[j].value)
  {
    SameSortSubset(CanonFields(f), CanonFields(g));
    forall i, j | 0 <= i < |f| && 0 <= j < |g| && f[i].key == g[j].key ensures Canon(f[i].value) == Canon(g[j].value) {
      SameKeySameValue(f, g, i, j);
    }
  }

  lemma SameSortSameKeys(f: seq<Field>, g: seq<Field>)
    requires UniqueKeys(f) && UniqueKeys(g) && Sort(CanonFields(f)) == Sort(CanonFields(g))
    ensures Keys(f) == Keys(g)
  {
    SameSortKeys(f, g);
    SameSortKeys(g, f);
    EqualSets(Keys(f), Keys(g));
  }

  lemma EqualSets(a: set<string>, b: set<string>)
    requires a <= b && b <= a
    ensures a == b
  {
  }

  lemma SameSortKeys(f: seq<Field>, g: seq<Field>)
    requires UniqueKeys(f) && UniqueKeys(g) && Sort(CanonFields(f)) == Sort(CanonFields(g))
    ensures Keys(f) <= Keys(g)
  {
    SameSortSubset(CanonFields(f), CanonFields(g));
    SameFieldsSameKeys(f, g);
  }

  lemma SameSortSubset(a: seq<Field>, b: seq<Field>)
    requires UniqueKeys(a) && UniqueKeys(b) && Sort(a) == Sort(b)
    ensures forall x <- a :: x in b
  {
    SortSorts(a);
    SortSorts(b);
    forall x <- a ensures x in b {
      assert x in Sort(a);
    }
  }

  lemma SameKeySameValue(f: seq<Field>, g: seq<Field>, i: nat, j: nat)
    requires i < |f| && j < |g| && f[i].key == g[j].key && UniqueKeys(g)
    requires forall x <- CanonFields(f) :: x in CanonFields(g)
    ensures Canon(f[i].value) == Canon(g[j].value)
  {
    assert CanonFields(f)[i] in CanonFields(g);
    var k :| 0 <= k < |g| && CanonFields(g)[k] == CanonFields(f)[i];
    assert g[k].key == g[j].key;
  }

  lemma SameFieldsSameSort(f: seq<Field>, g: seq<Field>)
    requires UniqueKeys(f) && UniqueKeys(g) && Keys(f) == Keys(g)
    requires forall i, j | 0 <= i < |f| && 0 <= j < |g| && f[i].key == g[j].key ::
      Canon(f[i].value) == Canon(g[j].value)
    ensures Sort(CanonFields(f)) == Sort(CanonFields(g))
  {
    SortSorts(CanonFields(f));
    SortSorts(CanonFields(g));
    FieldsIn(f, g);
    FieldsIn(g, f);
    SortedOnce(Sort(CanonFields(f)), Sort(CanonFields(g)));
  }

  lemma SameFieldsSameKeys(f: seq<Field>, g: seq<Field>)
    requires forall x <- CanonFields(f) :: x in CanonFields(g)
    ensures Keys(f) <= Keys(g)
  {
    forall i | 0 <= i < |f| ensures f[i].key in Keys(g) {
      assert CanonFields(f)[i] in CanonFields(g);
      var k :| 0 <= k < |g| && CanonFields(g)[k] == CanonFields(f)[i];
      assert g[k].key == f[i].key;
    }
  }

  lemma FieldsIn(f: seq<Field>, g: seq<Field>)
    requires Keys(f) <= Keys(g)
    requires forall i, j | 0 <= i < |f| && 0 <= j < |g| && f[i].key == g[j].key ::
      Canon(f[i].value) == Canon(g[j].value)
    ensures forall x <- CanonFields(f) :: x in CanonFields(g)
  {
    forall i | 0 <= i < |f| ensures CanonFields(f)[i] in CanonFields(g) {
      assert f[i].key in Keys(f);
      var j :| 0 <= j < |g| && g[j].key == f[i].key;
      assert CanonFields(g)[j] == CanonFields(f)[i];
    }
  }

  /** The canonical form holds the data of the value, and is its own canonical form. */
  lemma CanonIsIdempotent(v: Bson)
    requires Proper(v)
    ensures Proper(Canon(v)) && Equivalent(Canon(v), v) && Canon(Canon(v)) == Canon(v)
  {
    CanonIsEquivalent(v);
    CanonDecidesEquivalence(Canon(v), v);
  }

  lemma {:induction false} CanonIsEquivalent(v: Bson)
    requires Proper(v)
    ensures Proper(Canon(v)) && Equivalent(Canon(v), v)
    decreases v
  {
    match v {
      case Document(fields) =>
        var cf := CanonFields(fields);
        SortSorts(cf);
        forall i | 0 <= i < |fields| ensures Proper(cf[i].value) && Equivalent(cf[i].value, fields[i].value) {
          CanonIsEquivalent(fields[i].value);
        }
        SortedFieldsAreEquivalent(fields, cf, Sort(cf));
      case Array(items) =>
        forall i | 0 <= i < |items| ensures Proper(Canon(items[i])) && Equivalent(Canon(items[i]), items[i]) {
          CanonIsEquivalent(items[i]);
        }
      case Scalar(_) =>
    }
  }

  lemma SortedFieldsAreEquivalent(fields: seq<Field>, cf: seq<Field>, sorted: seq<Field>)
    requires UniqueKeys(fields) && |cf| == |fields| && Sorted(sorted) && forall x :: x in sorted <==> x in cf
    requires forall i | 0 <= i < |fields| ::
      cf[i].key == fields[i].key && Proper(cf[i].value) && Equivalent(cf[i].value, fields[i].value)
    ensures Proper(Document(sorted)) && Equivalent(Document(sorted), Document(fields))
  {
    forall i, j | 0 <= i < j < |sorted| ensures sorted[i].key != sorted[j].key {
      BeforeIsStrict(sorted[i].key, sorted[j].key);
    }
    forall i | 0 <= i < |sorted|
      ensures Proper(sorted[i].value) && sorted[i].key in Keys(fields)
      ensures forall j | 0 <= j < |fields| && sorted[i].key == fields[j].key ::
        Equivalent(sorted[i].value, fields[j].value)
    {
      assert sorted[i] in sorted;
      var k :| 0 <= k < |cf| && cf[k] == sorted[i];
      assert fields[k].key in Keys(fields);
    }
    forall i | 0 <= i < |fields| ensures fields[i].key in Keys(sorted) {
      assert cf[i] in sorted;
      var k :| 0 <= k < |sorted| && sorted[k] == cf[i];
      assert sorted[k].key in Keys(sorted);
    }
    assert Keys(sorted) == Keys(fields);
  }

  // ── The fold ──

  const WIDTH := 32

  type Hash = s: seq<bv8> | |s| == WIDTH witness seq(WIDTH, _ => 0)

  function Zero(): Hash {
    seq(WIDTH, _ => 0)
  }

  function Xor(a: Hash, b: Hash): (r: Hash)
    ensures forall i | 0 <= i < WIDTH :: r[i] == a[i] ^ b[i]
  {
    seq(WIDTH, i requires 0 <= i < WIDTH => a[i] ^ b[i])
  }

  function Fold(docs: seq<Bson>, hash: Bson -> Hash): Hash {
    if docs == [] then Zero() else Xor(Fold(docs[..|docs| - 1], hash), hash(Canon(docs[|docs| - 1])))
  }

  /** `table_digest`: each document's hash is worked into the fold, slot by slot. */
  method TableDigest(docs: seq<Bson>, hash: Bson -> Hash) returns (digest: Hash)
    ensures digest == Fold(docs, hash)
  {
    var fold := new bv8[WIDTH](_ => 0);
    assert fold[..] == Zero();
    for n := 0 to |docs|
      invariant fold[..] == Fold(docs[..n], hash)
    {
      assert docs[..n + 1][..n] == docs[..n];
      var h := hash(Canon(docs[n]));
      ghost var before := fold[..];
      for i := 0 to WIDTH
        invariant forall k | 0 <= k < i :: fold[k] == before[k] ^ h[k]
        invariant forall k | i <= k < WIDTH :: fold[k] == before[k]
      {
        fold[i] := fold[i] ^ h[i];
      }
      assert fold[..] == Xor(before, h);
    }
    assert docs[..|docs|] == docs;
    digest := fold[..];
  }

  lemma XorLaws(a: Hash, b: Hash, c: Hash)
    ensures Xor(a, b) == Xor(b, a)
    ensures Xor(Xor(a, b), c) == Xor(a, Xor(b, c))
    ensures Xor(a, Zero()) == a
    ensures Xor(a, a) == Zero()
  {
    forall i | 0 <= i < WIDTH ensures Xor(Xor(a, b), c)[i] == Xor(a, Xor(b, c))[i] {
      ByteLaws(a[i], b[i], c[i]);
    }
    assert forall i | 0 <= i < WIDTH :: Xor(a, b)[i] == Xor(b, a)[i];
    assert forall i | 0 <= i < WIDTH :: Xor(a, Zero())[i] == a[i];
    assert forall i | 0 <= i < WIDTH :: Xor(a, a)[i] == Zero()[i];
  }

  lemma ByteLaws(a: bv8, b: bv8, c: bv8)
    ensures (a ^ b) ^ c == a ^ (b ^ c)
  {
  }

  /** The digest of two collections together is the exclusive or of their digests. */
  lemma {:induction false} FoldOfSum(a: seq<Bson>, b: seq<Bson>, hash: Bson -> Hash)
    ensures Fold(a + b, hash) == Xor(Fold(a, hash), Fold(b, hash))
    decreases |b|
  {
    if b == [] {
      assert a + b == a;
      XorLaws(Fold(a, hash), Zero(), Zero());
    } else {
      var init, last := b[..|b| - 1], b[|b| - 1];
      assert (a + b)[..|a + b| - 1] == a + init;
      FoldOfSum(a, init, hash);
      XorLaws(Fold(a, hash), Fold(init, hash), hash(Canon(last)));
    }
  }

  function Canons(docs: seq<Bson>): (r: seq<Bson>)
    ensures |r| == |docs| && forall i | 0 <= i < |docs| :: r[i] == Canon(docs[i])
  {
    CanonItems(docs)
  }

  /** Collections that hold the same documents, in any order and with their keys in any order, have the same digest. */
  lemma {:induction false} SameDocumentsSameDigest(a: seq<Bson>, b: seq<Bson>, hash: Bson -> Hash)
    requires multiset(Canons(a)) == multiset(Canons(b))
    ensures Fold(a, hash) == Fold(b, hash)
    decreases |a|
  {
    if a == [] {
      assert |multiset(Canons(b))| == 0;
    } else {
      var last := |a| - 1;
      var k := Partner(a, b);
      SameDocumentsSameDigest(a[..last], b[..k] + b[k + 1..], hash);
      FoldTakesOut(b, k, hash);
    }
  }

  /** Where the last document of `a` is in `b`; without it, the collections still hold the same documents. */
  lemma Partner(a: seq<Bson>, b: seq<Bson>) returns (k: nat)
    requires a != [] && multiset(Canons(a)) == multiset(Canons(b))
    ensures k < |b| && Canon(b[k]) == Canon(a[|a| - 1])
    ensures multiset(Canons(a[..|a| - 1])) == multiset(Canons(b[..k] + b[k + 1..]))
  {
    var last := |a| - 1;
    var d := Canon(a[last]);
    assert d in multiset(Canons(a)) by { assert Canons(a)[last] == d; }
    k :| 0 <= k < |b| && Canons(b)[k] == d;
    TakeOut(a, last);
    TakeOut(b, k);
    assert a[..last] + a[last + 1..] == a[..last];
    WithoutOne(multiset(Canons(a[..last])), multiset(Canons(b[..k] + b[k + 1..])), d);
  }

  lemma WithoutOne(m: multiset<Bson>, n: multiset<Bson>, d: Bson)
    requires m + multiset{d} == n + multiset{d}
    ensures m == n
  {
    assert m + multiset{d} - multiset{d} == m && n + multiset{d} - multiset{d} == n;
  }

  lemma TakeOut(docs: seq<Bson>, k: nat)
    requires k < |docs|
    ensures multiset(Canons(docs)) == multiset(Canons(docs[..k] + docs[k + 1..])) + multiset{Canon(docs[k])}
  {
    var c := Canons(docs);
    assert Canons(docs[..k] + docs[k + 1..]) == c[..k] + c[k + 1..];
    assert c == c[..k] + [c[k]] + c[k + 1..];
  }

  lemma FoldTakesOut(docs: seq<Bson>, k: nat, hash: Bson -> Hash)
    requires k < |docs|
    ensures Fold(docs, hash) == Xor(Fold(docs[..k] + docs[k + 1..], hash), hash(Canon(docs[k])))
  {
    var before, after := docs[..k], docs[k + 1..];
    assert docs == before + ([docs[k]] + after);
    FoldOfSum(before, [docs[k]] + after, hash);
    FoldOfSum([docs[k]], after, hash);
    FoldOfSum(before, after, hash);
    FoldOfOne(docs[k], hash);
    XorMoves(Fold(before, hash), hash(Canon(docs[k])), Fold(after, hash));
  }

  lemma FoldOfOne(d: Bson, hash: Bson -> Hash)
    ensures Fold([d], hash) == hash(Canon(d))
  {
    assert [d][..0] == [];
    XorLaws(Zero(), hash(Canon(d)), Zero());
    XorLaws(hash(Canon(d)), Zero(), Zero());
  }

  lemma XorMoves(a: Hash, b: Hash, c: Hash)
    ensures Xor(a, Xor(b, c)) == Xor(Xor(a, c), b)
  {
    XorLaws(b, c, c);
    XorLaws(a, c, b);
  }

  /**
   In a bare list, two documents with the same data cancel out: without the count beside it,
   the digest could not tell they were there. A stored collection gives each its own `_id`.
   */
  lemma EqualDocumentsCancel(docs: seq<Bson>, a: Bson, b: Bson, hash: Bson -> Hash)
    requires Canon(a) == Canon(b)
    ensures Fold(docs + [a, b], hash) == Fold(docs, hash)
  {
    var h := hash(Canon(a));
    assert (docs + [a, b])[..|docs| + 1] == docs + [a] && (docs + [a])[..|docs|] == docs;
    assert Fold(docs + [a, b], hash) == Xor(Xor(Fold(docs, hash), h), h);
    XorLaws(Fold(docs, hash), h, h);
    XorLaws(h, h, h);
  }

  /** Replacing one document by another is noticed exactly when the two hash differently. */
  lemma ReplacedDocumentShowsExactly(before: seq<Bson>, after: seq<Bson>, old': Bson, new': Bson, hash: Bson -> Hash)
    ensures Fold(before + [old'] + after, hash) == Fold(before + [new'] + after, hash) <==>
      hash(Canon(old')) == hash(Canon(new'))
  {
    FoldAround(before, old', after, hash);
    FoldAround(before, new', after, hash);
    XorCancels(Fold(before + after, hash), hash(Canon(old')), hash(Canon(new')));
  }

  lemma FoldAround(before: seq<Bson>, d: Bson, after: seq<Bson>, hash: Bson -> Hash)
    ensures Fold(before + [d] + after, hash) == Xor(Fold(before + after, hash), hash(Canon(d)))
  {
    var s, k := before + [d] + after, |before|;
    assert s[..k] == before && s[k + 1..] == after;
    FoldTakesOut(s, k, hash);
  }

  lemma XorCancels(f: Hash, a: Hash, b: Hash)
    ensures Xor(f, a) == Xor(f, b) <==> a == b
  {
    XorLaws(f, f, a);
    XorLaws(f, f, b);
    XorLaws(a, Zero(), Zero());
    XorLaws(b, Zero(), Zero());
    if Xor(f, a) == Xor(f, b) {
      assert Xor(f, Xor(f, a)) == Xor(f, Xor(f, b));
      assert Xor(f, Xor(f, a)) == Xor(Xor(f, f), a);
      assert Xor(f, Xor(f, b)) == Xor(Xor(f, f), b);
    }
  }
}
