/** The canonical form that manifests and archived rows are signed and hashed in. */
module CanonicalJson {
  import opened Basics
  import opened JsonValues
  import Sorting

  /** `localeCompare(left, right) <= 0`. */
  type KeyOrder = (string, string) -> bool

  function ByKey(le: KeyOrder): (Field, Field) -> bool { (a: Field, b: Field) => le(a.key, b.key) }

  function SortedFields(v: Value, le: KeyOrder): (s: seq<Field>)
    requires v.Obj?
    ensures |s| == |v.fields| && forall i :: 0 <= i < |s| ==> s[i] in v.fields
  {
    SortMembers(v.fields, ByKey(le));
    Sorting.Sort(v.fields, ByKey(le))
  }

  lemma SortMembers(xs: seq<Field>, le: (Field, Field) -> bool)
    ensures forall i :: 0 <= i < |Sorting.Sort(xs, le)| ==> Sorting.Sort(xs, le)[i] in xs
  {
    Sorting.SortKeepsElements(xs, le);
    forall i | 0 <= i < |Sorting.Sort(xs, le)| ensures Sorting.Sort(xs, le)[i] in xs {
      Sorting.SameMembers(Sorting.Sort(xs, le), xs, Sorting.Sort(xs, le)[i]);
    }
  }

  /** Dates become text, and the properties of every object are sorted by key. */
  function Canonicalize(v: Value, le: KeyOrder): Value
    decreases v, 1
  {
    match v
    case Date(iso) => Str(iso)
    case Arr(items) => Arr(seq(|items|, i requires 0 <= i < |items| => Canonicalize(items[i], le)))
    case Obj(_) => Obj(CanonicalFields(v, le))
    case _ => v
  }

  function CanonicalFields(v: Value, le: KeyOrder): seq<Field>
    requires v.Obj?
    decreases v, 0
  {
    var s := SortedFields(v, le);
    seq(|s|, i requires 0 <= i < |s| => assert s[i] in v.fields; Field(s[i].key, Canonicalize(s[i].value, le)))
  }

  // ----- what a value means, whatever order its properties are listed in -----

  datatype Sense = Plain(v: Value) | List(items: seq<Sense>) | Record(entries: map<string, Sense>)

  function Keys(fields: seq<Field>): set<string> { set i | 0 <= i < |fields| :: fields[i].key }

  function At(fields: seq<Field>, key: string): (i: nat)
    requires key in Keys(fields)
    ensures i < |fields| && fields[i].key == key
  {
    if fields[0].key == key then 0
    else
      var j :| 0 <= j < |fields| && fields[j].key == key;
      assert fields[1..][j - 1].key == key;
      1 + At(fields[1..], key)
  }

  function Meaning(v: Value): Sense {
    match v
    case Date(iso) => Plain(Str(iso))
    case Arr(items) => List(seq(|items|, i requires 0 <= i < |items| => Meaning(items[i])))
    case Obj(fields) => Record(map k | k in Keys(fields) :: Meaning(fields[At(fields, k)].value))
    case _ => Plain(v)
  }

  /** No object in the value lists a key twice. */
  ghost predicate Distinct(v: Value) {
    match v
    case Arr(items) => forall i :: 0 <= i < |items| ==> Distinct(items[i])
    case Obj(fields) => KeysDistinct(fields) && forall i :: 0 <= i < |fields| ==> Distinct(fields[i].value)
    case _ => true
  }

  ghost predicate Decides(le: KeyOrder) { Sorting.TotalOrder(le) && Sorting.Antisymmetric(le) }

  lemma AtMember(fields: seq<Field>, i: nat)
    requires KeysDistinct(fields) && i < |fields|
    ensures fields[i].key in Keys(fields) && At(fields, fields[i].key) == i
  {
  }

  lemma {:induction false} FieldOnce(fields: seq<Field>, f: Field)
    requires KeysDistinct(fields)
    ensures multiset(fields)[f] <= 1
  {
    if fields != [] {
      FieldOnce(fields[1..], f);
      assert fields == [fields[0]] + fields[1..];
      assert f == fields[0] ==> f !in fields[1..];
    }
  }

  lemma PermutedKeysDistinct(fields: seq<Field>, s: seq<Field>)
    requires KeysDistinct(fields) && multiset(s) == multiset(fields)
    ensures KeysDistinct(s) && Keys(s) == Keys(fields)
  {
    forall i, j | 0 <= i < j < |s| ensures s[i].key != s[j].key {
      Sorting.SameMembers(s, fields, s[i]);
      Sorting.SameMembers(s, fields, s[j]);
      if s[i] == s[j] {
        assert s == s[..i] + [s[i]] + s[i + 1..j] + [s[j]] + s[j + 1..];
        assert multiset(s)[s[i]] >= 2;
        FieldOnce(fields, s[i]);
        assert false;
      }
    }
    forall k ensures k in Keys(s) <==> k in Keys(fields) {
      if k in Keys(s) { Sorting.SameMembers(s, fields, s[At(s, k)]); }
      if k in Keys(fields) { Sorting.SameMembers(s, fields, fields[At(fields, k)]); }
    }
  }

  lemma SortedFieldsFacts(v: Value, le: KeyOrder)
    requires v.Obj? && KeysDistinct(v.fields)
    ensures var s := SortedFields(v, le); KeysDistinct(s) && Keys(s) == Keys(v.fields)
    ensures forall k | k in Keys(v.fields) ::
              SortedFields(v, le)[At(SortedFields(v, le), k)] == v.fields[At(v.fields, k)]
  {
    var s := SortedFields(v, le);
    Sorting.SortKeepsElements(v.fields, ByKey(le));
    PermutedKeysDistinct(v.fields, s);
    forall k | k in Keys(v.fields) ensures s[At(s, k)] == v.fields[At(v.fields, k)] {
      assert k in Keys(s);
      var i := At(s, k);
      assert s[i] in v.fields;
      var j :| 0 <= j < |v.fields| && v.fields[j] == s[i];
      AtMember(v.fields, j);
    }
  }

  lemma CanonicalAt(v: Value, le: KeyOrder, k: string)
    requires v.Obj? && KeysDistinct(v.fields) && k in Keys(v.fields)
    ensures var c := CanonicalFields(v, le);
            k in Keys(c) && c[At(c, k)].value == Canonicalize(v.fields[At(v.fields, k)].value, le)
  {
    var s := SortedFields(v, le);
    var c := CanonicalFields(v, le);
    SortedFieldsFacts(v, le);
    assert c[At(s, k)].key == k;
    assert s[At(c, k)].key == k;
    AtMember(s, At(c, k));
  }

  lemma CanonicalKeys(v: Value, le: KeyOrder)
    requires v.Obj? && KeysDistinct(v.fields)
    ensures Keys(CanonicalFields(v, le)) == Keys(v.fields)
  {
    var c := CanonicalFields(v, le);
    SortedFieldsFacts(v, le);
    forall k ensures k in Keys(c) <==> k in Keys(v.fields) {
      if k in Keys(v.fields) { CanonicalAt(v, le, k); }
      if k in Keys(c) { assert SortedFields(v, le)[At(c, k)].key == k; }
    }
  }

  lemma SameEntries(a: Value, b: Value)
    requires a.Obj? && b.Obj? && Keys(a.fields) == Keys(b.fields)
    requires forall k :: k in Keys(a.fields) ==>
      Meaning(a.fields[At(a.fields, k)].value) == Meaning(b.fields[At(b.fields, k)].value)
    ensures Meaning(a) == Meaning(b)
  {
    assert Meaning(a).entries == Meaning(b).entries;
  }

  /** Entry by entry the canonical fields mean what the fields mean. */
  lemma FieldMeanings(v: Value, le: KeyOrder)
    requires v.Obj? && KeysDistinct(v.fields)
    requires forall i :: 0 <= i < |v.fields| ==>
      Meaning(Canonicalize(v.fields[i].value, le)) == Meaning(v.fields[i].value)
    ensures Meaning(Obj(CanonicalFields(v, le))) == Meaning(v)
  {
    var c := CanonicalFields(v, le);
    CanonicalKeys(v, le);
    forall k | k in Keys(c) ensures Meaning(c[At(c, k)].value) == Meaning(v.fields[At(v.fields, k)].value) {
      CanonicalAt(v, le, k);
    }
    SameEntries(Obj(c), v);
  }

  lemma FieldsStayDistinct(v: Value, le: KeyOrder)
    requires v.Obj? && KeysDistinct(v.fields)
    requires forall i :: 0 <= i < |v.fields| ==> Distinct(Canonicalize(v.fields[i].value, le))
    ensures Distinct(Obj(CanonicalFields(v, le)))
  {
    var s, c := SortedFields(v, le), CanonicalFields(v, le);
    SortedFieldsFacts(v, le);
    forall i | 0 <= i < |s| ensures c[i].key == s[i].key && Distinct(c[i].value) {
      assert s[i] in v.fields;
    }
  }

  /** Canonicalization changes the listing, never the meaning. */
  lemma {:induction false} MeaningKept(v: Value, le: KeyOrder)
    requires Distinct(v)
    ensures Distinct(Canonicalize(v, le)) && Meaning(Canonicalize(v, le)) == Meaning(v)
    decreases v
  {
    match v {
      case Arr(items) =>
        forall i | 0 <= i < |items|
          ensures Distinct(Canonicalize(items[i], le)) && Meaning(Canonicalize(items[i], le)) == Meaning(items[i]) {
          MeaningKept(items[i], le);
        }
      case Obj(fields) =>
        forall i | 0 <= i < |fields|
          ensures Distinct(Canonicalize(fields[i].value, le))
          ensures Meaning(Canonicalize(fields[i].value, le)) == Meaning(fields[i].value) {
          MeaningKept(fields[i].value, le);
        }
        FieldMeanings(v, le);
        FieldsStayDistinct(v, le);
      case _ =>
    }
  }

  function KeyList(fields: seq<Field>): seq<string> { seq(|fields|, i requires 0 <= i < |fields| => fields[i].key) }

  lemma {:induction false} CountOfDistinct(xs: seq<string>, x: string)
    requires NoRepeats(xs)
    ensures multiset(xs)[x] == if x in xs then 1 else 0
  {
    if xs != [] {
      CountOfDistinct(xs[1..], x);
      assert xs == [xs[0]] + xs[1..];
      assert x == xs[0] ==> x !in xs[1..];
    }
  }

  lemma KeyListMember(fields: seq<Field>, k: string)
    ensures k in KeyList(fields) <==> k in Keys(fields)
  {
    if k in Keys(fields) { assert KeyList(fields)[At(fields, k)] == k; }
  }

  /** With an order that tells keys apart, the set of keys decides their sorted listing. */
  lemma SameKeyList(s: seq<Field>, t: seq<Field>, le: KeyOrder)
    requires Decides(le) && KeysDistinct(s) && KeysDistinct(t) && Keys(s) == Keys(t)
    requires Sorting.Sorted(s, ByKey(le)) && Sorting.Sorted(t, ByKey(le))
    ensures KeyList(s) == KeyList(t)
  {
    var xs, ys := KeyList(s), KeyList(t);
    forall k: string ensures multiset(xs)[k] == multiset(ys)[k] {
      CountOfDistinct(xs, k);
      CountOfDistinct(ys, k);
      KeyListMember(s, k);
      KeyListMember(t, k);
    }
    assert multiset(xs) == multiset(ys);
    forall i, j | 0 <= i < j < |xs| ensures le(xs[i], xs[j]) { assert ByKey(le)(s[i], s[j]); }
    forall i, j | 0 <= i < j < |ys| ensures le(ys[i], ys[j]) { assert ByKey(le)(t[i], t[j]); }
    Sorting.SortedUnique(xs, ys, le);
  }

  lemma SortedByKey(v: Value, le: KeyOrder)
    requires v.Obj? && Sorting.TotalOrder(le)
    ensures Sorting.Sorted(SortedFields(v, le), ByKey(le))
  {
    var before := ByKey(le);
    forall a: Field, b: Field ensures before(a, b) || before(b, a) {
      assert le(a.key, b.key) || le(b.key, a.key);
    }
    forall a: Field, b: Field, c: Field | before(a, b) && before(b, c) ensures before(a, c) {
      assert le(a.key, b.key) && le(b.key, c.key);
    }
    Sorting.SortSorts(v.fields, before);
  }

  lemma CanonicalFieldsSorted(v: Value, le: KeyOrder)
    requires v.Obj? && Sorting.TotalOrder(le)
    ensures Sorting.Sorted(CanonicalFields(v, le), ByKey(le))
    ensures KeysDistinct(v.fields) ==> KeysDistinct(CanonicalFields(v, le))
  {
    var s, c := SortedFields(v, le), CanonicalFields(v, le);
    SortedByKey(v, le);
    if KeysDistinct(v.fields) { SortedFieldsFacts(v, le); }
    forall i, j | 0 <= i < j < |c| ensures ByKey(le)(c[i], c[j]) && (KeysDistinct(v.fields) ==> c[i].key != c[j].key) {
      assert s[i].key == c[i].key && s[j].key == c[j].key;
      assert ByKey(le)(s[i], s[j]);
    }
  }

  /** Every object in the value, at any depth, lists its keys in order. */
  ghost predicate Ordered(v: Value, le: KeyOrder) {
    match v
    case Arr(items) => forall i :: 0 <= i < |items| ==> Ordered(items[i], le)
    case Obj(fields) =>
      && (forall i, j :: 0 <= i < j < |fields| ==> le(fields[i].key, fields[j].key))
      && (forall i :: 0 <= i < |fields| ==> Ordered(fields[i].value, le))
    case _ => true
  }

  lemma {:induction false} CanonicalOrdered(v: Value, le: KeyOrder)
    requires Sorting.TotalOrder(le)
    ensures Ordered(Canonicalize(v, le), le)
    decreases v
  {
    match v {
      case Arr(items) =>
        forall i | 0 <= i < |items| ensures Ordered(Canonicalize(items[i], le), le) {
          CanonicalOrdered(items[i], le);
        }
      case Obj(fields) =>
        var s, c := SortedFields(v, le), CanonicalFields(v, le);
        CanonicalFieldsSorted(v, le);
        forall i, j | 0 <= i < j < |c| ensures le(c[i].key, c[j].key) {
          assert ByKey(le)(c[i], c[j]);
        }
        forall i | 0 <= i < |c| ensures Ordered(c[i].value, le) {
          assert s[i] in v.fields;
          CanonicalOrdered(s[i].value, le);
        }
      case _ =>
    }
  }

  lemma SameListing(a: Value, b: Value, le: KeyOrder)
    requires Decides(le) && a.Obj? && b.Obj? && KeysDistinct(a.fields) && KeysDistinct(b.fields)
    requires Meaning(a) == Meaning(b)
    ensures var s, t := SortedFields(a, le), SortedFields(b, le);
            |s| == |t| && forall i :: 0 <= i < |s| ==> s[i].key == t[i].key && Meaning(s[i].value) == Meaning(t[i].value)
  {
    var s, t := SortedFields(a, le), SortedFields(b, le);
    SortedFieldsFacts(a, le);
    SortedFieldsFacts(b, le);
    assert Keys(a.fields) == Meaning(a).entries.Keys == Meaning(b).entries.Keys == Keys(b.fields);
    SortedByKey(a, le);
    SortedByKey(b, le);
    SameKeyList(s, t, le);
    assert |s| == |KeyList(s)| == |KeyList(t)| == |t|;
    forall i | 0 <= i < |s| ensures s[i].key == t[i].key && Meaning(s[i].value) == Meaning(t[i].value) {
      assert KeyList(s)[i] == KeyList(t)[i];
      var k := s[i].key;
      AtMember(s, i);
      AtMember(t, i);
      assert Meaning(a).entries[k] == Meaning(b).entries[k];
    }
  }

  lemma {:induction false} SameMeaningSameForm(a: Value, b: Value, le: KeyOrder)
    requires Decides(le) && Distinct(a) && Distinct(b) && Meaning(a) == Meaning(b)
    ensures Canonicalize(a, le) == Canonicalize(b, le)
    decreases a
  {
    match a {
      case Arr(items) =>
        assert b.Arr? && |b.items| == |items|;
        forall i | 0 <= i < |items| ensures Canonicalize(items[i], le) == Canonicalize(b.items[i], le) {
          assert Meaning(a).items[i] == Meaning(b).items[i];
          SameMeaningSameForm(items[i], b.items[i], le);
        }
      case Obj(fields) =>
        assert b.Obj?;
        var s, t := SortedFields(a, le), SortedFields(b, le);
        SameListing(a, b, le);
        forall i | 0 <= i < |s| ensures Canonicalize(s[i].value, le) == Canonicalize(t[i].value, le) {
          assert s[i] in fields && t[i] in b.fields;
          SameMeaningSameForm(s[i].value, t[i].value, le);
        }
        assert CanonicalFields(a, le) == CanonicalFields(b, le);
      case _ =>
    }
  }

  /**
   * The canonical form is a normal form: two values share it exactly when they mean the same, however their
   * properties are listed.
   */
  lemma SameFormIff(a: Value, b: Value, le: KeyOrder)
    requires Decides(le) && Distinct(a) && Distinct(b)
    ensures Canonicalize(a, le) == Canonicalize(b, le) <==> Meaning(a) == Meaning(b)
  {
    MeaningKept(a, le);
    MeaningKept(b, le);
    if Meaning(a) == Meaning(b) {
      SameMeaningSameForm(a, b, le);
    }
  }

  lemma CanonicalizeIdempotent(v: Value, le: KeyOrder)
    requires Decides(le) && Distinct(v)
    ensures Canonicalize(Canonicalize(v, le), le) == Canonicalize(v, le)
  {
    MeaningKept(v, le);
    SameMeaningSameForm(Canonicalize(v, le), v, le);
  }

  lemma TwoInOrder(f: Field, g: Field, le: (Field, Field) -> bool)
    requires le(f, g)
    ensures Sorting.Sort([f, g], le) == [f, g]
  {
    assert [f, g][1..] == [g] && [g][1..] == [];
    assert Sorting.Sort([g], le) == [g];
  }

  lemma TiedPairForm(f: Field, g: Field, le: KeyOrder)
    requires le(f.key, g.key)
    ensures var c := CanonicalFields(Obj([f, g]), le); c != [] && c[0].key == f.key
  {
    TwoInOrder(f, g, ByKey(le));
    assert SortedFields(Obj([f, g]), le)[0] == f;
    assert CanonicalFields(Obj([f, g]), le)[0].key == f.key;
  }

  lemma SwappedMeaning(f: Field, g: Field)
    requires f.key != g.key
    ensures Meaning(Obj([f, g])) == Meaning(Obj([g, f]))
  {
    var one, other := [f, g], [g, f];
    AtMember(one, 0);
    AtMember(one, 1);
    AtMember(other, 0);
    AtMember(other, 1);
    SameEntries(Obj(one), Obj(other));
  }

  /** A comparison that ties two different keys leaves them in listing order, and the form depends on it. */
  lemma TiedKeysKeepTheirOrder(f: Field, g: Field, le: KeyOrder)
    requires f.key != g.key && le(f.key, g.key) && le(g.key, f.key)
    ensures Meaning(Obj([f, g])) == Meaning(Obj([g, f]))
    ensures Canonicalize(Obj([f, g]), le) != Canonicalize(Obj([g, f]), le)
  {
    var a, b := Obj([f, g]), Obj([g, f]);
    SwappedMeaning(f, g);
    TiedPairForm(f, g, le);
    TiedPairForm(g, f, le);
    assert Canonicalize(a, le) == Obj(CanonicalFields(a, le)) && Canonicalize(b, le) == Obj(CanonicalFields(b, le));
  }

  // ----- taking one property out -----

  function Without(fields: seq<Field>, key: string): seq<Field> {
    if fields == [] then []
    else (if fields[0].key == key then [] else [fields[0]]) + Without(fields[1..], key)
  }

  lemma {:induction false} WithoutMembers(fields: seq<Field>, key: string)
    requires KeysDistinct(fields)
    ensures forall f :: f in Without(fields, key) <==> f in fields && f.key != key
    ensures KeysDistinct(Without(fields, key))
  {
    if fields != [] {
      var rest := Without(fields[1..], key);
      WithoutMembers(fields[1..], key);
      forall i | 0 <= i < |rest| ensures rest[i].key != fields[0].key {
        assert rest[i] in fields[1..];
      }
    }
  }

  lemma WithoutKeys(fields: seq<Field>, key: string)
    requires KeysDistinct(fields)
    ensures Keys(Without(fields, key)) == Keys(fields) - {key}
  {
    var rest := Without(fields, key);
    WithoutMembers(fields, key);
    forall k ensures k in Keys(rest) <==> k in Keys(fields) && k != key {
      if k in Keys(fields) && k != key { assert fields[At(fields, k)] in rest; }
      if k in Keys(rest) { assert rest[At(rest, k)] in rest; }
    }
  }

  lemma WithoutAt(fields: seq<Field>, key: string, k: string)
    requires KeysDistinct(fields) && k in Keys(Without(fields, key))
    ensures k in Keys(fields) && Without(fields, key)[At(Without(fields, key), k)] == fields[At(fields, k)]
  {
    var rest := Without(fields, key);
    WithoutMembers(fields, key);
    WithoutKeys(fields, key);
    var f := rest[At(rest, k)];
    assert f in rest;
    var j :| 0 <= j < |fields| && fields[j] == f;
    AtMember(fields, j);
  }

  lemma WithoutDistinct(fields: seq<Field>, key: string)
    requires Distinct(Obj(fields))
    ensures Distinct(Obj(Without(fields, key)))
  {
    var rest := Without(fields, key);
    WithoutMembers(fields, key);
    forall i | 0 <= i < |rest| ensures Distinct(rest[i].value) {
      assert rest[i] in rest;
      assert rest[i] in fields;
    }
  }

  lemma WithoutMeaning(fields: seq<Field>, key: string)
    requires Distinct(Obj(fields))
    ensures Distinct(Obj(Without(fields, key)))
    ensures Meaning(Obj(Without(fields, key))) == Record(Meaning(Obj(fields)).entries - {key})
  {
    var rest := Without(fields, key);
    WithoutDistinct(fields, key);
    WithoutKeys(fields, key);
    var kept, expected := Meaning(Obj(rest)).entries, Meaning(Obj(fields)).entries - {key};
    assert kept.Keys == expected.Keys;
    forall k | k in kept ensures kept[k] == expected[k] {
      WithoutAt(fields, key, k);
    }
    assert kept == expected;
  }
}
