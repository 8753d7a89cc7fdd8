/** What the archive theorems ask of hashing, printing, parsing, packing and sorting can be met all at once. */
module ArchivePlatform {
  import opened Wrappers
  import opened JsonValues
  import opened AuditArchive
  import opened ArchiveChain
  import opened ArchiveVerification
  import opened ArchiveBreaks
  import opened ArchivePurge
  import Canonical = CanonicalJson

  // ----- a printing that can be undone -----

  function Count(n: nat): string { if n == 0 then "." else "i" + Count(n - 1) }

  function Text(s: string): string { Count(|s|) + s }

  function Number(n: int): string { [if n < 0 then '-' else '+'] + Count(if n < 0 then -n else n) }

  function Width(v: Value): nat { match v case Arr(items) => |items| case Obj(fields) => |fields| case _ => 0 }

  function Print(v: Value): string
    decreases v, Width(v) + 1
  {
    match v
    case Null => "0"
    case Undefined => "1"
    case Bool(b) => if b then "2t" else "2f"
    case Num(n) => "3" + Number(n)
    case Str(s) => "4" + Text(s)
    case Date(iso) => "5" + Text(iso)
    case Other(text) => "6" + Text(text)
    case Arr(items) => "7" + (Count(|items|) + PrintFrom(v, 0))
    case Obj(fields) => "8" + (Count(|fields|) + PrintFrom(v, 0))
  }

  /** The items or properties from position `i` on. */
  function PrintFrom(v: Value, i: nat): string
    requires i <= Width(v)
    decreases v, Width(v) - i
  {
    if i == Width(v) then ""
    else if v.Arr? then Print(v.items[i]) + PrintFrom(v, i + 1)
    else Text(v.fields[i].key) + (Print(v.fields[i].value) + PrintFrom(v, i + 1))
  }

  lemma {:induction false} CountEnds(m: nat, n: nat, x: string, y: string)
    requires Count(m) + x == Count(n) + y
    ensures m == n && x == y
  {
    assert (Count(m) + x)[0] == if m == 0 then '.' else 'i';
    assert (Count(n) + y)[0] == if n == 0 then '.' else 'i';
    if m > 0 {
      assert (Count(m) + x)[1..] == Count(m - 1) + x;
      assert (Count(n) + y)[1..] == Count(n - 1) + y;
      CountEnds(m - 1, n - 1, x, y);
    } else {
      assert (Count(m) + x)[1..] == x && (Count(n) + y)[1..] == y;
    }
  }

  lemma TextEnds(s: string, t: string, x: string, y: string)
    requires Text(s) + x == Text(t) + y
    ensures s == t && x == y
  {
    assert Text(s) + x == Count(|s|) + (s + x) && Text(t) + y == Count(|t|) + (t + y);
    CountEnds(|s|, |t|, s + x, t + y);
    assert (s + x)[..|s|] == s && (t + y)[..|t|] == t;
    assert (s + x)[|s|..] == x && (t + y)[|t|..] == y;
  }

  lemma NumberEnds(m: int, n: int, x: string, y: string)
    requires Number(m) + x == Number(n) + y
    ensures m == n && x == y
  {
    var a, b := if m < 0 then -m else m, if n < 0 then -n else n;
    var p, q := Number(m) + x, Number(n) + y;
    assert p[0] == (if m < 0 then '-' else '+') && q[0] == (if n < 0 then '-' else '+');
    assert p[1..] == Count(a) + x;
    assert q[1..] == Count(b) + y;
    CountEnds(a, b, x, y);
  }

  /** A printed value ends where it ends, whatever follows, so no two values print alike. */
  lemma {:induction false} PrintEnds(v: Value, w: Value, x: string, y: string)
    requires Print(v) + x == Print(w) + y
    ensures v == w && x == y
    decreases v, Width(v) + 1
  {
    var p, q := Print(v) + x, Print(w) + y;
    assert p[0] == Print(v)[0] && q[0] == Print(w)[0];
    assert p[1..] == Print(v)[1..] + x && q[1..] == Print(w)[1..] + y;
    match v {
      case Null =>
      case Undefined =>
      case Bool(b) =>
        assert p[1] == (if b then 't' else 'f') && q[1] == (if w.b then 't' else 'f');
        assert p[2..] == x && q[2..] == y;
      case Num(n) => NumberEnds(n, w.n, x, y);
      case Str(s) => TextEnds(s, w.s, x, y);
      case Date(iso) => TextEnds(iso, w.iso, x, y);
      case Other(text) => TextEnds(text, w.text, x, y);
      case Arr(items) => ManyEnd(v, w, x, y);
      case Obj(fields) => ManyEnd(v, w, x, y);
    }
  }

  lemma ManyPrinted(v: Value, x: string)
    requires v.Arr? || v.Obj?
    ensures Print(v)[1..] + x == Count(Width(v)) + (PrintFrom(v, 0) + x)
  {
    assert Print(v)[1..] == Count(Width(v)) + PrintFrom(v, 0);
  }

  lemma {:induction false} ManyEnd(v: Value, w: Value, x: string, y: string)
    requires (v.Arr? && w.Arr?) || (v.Obj? && w.Obj?)
    requires Print(v)[1..] + x == Print(w)[1..] + y
    ensures v == w && x == y
    decreases v, Width(v), 1
  {
    ManyPrinted(v, x);
    ManyPrinted(w, y);
    CountEnds(Width(v), Width(w), PrintFrom(v, 0) + x, PrintFrom(w, 0) + y);
    FromEnds(v, w, 0, x, y);
    if v.Arr? {
      assert v.items == w.items;
    } else {
      assert v.fields == w.fields;
    }
  }

  lemma {:induction false} FromEnds(v: Value, w: Value, i: nat, x: string, y: string)
    requires (v.Arr? && w.Arr?) || (v.Obj? && w.Obj?)
    requires Width(v) == Width(w) && i <= Width(v)
    requires PrintFrom(v, i) + x == PrintFrom(w, i) + y
    ensures x == y
    ensures v.Arr? ==> forall j :: i <= j < Width(v) ==> v.items[j] == w.items[j]
    ensures v.Obj? ==> forall j :: i <= j < Width(v) ==> v.fields[j] == w.fields[j]
    decreases v, Width(v) - i, 0
  {
    if i < Width(v) {
      var p, q := PrintFrom(v, i + 1) + x, PrintFrom(w, i + 1) + y;
      if v.Arr? {
        assert PrintFrom(v, i) + x == Print(v.items[i]) + p && PrintFrom(w, i) + y == Print(w.items[i]) + q;
        PrintEnds(v.items[i], w.items[i], p, q);
      } else {
        var f, g := v.fields[i], w.fields[i];
        assert PrintFrom(v, i) + x == Text(f.key) + (Print(f.value) + p);
        assert PrintFrom(w, i) + y == Text(g.key) + (Print(g.value) + q);
        TextEnds(f.key, g.key, Print(f.value) + p, Print(g.value) + q);
        PrintEnds(f.value, g.value, p, q);
      }
      FromEnds(v, w, i + 1, x, y);
    } else {
      assert PrintFrom(v, i) + x == x && PrintFrom(w, i) + y == y;
    }
  }

  predicate Prints(v: Value, text: string) { Print(v) == text }

  ghost function Parse(text: string): Option<Value> {
    if exists v :: Prints(v, text) then
      var v :| Prints(v, text);
      Some(v)
    else None
  }

  lemma ParsePrinted(v: Value)
    ensures Parse(Print(v)) == Some(v)
  {
    assert Prints(v, Print(v));
    var w := Parse(Print(v)).value;
    assert Print(w) + "" == Print(v) + "";
    PrintEnds(w, v, "", "");
  }

  // ----- an order that tells all keys apart -----

  function Before(a: string, b: string): bool {
    a == "" || (b != "" && if a[0] == b[0] then Before(a[1..], b[1..]) else a[0] < b[0])
  }

  lemma {:induction false} BeforeTotal(a: string, b: string)
    ensures Before(a, b) || Before(b, a)
    ensures Before(a, b) && Before(b, a) ==> a == b
  {
    if a != "" && b != "" && a[0] == b[0] {
      BeforeTotal(a[1..], b[1..]);
      assert a == [a[0]] + a[1..] && b == [b[0]] + b[1..];
    }
  }

  lemma {:induction false} BeforeTransitive(a: string, b: string, c: string)
    requires Before(a, b) && Before(b, c)
    ensures Before(a, c)
  {
    if a != "" && a[0] == b[0] == c[0] {
      BeforeTransitive(a[1..], b[1..], c[1..]);
    }
  }

  lemma BeforeDecides()
    ensures Canonical.Decides(Before)
  {
    forall a, b ensures Before(a, b) || Before(b, a) {
      BeforeTotal(a, b);
    }
    forall a, b | Before(a, b) && Before(b, a) ensures a == b {
      BeforeTotal(a, b);
    }
    forall a, b, c | Before(a, b) && Before(b, c) ensures Before(a, c) {
      BeforeTransitive(a, b, c);
    }
  }

  // ----- the platform -----

  function Same(text: string): string { text }

  function Iso(time: int): IsoText { if time % 2 == 0 then "0" else "1" }

  ghost function Platform(): Env { Env(Before, Print, Parse, Same, Same, Same, Same, Same, Iso) }

  /** Everything the theorems on seals, verification and purging assume of the platform holds of this one. */
  lemma AssumptionsMet()
    ensures Trusted(Platform()) && Unzips(Platform()) && Platform().iso(0) != Platform().iso(1)
    ensures Sane(Platform(), []) && Inv(Platform(), []) && Covered(Platform(), State([], map[], []))
  {
    var env := Platform();
    BeforeDecides();
    forall row: Row, events: seq<Event>, previous: Option<string>, at: int
      ensures ReadsManifest(env, UnsignedFields(env, row, events, previous, at)) {
      ParsePrinted(Canonical.Canonicalize(Manifest(env, UnsignedFields(env, row, events, previous, at)), env.keyOrder));
    }
  }
}
