/** What the audit trail keeps of an arbitrary value: bounded, printable, and without secrets. */
module AuditRedaction {
  import AuditText
  import opened Basics
  import opened JsonValues

  const MAX_DEPTH := 6
  const MAX_ARRAY := 100
  const MAX_FIELDS := 100
  const MAX_KEY := 100
  const MAX_STRING := 2000
  const REDACTED := "[REDACTED]"
  const TRUNCATED := "[TRUNCATED]"

  // ----- sensitive keys -----

  predicate IsLineEnd(c: char) { c == '\n' || c == '\r' || c == '\U{2028}' || c == '\U{2029}' }

  /** The two words with at most one character between them. */
  predicate ContainsPair(s: string, first: string, second: string) {
    || Contains(s, first + second)
    || exists i :: 0 <= i < |s| && !IsLineEnd(s[i]) && first <= s[BackBy(i, |first|)..i] && second <= s[i + 1..]
  }

  function BackBy(i: nat, n: nat): nat { if i < n then 0 else i - n }

  const WORDS := ["authorization", "cookie", "password", "passwd", "secret", "token", "credential", "firebase", "session"]

  predicate HasWord(k: string) { exists word :: word in WORDS && Contains(k, word) }

  predicate NamesApiKey(k: string) { ContainsPair(k, "api", "key") }

  predicate NamesPrivateKey(k: string) { ContainsPair(k, "private", "key") }

  predicate IsSensitiveLower(k: string) { HasWord(k) || NamesApiKey(k) || NamesPrivateKey(k) }

  /** Upper and lower case count alike. */
  predicate IsSensitive(key: string) { IsSensitiveLower(Lower(key)) }

  // ----- redaction -----

  /** Assigning a property: an existing key keeps its place and takes the new value. */
  function Put(fields: seq<Field>, f: Field): seq<Field> {
    if fields == [] then [f]
    else if fields[0].key == f.key then [f] + fields[1..]
    else [fields[0]] + Put(fields[1..], f)
  }

  function Assigned(fields: seq<Field>): seq<Field> {
    if fields == [] then [] else Put(Assigned(fields[..|fields| - 1]), fields[|fields| - 1])
  }

  function First(n: nat, max: nat): nat { if n > max then max else n }

  function BoundedKey(key: string): string { AuditText.Bounded(key, MAX_KEY) }

  function Redact(v: Value, depth: nat): Value
    decreases v, 1
  {
    if depth > MAX_DEPTH then Str(TRUNCATED)
    else match v
      case Null => Null
      case Undefined => Null
      case Bool(_) => v
      case Num(_) => v
      case Str(s) => Str(AuditText.Bounded(s, MAX_STRING))
      case Date(iso) => Str(iso)
      case Other(text) => Str(AuditText.Bounded(text, MAX_STRING))
      case Arr(items) =>
        Arr(seq(First(|items|, MAX_ARRAY), i requires 0 <= i < First(|items|, MAX_ARRAY) => Redact(items[i], depth + 1)))
      case Obj(fields) => Obj(Assigned(Entries(v, First(|fields|, MAX_FIELDS), depth)))
  }

  function Entries(v: Value, n: nat, depth: nat): seq<Field>
    requires v.Obj? && n <= |v.fields|
    decreases v, 0
  {
    seq(n, i requires 0 <= i < n =>
      Field(BoundedKey(v.fields[i].key),
            if IsSensitive(BoundedKey(v.fields[i].key)) then Str(REDACTED) else Redact(v.fields[i].value, depth + 1)))
  }

  function RedactField(f: Field, depth: nat): Field {
    Field(BoundedKey(f.key), if IsSensitive(BoundedKey(f.key)) then Str(REDACTED) else Redact(f.value, depth + 1))
  }

  function RedactFields(fields: seq<Field>, depth: nat): seq<Field> {
    seq(|fields|, i requires 0 <= i < |fields| => RedactField(fields[i], depth))
  }

  lemma RedactObject(fields: seq<Field>, depth: nat)
    requires depth <= MAX_DEPTH
    ensures Redact(Obj(fields), depth) == Obj(Assigned(RedactFields(fields[..First(|fields|, MAX_FIELDS)], depth)))
  {
    var n := First(|fields|, MAX_FIELDS);
    assert Entries(Obj(fields), n, depth) == RedactFields(fields[..n], depth);
  }

  /** One more property assigned. */
  lemma AssignedStep(fields: seq<Field>, i: nat, depth: nat)
    requires i < |fields|
    ensures Assigned(RedactFields(fields[..i + 1], depth))
            == Put(Assigned(RedactFields(fields[..i], depth)), RedactField(fields[i], depth))
  {
    var entries := RedactFields(fields[..i + 1], depth);
    assert entries[..i] == RedactFields(fields[..i], depth);
  }

  /** Redaction as the program runs it: arrays are mapped, and an object is filled property by property. */
  method RedactAuditValue(v: Value, depth: nat) returns (r: Value)
    ensures r == Redact(v, depth)
    decreases v, 1
  {
    if depth > MAX_DEPTH {
      return Str(TRUNCATED);
    }
    match v {
      case Null => r := Null;
      case Undefined => r := Null;
      case Bool(_) => r := v;
      case Num(_) => r := v;
      case Str(s) => r := Str(AuditText.Bounded(s, MAX_STRING));
      case Date(iso) => r := Str(iso);
      case Other(text) => r := Str(AuditText.Bounded(text, MAX_STRING));
      case Arr(items) =>
        var mapped: seq<Value> := [];
        for i := 0 to First(|items|, MAX_ARRAY)
          invariant |mapped| == i && forall j :: 0 <= j < i ==> mapped[j] == Redact(items[j], depth + 1)
        {
          var entry := RedactAuditValue(items[i], depth + 1);
          mapped := mapped + [entry];
        }
        r := Arr(mapped);
      case Obj(fields) =>
        var result := FillObject(v, depth);
        RedactObject(fields, depth);
        r := Obj(result);
    }
  }

  method FillObject(v: Value, depth: nat) returns (result: seq<Field>)
    requires v.Obj?
    ensures result == Assigned(RedactFields(v.fields[..First(|v.fields|, MAX_FIELDS)], depth))
    decreases v, 0
  {
    result := [];
    for i := 0 to First(|v.fields|, MAX_FIELDS)
      invariant result == Assigned(RedactFields(v.fields[..i], depth))
    {
      var key := BoundedKey(v.fields[i].key);
      var value := Str(REDACTED);
      if !IsSensitive(key) {
        value := RedactAuditValue(v.fields[i].value, depth + 1);
      }
      result := Put(result, Field(key, value));
      AssignedStep(v.fields, i, depth);
    }
  }

  // ----- what redaction leaves -----

  predicate Printable(s: string) { forall i :: 0 <= i < |s| ==> !AuditText.IsControl(s[i]) }

  /** A value the audit trail may keep at this depth: within every limit, printable, nothing under a sensitive key. */
  ghost predicate Clean(v: Value, depth: nat)
    decreases v
  {
    if depth > MAX_DEPTH then v == Str(TRUNCATED)
    else match v
      case Null => true
      case Undefined => false
      case Bool(_) => true
      case Num(_) => true
      case Str(s) => |s| <= MAX_STRING && Printable(s)
      case Date(_) => false
      case Other(_) => false
      case Arr(items) => |items| <= MAX_ARRAY && forall i :: 0 <= i < |items| ==> Clean(items[i], depth + 1)
      case Obj(fields) =>
        && |fields| <= MAX_FIELDS && KeysDistinct(fields)
        && (forall i :: 0 <= i < |fields| ==> |fields[i].key| <= MAX_KEY && Printable(fields[i].key))
        && (forall i :: 0 <= i < |fields| ==>
              if IsSensitive(fields[i].key) then fields[i].value == Str(REDACTED) else Clean(fields[i].value, depth + 1))
  }

  ghost predicate CleanField(f: Field, depth: nat) {
    && |f.key| <= MAX_KEY && Printable(f.key)
    && (if IsSensitive(f.key) then f.value == Str(REDACTED) else Clean(f.value, depth + 1))
  }

  lemma BoundedIsPrintable(s: string, max: nat)
    ensures |AuditText.Bounded(s, max)| <= max && Printable(AuditText.Bounded(s, max))
  {
    AuditText.StripIdempotent(s);
  }

  lemma PrintableIsBounded(s: string, max: nat)
    requires |s| <= max && Printable(s)
    ensures AuditText.Bounded(s, max) == s
  {
    AuditText.StripClean(s);
  }

  lemma {:induction false} PutKeeps(fields: seq<Field>, f: Field)
    requires KeysDistinct(fields)
    ensures KeysDistinct(Put(fields, f)) && |Put(fields, f)| <= |fields| + 1
    ensures forall g :: g in Put(fields, f) ==> g in fields || g == f
    ensures (forall i :: 0 <= i < |fields| ==> fields[i].key != f.key) ==> Put(fields, f) == fields + [f]
  {
    if fields != [] && fields[0].key != f.key {
      PutKeeps(fields[1..], f);
      var rest := Put(fields[1..], f);
      forall i | 0 <= i < |rest| ensures rest[i].key != fields[0].key {
        assert rest[i] in rest;
      }
      assert fields == [fields[0]] + fields[1..];
    }
  }

  lemma {:induction false} AssignedKeeps(fields: seq<Field>)
    ensures KeysDistinct(Assigned(fields)) && |Assigned(fields)| <= |fields|
    ensures forall g :: g in Assigned(fields) ==> g in fields
  {
    if fields != [] {
      AssignedKeeps(fields[..|fields| - 1]);
      PutKeeps(Assigned(fields[..|fields| - 1]), fields[|fields| - 1]);
    }
  }

  lemma {:induction false} PutHolds(fields: seq<Field>, f: Field)
    ensures f in Put(fields, f)
    ensures forall g :: g in fields && g.key != f.key ==> g in Put(fields, f)
  {
    if fields != [] && fields[0].key != f.key {
      PutHolds(fields[1..], f);
      assert fields == [fields[0]] + fields[1..];
    }
  }

  /** Of several properties whose bounded keys collide, the object ends up with the last one's value, and only that. */
  lemma {:induction false} LaterValueWins(fields: seq<Field>, i: nat)
    requires i < |fields| && forall j :: i < j < |fields| ==> fields[j].key != fields[i].key
    ensures fields[i] in Assigned(fields)
    ensures forall g :: g in Assigned(fields) && g.key == fields[i].key ==> g == fields[i]
  {
    var before, last := fields[..|fields| - 1], fields[|fields| - 1];
    PutHolds(Assigned(before), last);
    if i < |before| {
      LaterValueWins(before, i);
    }
    AssignedKeeps(fields);
    var n :| 0 <= n < |Assigned(fields)| && Assigned(fields)[n] == fields[i];
  }

  lemma {:induction false} AssignedDistinct(fields: seq<Field>)
    requires KeysDistinct(fields)
    ensures Assigned(fields) == fields
  {
    if fields != [] {
      var before := fields[..|fields| - 1];
      AssignedDistinct(before);
      PutKeeps(before, fields[|fields| - 1]);
      assert fields == before + [fields[|fields| - 1]];
    }
  }

  /** Whatever the input, the outcome is clean: depth, widths, key and text lengths stay within the limits. */
  lemma {:induction false} RedactIsClean(v: Value, depth: nat)
    ensures Clean(Redact(v, depth), depth)
    decreases v
  {
    if depth <= MAX_DEPTH {
      match v {
        case Str(s) => BoundedIsPrintable(s, MAX_STRING);
        case Other(text) => BoundedIsPrintable(text, MAX_STRING);
        case Date(iso) => assert IsIsoText(iso);
        case Arr(items) =>
          forall i | 0 <= i < First(|items|, MAX_ARRAY) ensures Clean(Redact(items[i], depth + 1), depth + 1) {
            RedactIsClean(items[i], depth + 1);
          }
        case Obj(fields) =>
          var kept := fields[..First(|fields|, MAX_FIELDS)];
          forall i | 0 <= i < |kept| ensures CleanField(RedactField(kept[i], depth), depth) {
            BoundedIsPrintable(kept[i].key, MAX_KEY);
            RedactIsClean(kept[i].value, depth + 1);
          }
          RedactObject(fields, depth);
          CleanObject(RedactFields(kept, depth), depth);
        case _ =>
      }
    }
  }

  lemma CleanObject(entries: seq<Field>, depth: nat)
    requires depth <= MAX_DEPTH && |entries| <= MAX_FIELDS
    requires forall i :: 0 <= i < |entries| ==> CleanField(entries[i], depth)
    ensures Clean(Obj(Assigned(entries)), depth)
  {
    AssignedKeeps(entries);
    var out := Assigned(entries);
    forall i | 0 <= i < |out| ensures CleanField(out[i], depth) {
      assert out[i] in entries;
    }
  }

  lemma {:induction false} CleanIsKept(v: Value, depth: nat)
    requires Clean(v, depth)
    ensures Redact(v, depth) == v
    decreases v
  {
    if depth <= MAX_DEPTH {
      match v {
        case Str(s) => PrintableIsBounded(s, MAX_STRING);
        case Arr(items) =>
          forall i | 0 <= i < |items| ensures Redact(items[i], depth + 1) == items[i] {
            CleanIsKept(items[i], depth + 1);
          }
        case Obj(fields) =>
          forall i | 0 <= i < |fields| ensures RedactField(fields[i], depth) == fields[i] {
            PrintableIsBounded(fields[i].key, MAX_KEY);
            if !IsSensitive(fields[i].key) {
              CleanIsKept(fields[i].value, depth + 1);
            }
          }
          assert fields[..First(|fields|, MAX_FIELDS)] == fields;
          assert RedactFields(fields, depth) == fields;
          AssignedDistinct(fields);
          RedactObject(fields, depth);
        case _ =>
      }
    }
  }

  /** Redaction changes a value exactly when it is not clean already. */
  lemma FixedIffClean(v: Value, depth: nat)
    ensures Redact(v, depth) == v <==> Clean(v, depth)
  {
    RedactIsClean(v, depth);
    if Clean(v, depth) {
      CleanIsKept(v, depth);
    }
  }

  lemma RedactIdempotent(v: Value, depth: nat)
    ensures Redact(Redact(v, depth), depth) == Redact(v, depth)
  {
    RedactIsClean(v, depth);
    CleanIsKept(Redact(v, depth), depth);
  }

  /** The values are alike except beneath sensitive keys. */
  ghost predicate Alike(a: Value, b: Value)
    decreases a
  {
    match (a, b)
    case (Arr(xs), Arr(ys)) => |xs| == |ys| && forall i :: 0 <= i < |xs| ==> Alike(xs[i], ys[i])
    case (Obj(fs), Obj(gs)) =>
      && |fs| == |gs|
      && (forall i :: 0 <= i < |fs| ==> fs[i].key == gs[i].key)
      && (forall i :: 0 <= i < |fs| ==> IsSensitive(BoundedKey(fs[i].key)) || Alike(fs[i].value, gs[i].value))
    case (_, _) => a == b
  }

  /** Nothing beneath a sensitive key reaches the outcome. */
  lemma {:induction false} SecretsDoNotShow(a: Value, b: Value, depth: nat)
    requires Alike(a, b)
    ensures Redact(a, depth) == Redact(b, depth)
    decreases a
  {
    if depth <= MAX_DEPTH {
      if a.Arr? && b.Arr? {
        forall i | 0 <= i < |a.items| ensures Redact(a.items[i], depth + 1) == Redact(b.items[i], depth + 1) {
          SecretsDoNotShow(a.items[i], b.items[i], depth + 1);
        }
      } else if a.Obj? && b.Obj? {
        forall i | 0 <= i < |a.fields| ensures RedactField(a.fields[i], depth) == RedactField(b.fields[i], depth) {
          if !IsSensitive(BoundedKey(a.fields[i].key)) {
            SecretsDoNotShow(a.fields[i].value, b.fields[i].value, depth + 1);
          }
        }
        var n := First(|a.fields|, MAX_FIELDS);
        assert RedactFields(a.fields[..n], depth) == RedactFields(b.fields[..n], depth);
        RedactObject(a.fields, depth);
        RedactObject(b.fields, depth);
      }
    }
  }
}
