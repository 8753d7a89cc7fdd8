/** What redaction keeps, in figures: which keys hide their value, how much text and how many items stay, in which order. */
module RedactionRules {
  import opened AuditRows
  import opened AuditRedaction
  import opened Basics
  import opened JsonValues
  import AuditText

  // ----- sensitive keys -----

  /** Capitals count as small letters. */
  predicate SameLetter(c: char, small: char) { if 'A' <= c <= 'Z' then c - 'A' + 'a' == small else c == small }

  predicate StandsAt(key: string, i: nat, word: string) {
    i + |word| <= |key| && forall j :: 0 <= j < |word| ==> SameLetter(key[i + j], word[j])
  }

  predicate Mentions(key: string, word: string) { exists i: nat :: i <= |key| && StandsAt(key, i, word) }

  /** One word directly before the other, or one character apart that is not a line end. */
  predicate MentionsPair(key: string, first: string, second: string) {
    || Mentions(key, first + second)
    || exists i: nat ::
         && |first| <= i < |key| && key[i] !in ['\n', '\r', '\U{2028}', '\U{2029}']
         && StandsAt(key, i - |first|, first) && StandsAt(key, i + 1, second)
  }

  lemma StandsIff(key: string, i: nat, word: string)
    requires i <= |key|
    ensures |Lower(key)| == |key|
    ensures StandsAt(key, i, word) <==> word <= Lower(key)[i..]
  {
    LowerLength(key);
    forall j | 0 <= j < |word| && i + j < |key| ensures SameLetter(key[i + j], word[j]) <==> Lower(key)[i..][j] == word[j] {
      LowerAt(key, i + j);
    }
  }

  lemma MentionsIff(key: string, word: string)
    ensures Mentions(key, word) <==> Contains(Lower(key), word)
  {
    LowerLength(key);
    if i: nat :| i <= |key| && StandsAt(key, i, word) { StandsIff(key, i, word); }
    if i :| 0 <= i <= |Lower(key)| && word <= Lower(key)[i..] { StandsIff(key, i, word); }
  }

  /** The middle character of a pair. */
  lemma PairAtIff(key: string, i: nat, first: string, second: string)
    requires i < |key|
    ensures |Lower(key)| == |key|
    ensures !IsLineEnd(Lower(key)[i]) <==> key[i] !in ['\n', '\r', '\U{2028}', '\U{2029}']
    ensures first <= Lower(key)[BackBy(i, |first|)..i] <==> |first| <= i && StandsAt(key, i - |first|, first)
    ensures second <= Lower(key)[i + 1..] <==> StandsAt(key, i + 1, second)
  {
    var k := Lower(key);
    LowerAt(key, i);
    StandsIff(key, i + 1, second);
    if |first| <= i {
      StandsIff(key, i - |first|, first);
      assert k[i - |first|..i] == k[i - |first|..][..|first|];
    }
  }

  lemma MentionsPairIff(key: string, first: string, second: string)
    ensures MentionsPair(key, first, second) <==> ContainsPair(Lower(key), first, second)
  {
    LowerLength(key);
    MentionsIff(key, first + second);
    forall i: nat | i < |key| ensures
      && (!IsLineEnd(Lower(key)[i]) <==> key[i] !in ['\n', '\r', '\U{2028}', '\U{2029}'])
      && (first <= Lower(key)[BackBy(i, |first|)..i] <==> |first| <= i && StandsAt(key, i - |first|, first))
      && (second <= Lower(key)[i + 1..] <==> StandsAt(key, i + 1, second))
    {
      PairAtIff(key, i, first, second);
    }
  }

  /** The sensitive keys. */
  predicate MentionsSecret(key: string) {
    || Mentions(key, "authorization") || Mentions(key, "cookie") || Mentions(key, "password")
    || Mentions(key, "passwd") || Mentions(key, "secret") || Mentions(key, "token")
    || Mentions(key, "credential") || Mentions(key, "firebase") || Mentions(key, "session")
  }

  lemma WordsListed(word: string)
    ensures word in WORDS
            <==> || word == "authorization" || word == "cookie" || word == "password" || word == "passwd"
                 || word == "secret" || word == "token" || word == "credential" || word == "firebase" || word == "session"
  {
  }

  lemma HasWordIff(key: string)
    ensures HasWord(Lower(key)) <==> MentionsSecret(key)
  {
    forall word ensures Mentions(key, word) <==> Contains(Lower(key), word) { MentionsIff(key, word); }
    forall word | Contains(Lower(key), word)
      ensures word in WORDS
              <==> || word == "authorization" || word == "cookie" || word == "password" || word == "passwd"
                   || word == "secret" || word == "token" || word == "credential" || word == "firebase" || word == "session" {
      WordsListed(word);
    }
  }

  lemma SensitiveIff(key: string)
    ensures IsSensitive(key) <==> MentionsSecret(key) || MentionsPair(key, "api", "key") || MentionsPair(key, "private", "key")
  {
    HasWordIff(key);
    MentionsPairIff(key, "api", "key");
    MentionsPairIff(key, "private", "key");
  }

  // ----- text, lists and plain values -----

  /** The first `max` of the characters that print. */
  ghost predicate Shortened(s: string, max: nat, out: string) {
    exists kept :: Printed(s, kept) && out == if |kept| > max then kept[..max] else kept
  }

  /** Below seven levels everything is cut off; above, plain values stay, text is shortened and lists keep a hundred items. */
  lemma ValueSays(v: Value, depth: nat)
    ensures var r := Redact(v, depth);
            if depth > 6 then r == Str("[TRUNCATED]")
            else match v
              case Null => r == Null
              case Undefined => r == Null
              case Bool(b) => r == Bool(b)
              case Num(n) => r == Num(n)
              case Date(iso) => r == Str(iso)
              case Str(s) => r.Str? && Shortened(s, 2000, r.s)
              case Other(text) => r.Str? && Shortened(text, 2000, r.s)
              case Arr(items) =>
                && r.Arr? && |r.items| == (if |items| > 100 then 100 else |items|)
                && forall i :: 0 <= i < |r.items| ==> r.items[i] == Redact(items[i], depth + 1)
              case Obj(_) => r.Obj?
  {
    match v {
      case Str(s) => StripSays(s);
      case Other(text) => StripSays(text);
      case _ =>
    }
  }

  // ----- objects -----

  function Keys(fields: seq<Field>): seq<string> {
    seq(|fields|, i requires 0 <= i < |fields| => fields[i].key)
  }

  lemma {:induction false} PutKeys(fields: seq<Field>, f: Field)
    ensures Keys(Put(fields, f)) == if f.key in Keys(fields) then Keys(fields) else Keys(fields) + [f.key]
  {
    if fields != [] {
      var rest := fields[1..];
      assert Keys(fields) == [fields[0].key] + Keys(rest);
      if fields[0].key != f.key {
        PutKeys(rest, f);
        assert Keys(Put(fields, f)) == [fields[0].key] + Keys(Put(rest, f));
      } else {
        assert Keys(Put(fields, f)) == [f.key] + Keys(rest);
      }
    }
  }

  lemma {:induction false} AssignedKeys(fields: seq<Field>)
    ensures Keys(Assigned(fields)) == Once(Keys(fields))
  {
    if fields != [] {
      var before := fields[..|fields| - 1];
      AssignedKeys(before);
      assert Keys(fields)[..|fields| - 1] == Keys(before);
      PutKeys(Assigned(before), fields[|fields| - 1]);
    }
  }

  /** What a property becomes. */
  ghost predicate RedactedField(f: Field, depth: nat, out: Field) {
    && Shortened(f.key, 100, out.key)
    && out.value == if IsSensitive(out.key) then Str("[REDACTED]") else Redact(f.value, depth + 1)
  }

  lemma RedactedFieldSays(f: Field, depth: nat)
    ensures RedactedField(f, depth, RedactField(f, depth))
  {
    StripSays(f.key);
  }

  ghost predicate LastOfKey(entries: seq<Field>, i: nat)
    requires i < |entries|
  {
    forall j :: i < j < |entries| ==> entries[j].key != entries[i].key
  }

  lemma LastsStay(entries: seq<Field>)
    ensures forall i :: 0 <= i < |entries| && LastOfKey(entries, i) ==> entries[i] in Assigned(entries)
  {
    forall i | 0 <= i < |entries| && LastOfKey(entries, i) ensures entries[i] in Assigned(entries) {
      LaterValueWins(entries, i);
    }
  }

  /** Each property becomes its shortened key with its redacted value. */
  lemma EntriesSay(fields: seq<Field>, depth: nat)
    ensures |RedactFields(fields, depth)| == |fields|
    ensures forall i :: 0 <= i < |fields| ==> RedactedField(fields[i], depth, RedactFields(fields, depth)[i])
  {
    forall i | 0 <= i < |fields| ensures RedactedField(fields[i], depth, RedactFields(fields, depth)[i]) {
      RedactedFieldSays(fields[i], depth);
    }
  }

  /** An object keeps its first hundred properties; where shortened keys collide, the first gives the place, the last the value. */
  lemma ObjectSays(fields: seq<Field>, depth: nat)
    requires depth <= 6
    ensures var entries := RedactFields(fields[..if |fields| > 100 then 100 else |fields|], depth);
            && Redact(Obj(fields), depth).Obj?
            && Keys(Redact(Obj(fields), depth).fields) == Once(Keys(entries))
            && forall i :: 0 <= i < |entries| && LastOfKey(entries, i) ==> entries[i] in Redact(Obj(fields), depth).fields
  {
    RedactObject(fields, depth);
    AssignedKeys(RedactFields(fields[..First(|fields|, MAX_FIELDS)], depth));
    LastsStay(RedactFields(fields[..First(|fields|, MAX_FIELDS)], depth));
  }
}
