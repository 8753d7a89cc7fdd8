/** Which property values redaction hides: the sensitive word must survive the bounding of the key. */
module RedactedKeys {
  import AuditText
  import opened AuditRedaction
  import opened Basics
  import opened JsonValues

  // ----- bounding keeps sensitive words, short of cutting them off -----

  lemma {:induction false} StripConcat(a: string, b: string)
    ensures AuditText.StripControls(a + b) == AuditText.StripControls(a) + AuditText.StripControls(b)
  {
    if a == "" {
      assert a + b == b;
    } else {
      assert (a + b)[1..] == a[1..] + b;
      StripConcat(a[1..], b);
    }
  }

  lemma {:induction false} LowerStripped(s: string)
    ensures Lower(AuditText.StripControls(s)) == AuditText.StripControls(Lower(s))
  {
    if s != "" {
      LowerStripped(s[1..]);
      var rest := AuditText.StripControls(s[1..]);
      assert ([s[0]] + rest)[1..] == rest;
      assert Lower(s)[1..] == Lower(s[1..]);
    }
  }

  lemma ContainsMiddle(a: string, word: string, b: string)
    ensures Contains(a + word + b, word)
  {
    var s := a + word + b;
    assert s[|a|..] == word + b;
  }

  lemma WordSurvives(s: string, word: string)
    requires Printable(word) && Contains(s, word)
    ensures Contains(AuditText.StripControls(s), word)
  {
    var i :| 0 <= i <= |s| && word <= s[i..];
    var a, b := s[..i], s[i + |word|..];
    assert s == a + word + b;
    StripConcat(a + word, b);
    StripConcat(a, word);
    AuditText.StripClean(word);
    ContainsMiddle(AuditText.StripControls(a), word, AuditText.StripControls(b));
  }

  lemma PairMiddle(a: string, first: string, c: char, second: string, b: string)
    requires !IsLineEnd(c)
    ensures ContainsPair(a + first + [c] + second + b, first, second)
  {
    var s := a + first + [c] + second + b;
    var i := |a + first|;
    assert s[i] == c && s[i - |first|..i] == first && s[i + 1..] == second + b;
    assert BackBy(i, |first|) == i - |first|;
  }

  lemma StripThree(a: string, m: string, b: string)
    ensures AuditText.StripControls(a + m + b)
            == AuditText.StripControls(a) + AuditText.StripControls(m) + AuditText.StripControls(b)
  {
    StripConcat(a + m, b);
    StripConcat(a, m);
  }

  lemma StripMiddle(first: string, c: char, second: string)
    requires Printable(first) && Printable(second) && AuditText.IsControl(c)
    ensures AuditText.StripControls(first + [c] + second) == first + second
  {
    assert first + [c] + second == first + ([c] + second);
    StripConcat(first, [c] + second);
    assert ([c] + second)[1..] == second;
    AuditText.StripClean(first);
    AuditText.StripClean(second);
  }

  lemma SplitPair(s: string, i: nat, first: string, second: string)
    requires i < |s| && first <= s[BackBy(i, |first|)..i] && second <= s[i + 1..]
    ensures |first| <= i && i + 1 + |second| <= |s|
    ensures s == s[..i - |first|] + first + [s[i]] + second + s[i + 1 + |second|..]
  {
    assert s[i + 1..][..|second|] == second;
    assert s[i - |first|..i] == first;
  }

  lemma PairSurvives(s: string, first: string, second: string)
    requires Printable(first) && Printable(second) && ContainsPair(s, first, second)
    ensures ContainsPair(AuditText.StripControls(s), first, second)
  {
    if Contains(s, first + second) {
      WordSurvives(s, first + second);
    } else {
      var i :| 0 <= i < |s| && !IsLineEnd(s[i]) && first <= s[BackBy(i, |first|)..i] && second <= s[i + 1..];
      PairAround(s, i, first, second);
    }
  }

  lemma PairAround(s: string, i: nat, first: string, second: string)
    requires Printable(first) && Printable(second)
    requires i < |s| && !IsLineEnd(s[i]) && first <= s[BackBy(i, |first|)..i] && second <= s[i + 1..]
    ensures ContainsPair(AuditText.StripControls(s), first, second)
  {
    SplitPair(s, i, first, second);
    PairInText(s[..i - |first|], first, s[i], second, s[i + 1 + |second|..]);
  }

  lemma PairInText(a: string, first: string, c: char, second: string, b: string)
    requires Printable(first) && Printable(second) && !IsLineEnd(c)
    ensures ContainsPair(AuditText.StripControls(a + first + [c] + second + b), first, second)
  {
    var middle := first + [c] + second;
    var a', b' := AuditText.StripControls(a), AuditText.StripControls(b);
    assert a + first + [c] + second + b == a + middle + b;
    if AuditText.IsControl(c) {
      StripThree(a, middle, b);
      StripMiddle(first, c, second);
      ContainsMiddle(a', first + second, b');
    } else {
      StripThree(a, middle, b);
      AuditText.StripClean(middle);
      PairMiddle(a', first, c, second, b');
      assert a' + first + [c] + second + b' == a' + middle + b';
    }
  }

  lemma WordsPrintable(word: string)
    requires word in WORDS
    ensures Printable(word)
  {
  }

  lemma HasWordSurvives(k: string)
    requires HasWord(k)
    ensures HasWord(AuditText.StripControls(k))
  {
    var word :| word in WORDS && Contains(k, word);
    WordsPrintable(word);
    WordSurvives(k, word);
  }

  lemma SensitiveTextSurvives(k: string)
    requires IsSensitiveLower(k)
    ensures IsSensitiveLower(AuditText.StripControls(k))
  {
    if HasWord(k) {
      HasWordSurvives(k);
    } else if NamesApiKey(k) {
      PairSurvives(k, "api", "key");
    } else {
      PairSurvives(k, "private", "key");
    }
  }

  /** Stripping control characters never makes a sensitive key insensitive; only cutting at 100 characters can. */
  lemma SensitiveSurvives(key: string)
    requires IsSensitive(key) && |AuditText.StripControls(key)| <= MAX_KEY
    ensures IsSensitive(BoundedKey(key))
  {
    LowerStripped(key);
    SensitiveTextSurvives(Lower(key));
  }

  // ----- what an observer of the outcome can tell -----

  lemma RedactSingle(f: Field, depth: nat)
    requires depth <= MAX_DEPTH
    ensures Redact(Obj([f]), depth) == Obj([RedactField(f, depth)])
  {
    RedactObject([f], depth);
    assert [f][..1] == [f];
    assert RedactFields([f], depth) == [RedactField(f, depth)];
    AssignedDistinct([RedactField(f, depth)]);
  }

  /** Two values of the property always redact alike. */
  ghost predicate Hidden(key: string, depth: nat) {
    forall v: Value, w: Value :: Redact(Obj([Field(key, v)]), depth) == Redact(Obj([Field(key, w)]), depth)
  }

  /** Above the depth limit, a property's value is hidden exactly when its bounded key is sensitive. */
  lemma HiddenIff(key: string, depth: nat)
    requires depth < MAX_DEPTH
    ensures Hidden(key, depth) <==> IsSensitive(BoundedKey(key))
  {
    if IsSensitive(BoundedKey(key)) {
      forall v: Value, w: Value ensures Redact(Obj([Field(key, v)]), depth) == Redact(Obj([Field(key, w)]), depth) {
        RedactSingle(Field(key, v), depth);
        RedactSingle(Field(key, w), depth);
      }
    } else {
      RedactSingle(Field(key, Num(0)), depth);
      RedactSingle(Field(key, Num(1)), depth);
      assert RedactField(Field(key, Num(0)), depth) != RedactField(Field(key, Num(1)), depth);
    }
  }

  /** So a key that is sensitive as written shows its value exactly when the cut at 100 characters takes the word away. */
  lemma SensitiveKeyShowsIff(key: string, depth: nat)
    requires depth < MAX_DEPTH && IsSensitive(key)
    ensures !Hidden(key, depth) <==> !IsSensitive(AuditText.StripControls(key)[..First(|AuditText.StripControls(key)|, MAX_KEY)])
    ensures !Hidden(key, depth) ==> |AuditText.StripControls(key)| > MAX_KEY
  {
    HiddenIff(key, depth);
    if |AuditText.StripControls(key)| <= MAX_KEY {
      SensitiveSurvives(key);
      assert AuditText.StripControls(key)[..|AuditText.StripControls(key)|] == AuditText.StripControls(key);
    }
  }
}
