/** The cosmetic normalisation behind the excerpt check, and the substring test on top of it. */
module TextNormalization {
  import opened Basics

  /** `_PUNCT_RE`: white space and punctuation, half width and full width. */
  predicate IsPunctuation(c: char) {
    c in {' ', '\t', '\n', '\r', '.', ',', '，', '。', '、', ';', '；', ':', '：', '!', '！', '?', '？',
          '(', ')', '（', '）', '[', ']', '【', '】', '"', '\'', '“', '”', '‘', '’', '<', '>', '《', '》',
          '/', '\\', '-', '—', '_', '+', '=', '*', '#', '&', '%', '$', '@', '`', '~'}
  }

  /** `_normalize_text`. */
  function Normalize(s: string): string {
    if s == [] then []
    else Normalize(s[..|s| - 1]) + (if IsPunctuation(LowerChar(s[|s| - 1])) then [] else [LowerChar(s[|s| - 1])])
  }

  /** Normalisation distributes over concatenation. */
  lemma {:induction false} NormalizeAppend(a: string, b: string)
    ensures Normalize(a + b) == Normalize(a) + Normalize(b)
  {
    hide IsPunctuation;
    if b == [] {
      assert a + b == a;
    } else {
      assert (a + b)[..|a + b| - 1] == a + b[..|b| - 1];
      NormalizeAppend(a, b[..|b| - 1]);
    }
  }

  lemma ContainsMiddle(a: string, p: string, b: string)
    ensures Contains(a + p + b, p)
  {
    assert (a + p + b)[|a|..] == p + b;
  }

  lemma ContainsSplit(s: string, p: string) returns (a: string, b: string)
    requires Contains(s, p)
    ensures s == a + p + b
  {
    var i :| 0 <= i <= |s| && StartsWith(s[i..], p);
    a, b := s[..i], s[i + |p|..];
    assert s[i..] == p + b;
  }

  /** The test `norm_excerpt in _normalize_text(actual)`. */
  predicate Cites(excerpt: string, actual: string) { Contains(Normalize(actual), Normalize(excerpt)) }

  /** Every contiguous piece of a text is a valid citation of it. */
  lemma SubstringCites(excerpt: string, actual: string)
    requires Contains(actual, excerpt)
    ensures Cites(excerpt, actual)
  {
    hide Contains, Normalize;
    var a, b := ContainsSplit(actual, excerpt);
    NormalizeAppend(a + excerpt, b);
    NormalizeAppend(a, excerpt);
    ContainsMiddle(Normalize(a), Normalize(excerpt), Normalize(b));
  }

  lemma {:induction false} PunctuationVanishes(p: string)
    ensures Normalize(p) == [] <==> forall i :: 0 <= i < |p| ==> IsPunctuation(LowerChar(p[i]))
  {
    hide IsPunctuation, LowerChar;
    if p != [] {
      var front := p[..|p| - 1];
      PunctuationVanishes(front);
      assert forall i :: 0 <= i < |front| ==> front[i] == p[i];
      assert Normalize(p) == [] <==> Normalize(front) == [] && IsPunctuation(LowerChar(p[|p| - 1]));
      hide Normalize;
    }
  }

  /** Punctuation anywhere in the excerpt or in the source, a decimal point or a minus sign included,
      makes no difference to the test. */
  lemma PunctuationIsInvisible(a: string, p: string, b: string, other: string)
    requires forall i :: 0 <= i < |p| ==> IsPunctuation(LowerChar(p[i]))
    ensures Cites(a + p + b, other) == Cites(a + b, other)
    ensures Cites(other, a + p + b) == Cites(other, a + b)
  {
    hide Contains, Normalize, IsPunctuation;
    PunctuationVanishes(p);
    NormalizeAppend(a + p, b);
    NormalizeAppend(a, p);
    NormalizeAppend(a, b);
    assert Normalize(a) + [] == Normalize(a);
  }

  lemma {:induction false} NormalizeTwice(s: string)
    ensures Normalize(Normalize(s)) == Normalize(s)
  {
    hide IsPunctuation, LowerChar;
    if s != [] {
      var front, c := s[..|s| - 1], LowerChar(s[|s| - 1]);
      NormalizeTwice(front);
      LowerTwice(s[|s| - 1]);
      NormalizeAppend(Normalize(front), if IsPunctuation(c) then [] else [c]);
      NormalizeOne(c);
      assert Normalize([]) == [];
    }
  }

  lemma LowerTwice(c: char)
    ensures LowerChar(LowerChar(c)) == LowerChar(c)
  {
  }

  lemma NormalizeOne(c: char)
    ensures Normalize([c]) == if IsPunctuation(LowerChar(c)) then [] else [LowerChar(c)]
  {
    assert [c][..0] == [];
    assert Normalize([]) == [];
  }

  lemma {:induction false} CitesTransitiveStep(a: string, b: string, s: string)
    requires Contains(b, a) && Contains(s, b)
    ensures Contains(s, a)
  {
    hide Contains;
    var x, y := ContainsSplit(b, a);
    var u, v := ContainsSplit(s, b);
    assert u + (x + a + y) + v == (u + x) + a + (y + v);
    ContainsMiddle(u + x, a, y + v);
  }

  /** Citing is transitive: a citation of a citation cites the original. */
  lemma CitesTransitive(a: string, b: string, s: string)
    requires Cites(a, b) && Cites(b, s)
    ensures Cites(a, s)
  {
    hide Contains, Normalize;
    CitesTransitiveStep(Normalize(a), Normalize(b), Normalize(s));
  }

  /** The marks that make no difference: space, full stop, comma and so on, half width and full width. */
  const MARKS: string := STOPS + QUOTES
  const STOPS: string := " \t\n\r.,，。、;；:：!！?？()（）"
  const QUOTES: string := "[]【】\"'“”‘’<>《》/\\-—_+=*#&%$@`~"

  lemma MarksArePunctuation(c: char)
    requires c in MARKS
    ensures IsPunctuation(LowerChar(c))
  {
    assert if c in STOPS then IsPunctuation(c) else IsPunctuation(c);
  }

  /** Inserting marks anywhere, in the excerpt or in the source, changes nothing. */
  lemma MarksAreInvisible(a: string, p: string, b: string, other: string)
    requires forall i :: 0 <= i < |p| ==> p[i] in MARKS
    ensures Cites(a + p + b, other) == Cites(a + b, other)
    ensures Cites(other, a + p + b) == Cites(other, a + b)
  {
    hide IsPunctuation, MARKS, Cites, LowerChar;
    forall i | 0 <= i < |p| ensures IsPunctuation(LowerChar(p[i])) {
      MarksArePunctuation(p[i]);
    }
    PunctuationIsInvisible(a, p, b, other);
  }

  /** A letter counts, whatever its case, and so does a digit. */
  lemma LettersAndDigitsCount(k: nat)
    ensures k < 26 ==> Normalize(['A' + k as char]) == Normalize(['a' + k as char]) == ['a' + k as char]
    ensures k < 10 ==> Normalize(['0' + k as char]) == ['0' + k as char]
  {
    if k < 26 {
      NormalizeOne('A' + k as char);
      NormalizeOne('a' + k as char);
      NoMark('a' + k as char);
    }
    if k < 10 {
      NormalizeOne('0' + k as char);
      NoMark('0' + k as char);
    }
    hide IsPunctuation, Normalize;
  }

  lemma NoMark(c: char)
    requires 'a' <= c <= 'z' || '0' <= c <= '9'
    ensures !IsPunctuation(c)
  {
  }
}
