/** The lightweight processor: a regular-expression tokenizer that cuts kanji words and
    katakana words out of a text, and a filter that keeps the first token of each word. */
module JapaneseProcessorApi {
  import opened Common
  import JapaneseProcessor

  type Token = JapaneseProcessor.Token

  /** The three character classes of the tokenizer's patterns. */
  datatype CharClass = KanjiClass | HiraganaClass | KatakanaClass

  predicate InClass(k: CharClass, c: char)
  {
    match k
    case KanjiClass => ('\U{4E00}' <= c <= '\U{9FAF}') || c == '\U{3005}'
    case HiraganaClass => '\U{3041}' <= c <= '\U{3093}'
    case KatakanaClass => ('\U{30A1}' <= c <= '\U{30F6}') || c == '\U{30FC}'
  }

  /** Length of the longest prefix of `s` made of class `k` characters. */
  function RunLen(k: CharClass, s: string): (n: nat)
    ensures n <= |s|
    ensures forall i :: 0 <= i < n ==> InClass(k, s[i])
    ensures n == |s| || !InClass(k, s[n])
  {
    if s == [] || !InClass(k, s[0]) then 0 else 1 + RunLen(k, s[1..])
  }

  /** A run length is determined by where the class ends. */
  lemma {:induction false} RunLenIs(k: CharClass, s: string, n: nat)
    requires n <= |s|
    requires forall i :: 0 <= i < n ==> InClass(k, s[i])
    requires n == |s| || !InClass(k, s[n])
    ensures RunLen(k, s) == n
  {
    if n > 0 {
      RunLenIs(k, s[1..], n - 1);
    }
  }

  /** A kanji word: a non-empty run of kanji followed only by hiragana. */
  predicate IsKanjiWord(w: string)
  {
    var n := RunLen(KanjiClass, w);
    n >= 1 && forall i :: n <= i < |w| ==> InClass(HiraganaClass, w[i])
  }

  /** A katakana word: a non-empty run of katakana (the long-vowel mark included). */
  predicate IsKatakanaWord(w: string)
  {
    |w| >= 1 && forall i :: 0 <= i < |w| ==> InClass(KatakanaClass, w[i])
  }

  /** The global matches of the kanji pattern (one or more kanji or 々, then any number
      of hiragana), scanning left to right; no match gives the empty list. */
  function KanjiMatches(s: string): (r: seq<string>)
    ensures forall m :: m in r ==> IsKanjiWord(m)
    decreases |s|
  {
    if s == [] then []
    else if !InClass(KanjiClass, s[0]) then KanjiMatches(s[1..])
    else
      var m := KanjiEnd(s);
      [s[..m]] + KanjiMatches(s[m..])
  }

  /** Where the match starting at the first character ends: after the kanji run and the
      hiragana run that follows it. */
  function KanjiEnd(s: string): (m: nat)
    requires s != [] && InClass(KanjiClass, s[0])
    ensures 1 <= m <= |s| && IsKanjiWord(s[..m])
  {
    var n := RunLen(KanjiClass, s);
    var m := n + RunLen(HiraganaClass, s[n..]);
    RunLenIs(KanjiClass, s[..m], n);
    m
  }

  /** The global matches of the katakana pattern: maximal runs of katakana. */
  function KatakanaMatches(s: string): (r: seq<string>)
    ensures forall m :: m in r ==> IsKatakanaWord(m)
    decreases |s|
  {
    if s == [] then []
    else if !InClass(KatakanaClass, s[0]) then KatakanaMatches(s[1..])
    else
      var n := RunLen(KatakanaClass, s);
      [s[..n]] + KatakanaMatches(s[n..])
  }

  /** The characters of class `k` in `s`, in order. */
  function ClassChars(k: CharClass, s: string): string
  {
    if s == [] then [] else (if InClass(k, s[0]) then [s[0]] else []) + ClassChars(k, s[1..])
  }

  lemma {:induction false} ClassCharsAppend(k: CharClass, a: string, b: string)
    ensures ClassChars(k, a + b) == ClassChars(k, a) + ClassChars(k, b)
  {
    if a != [] {
      assert (a + b)[0] == a[0];
      assert (a + b)[1..] == a[1..] + b;
      ClassCharsAppend(k, a[1..], b);
    } else {
      assert a + b == b;
    }
  }

  lemma {:induction false} ClassCharsOfRun(k: CharClass, s: string)
    requires forall i :: 0 <= i < |s| ==> InClass(k, s[i])
    ensures ClassChars(k, s) == s
  {
    if s != [] {
      ClassCharsOfRun(k, s[1..]);
    }
  }

  /** The katakana matches, put together, are exactly the katakana of the text. */
  lemma {:induction false} KatakanaMatchesCover(s: string)
    ensures Concat(KatakanaMatches(s)) == ClassChars(KatakanaClass, s)
    decreases |s|
  {
    if s != [] {
      if !InClass(KatakanaClass, s[0]) {
        KatakanaMatchesCover(s[1..]);
      } else {
        var n := RunLen(KatakanaClass, s);
        KatakanaMatchesCover(s[n..]);
        assert s == s[..n] + s[n..];
        ClassCharsAppend(KatakanaClass, s[..n], s[n..]);
        ClassCharsOfRun(KatakanaClass, s[..n]);
      }
    }
  }

  /** Every kanji of the text lies in some kanji match. */
  lemma {:induction false} KanjiMatchesCover(s: string)
    ensures ClassChars(KanjiClass, Concat(KanjiMatches(s))) == ClassChars(KanjiClass, s)
    decreases |s|
  {
    if s != [] {
      if !InClass(KanjiClass, s[0]) {
        KanjiMatchesCover(s[1..]);
      } else {
        var m := KanjiEnd(s);
        KanjiMatchesCover(s[m..]);
        assert s == s[..m] + s[m..];
        ClassCharsAppend(KanjiClass, s[..m], s[m..]);
        ClassCharsAppend(KanjiClass, s[..m], Concat(KanjiMatches(s[m..])));
      }
    }
  }

  /** `m` occurs at `p` in `s` as a katakana word that cannot be extended either way:
      what the global katakana pattern matches. */
  predicate KatakanaRunAt(s: string, p: nat, m: string)
  {
    p + |m| <= |s| && s[p..p + |m|] == m && IsKatakanaWord(m)
    && (p == 0 || !InClass(KatakanaClass, s[p - 1]))
    && (p + |m| == |s| || !InClass(KatakanaClass, s[p + |m|]))
  }

  /** `m` occurs at `p` in `s` as a kanji word that starts a kanji run and that the next
      character would not extend: the whole kanji run and the whole hiragana run after it. */
  predicate KanjiRunAt(s: string, p: nat, m: string)
  {
    p + |m| <= |s| && s[p..p + |m|] == m && IsKanjiWord(m)
    && (p == 0 || !InClass(KanjiClass, s[p - 1]))
    && (p + |m| == |s| || !Extends(m, s[p + |m|]))
  }

  /** `c` would extend the kanji word `w` (`KanjiWordExtend` shows this is exactly when
      `w + [c]` is still a kanji word): a hiragana, or a kanji while `w` has no hiragana. */
  predicate Extends(w: string, c: char)
  {
    InClass(HiraganaClass, c) || (InClass(KanjiClass, c) && RunLen(KanjiClass, w) == |w|)
  }

  lemma KatakanaRunShift(s: string, d: nat, q: nat, m: string)
    requires d <= |s|
    ensures KatakanaRunAt(s, q + d, m)
        <==> KatakanaRunAt(s[d..], q, m) && (q == 0 && d > 0 ==> !InClass(KatakanaClass, s[d - 1]))
  {
    if q + d + |m| <= |s| {
      assert s[d..][q..q + |m|] == s[q + d..q + d + |m|];
      if q + d + |m| < |s| {
        assert s[d..][q + |m|] == s[q + d + |m|];
      }
      if q > 0 {
        assert s[d..][q - 1] == s[q + d - 1];
      }
    }
  }

  lemma KanjiRunShift(s: string, d: nat, q: nat, m: string)
    requires d <= |s|
    ensures KanjiRunAt(s, q + d, m)
        <==> KanjiRunAt(s[d..], q, m) && (q == 0 && d > 0 ==> !InClass(KanjiClass, s[d - 1]))
  {
    if q + d + |m| <= |s| {
      assert s[d..][q..q + |m|] == s[q + d..q + d + |m|];
      if q + d + |m| < |s| {
        assert s[d..][q + |m|] == s[q + d + |m|];
      }
      if q > 0 {
        assert s[d..][q - 1] == s[q + d - 1];
      }
    }
  }

  /** A kanji word stays one after `c` exactly when `c` is hiragana, or a kanji after a
      word that has no hiragana yet. */
  lemma KanjiWordExtend(w: string, c: char)
    requires IsKanjiWord(w)
    ensures IsKanjiWord(w + [c]) <==> Extends(w, c)
  {
    var n := RunLen(KanjiClass, w);
    var v := w + [c];
    assert v[|w|] == c && forall i :: 0 <= i < |w| ==> v[i] == w[i];
    if n < |w| {
      RunLenIs(KanjiClass, v, n);
    } else if InClass(KanjiClass, c) {
      RunLenIs(KanjiClass, v, n + 1);
    } else {
      RunLenIs(KanjiClass, v, n);
    }
  }

  /** A position whose left neighbour is outside class `k` is not inside the leading run. */
  lemma RunStartsOutside(k: CharClass, s: string, p: nat)
    requires p <= |s| && (p == 0 || !InClass(k, s[p - 1]))
    ensures p == 0 || p > RunLen(k, s)
  {
  }

  /** A kanji at or after the leading kanji run lies past the hiragana run that follows it. */
  lemma KanjiStartsAfterTail(s: string, p: nat, n: nat, k: nat)
    requires n <= p < |s| && InClass(KanjiClass, s[p])
    requires n == RunLen(KanjiClass, s) && k == n + RunLen(HiraganaClass, s[n..])
    ensures p >= k
  {
    assert s[n..][p - n] == s[p];
  }

  /** The katakana matches are exactly the maximal katakana runs of the text. */
  lemma KatakanaMatchesMaximal(s: string)
    ensures forall m :: m in KatakanaMatches(s) <==> exists p :: KatakanaRunAt(s, p, m)
  {
    KatakanaMatchesAreMaximal(s);
    MaximalAreKatakanaMatches(s);
  }

  lemma {:induction false} KatakanaMatchesAreMaximal(s: string)
    ensures forall m :: m in KatakanaMatches(s) ==> exists p :: KatakanaRunAt(s, p, m)
    decreases |s|
  {
    if s != [] {
      if !InClass(KatakanaClass, s[0]) {
        KatakanaMatchesAreMaximal(s[1..]);
        forall m | m in KatakanaMatches(s)
          ensures exists p :: KatakanaRunAt(s, p, m)
        {
          assert m in KatakanaMatches(s[1..]);
          var q: nat :| KatakanaRunAt(s[1..], q, m);
          KatakanaRunShift(s, 1, q, m);
        }
      } else {
        var n := RunLen(KatakanaClass, s);
        KatakanaMatchesAreMaximal(s[n..]);
        forall m | m in KatakanaMatches(s)
          ensures exists p :: KatakanaRunAt(s, p, m)
        {
          KatakanaTakeForward(s, m, n);
        }
      }
    }
  }

  lemma {:induction false} MaximalAreKatakanaMatches(s: string)
    ensures forall p: nat, m :: KatakanaRunAt(s, p, m) ==> m in KatakanaMatches(s)
    decreases |s|
  {
    if s == [] {
      assert forall p: nat, m :: !KatakanaRunAt(s, p, m);
    } else if !InClass(KatakanaClass, s[0]) {
      MaximalAreKatakanaMatches(s[1..]);
      forall p: nat, m | KatakanaRunAt(s, p, m)
        ensures m in KatakanaMatches(s)
      {
        assert s[p] == m[0];
        KatakanaRunShift(s, 1, p - 1, m);
        assert KatakanaMatches(s) == KatakanaMatches(s[1..]);
      }
    } else {
      var n := RunLen(KatakanaClass, s);
      MaximalAreKatakanaMatches(s[n..]);
      assert KatakanaMatches(s) == [s[..n]] + KatakanaMatches(s[n..]);
      forall p: nat, m | KatakanaRunAt(s, p, m)
        ensures m in KatakanaMatches(s)
      {
        KatakanaTakeBackward(s, p, m, n);
        if p > 0 {
          KatakanaRunShift(s, n, p - n, m);
        }
      }
    }
  }

  /** A katakana word is matched whole, not split. */
  lemma KatakanaWordMatchedWhole()
    ensures KatakanaMatches("アイ") == ["アイ"]
  {
    var s := "アイ";
    RunLenIs(KatakanaClass, s, 2);
    assert s[..2] == s && s[2..] == [];
  }

  /** A kanji match takes the whole hiragana run that follows it. */
  lemma KanjiTakesHiraganaTail()
    ensures KanjiMatches("食べる") == ["食べる"]
  {
    var s := "食べる";
    RunLenIs(KanjiClass, s, 1);
    assert s[1..] == "べる";
    RunLenIs(HiraganaClass, s[1..], 2);
    assert KanjiEnd(s) == 3;
    assert s[..3] == s && s[3..] == [];
  }

  /** A run taken at a katakana, or a later match, is a maximal run. */
  lemma KatakanaTakeForward(s: string, m: string, n: nat)
    requires s != [] && InClass(KatakanaClass, s[0]) && n == RunLen(KatakanaClass, s)
    requires forall m :: m in KatakanaMatches(s[n..]) ==> exists p :: KatakanaRunAt(s[n..], p, m)
    requires m in KatakanaMatches(s)
    ensures exists p :: KatakanaRunAt(s, p, m)
  {
    assert KatakanaMatches(s) == [s[..n]] + KatakanaMatches(s[n..]);
    if m == s[..n] {
      assert KatakanaRunAt(s, 0, m);
    } else {
      var q: nat :| KatakanaRunAt(s[n..], q, m);
      assert s[n..][q] == m[0];
      KatakanaRunShift(s, n, q, m);
    }
  }

  /** A maximal run in a text starting with katakana is the first run, or starts after it. */
  lemma KatakanaTakeBackward(s: string, p: nat, m: string, n: nat)
    requires s != [] && InClass(KatakanaClass, s[0]) && n == RunLen(KatakanaClass, s)
    requires KatakanaRunAt(s, p, m)
    ensures if p == 0 then m == s[..n] else p >= n
  {
    RunStartsOutside(KatakanaClass, s, p);
    if p == 0 {
      KatakanaPrefixIsMatch(s, m, n);
    }
  }


  /** A maximal run at the start of `s` is the leading run. */
  lemma KatakanaPrefixIsMatch(s: string, m: string, n: nat)
    requires KatakanaRunAt(s, 0, m) && n == RunLen(KatakanaClass, s)
    ensures m == s[..n]
  {
    assert forall i :: 0 <= i < |m| ==> s[i] == m[i];
    RunLenIs(KatakanaClass, s, |m|);
  }

  /** The kanji matches are exactly the occurrences of kanji words that start a kanji run
      and cannot be extended to the right. */
  lemma KanjiMatchesMaximal(s: string)
    ensures forall m :: m in KanjiMatches(s) <==> exists p :: KanjiRunAt(s, p, m)
  {
    KanjiMatchesAreMaximal(s);
    MaximalAreKanjiMatches(s);
  }

  lemma {:induction false} KanjiMatchesAreMaximal(s: string)
    ensures forall m :: m in KanjiMatches(s) ==> exists p :: KanjiRunAt(s, p, m)
    decreases |s|
  {
    if s != [] {
      if !InClass(KanjiClass, s[0]) {
        KanjiMatchesAreMaximal(s[1..]);
        forall m | m in KanjiMatches(s)
          ensures exists p :: KanjiRunAt(s, p, m)
        {
          assert m in KanjiMatches(s[1..]);
          var q: nat :| KanjiRunAt(s[1..], q, m);
          KanjiRunShift(s, 1, q, m);
        }
      } else {
        var n := RunLen(KanjiClass, s);
        var k := n + RunLen(HiraganaClass, s[n..]);
        KanjiMatchesAreMaximal(s[k..]);
        forall m | m in KanjiMatches(s)
          ensures exists p :: KanjiRunAt(s, p, m)
        {
          KanjiTakeForward(s, m, n, k);
        }
      }
    }
  }

  lemma {:induction false} MaximalAreKanjiMatches(s: string)
    ensures forall p: nat, m :: KanjiRunAt(s, p, m) ==> m in KanjiMatches(s)
    decreases |s|
  {
    if s == [] {
      assert forall p: nat, m :: !KanjiRunAt(s, p, m);
    } else if !InClass(KanjiClass, s[0]) {
      MaximalAreKanjiMatches(s[1..]);
      MaximalSkipNonKanji(s);
    } else {
      var n := RunLen(KanjiClass, s);
      var k := n + RunLen(HiraganaClass, s[n..]);
      MaximalAreKanjiMatches(s[k..]);
      MaximalAfterFirstKanji(s, n, k);
    }
  }

  /** The backward step past a character that is not a kanji. */
  lemma MaximalSkipNonKanji(s: string)
    requires s != [] && !InClass(KanjiClass, s[0])
    requires forall p: nat, m :: KanjiRunAt(s[1..], p, m) ==> m in KanjiMatches(s[1..])
    ensures forall p: nat, m :: KanjiRunAt(s, p, m) ==> m in KanjiMatches(s)
  {
    KanjiMatchesSkip(s);
    forall p: nat, m | KanjiRunAt(s, p, m)
      ensures m in KanjiMatches(s)
    {
      KanjiRunSkip(s, p, m);
    }
  }

  lemma KanjiMatchesSkip(s: string)
    requires s != [] && !InClass(KanjiClass, s[0])
    ensures KanjiMatches(s) == KanjiMatches(s[1..])
  {
  }

  /** A kanji word of the text does not start at a character that is not a kanji. */
  lemma KanjiRunSkip(s: string, p: nat, m: string)
    requires s != [] && !InClass(KanjiClass, s[0]) && KanjiRunAt(s, p, m)
    ensures p >= 1 && KanjiRunAt(s[1..], p - 1, m)
  {
    assert s[p] == m[0];
    KanjiRunShift(s, 1, p - 1, m);
  }

  /** The backward step past the first match, taken at a kanji. */
  lemma MaximalAfterFirstKanji(s: string, n: nat, k: nat)
    requires s != [] && InClass(KanjiClass, s[0])
    requires n == RunLen(KanjiClass, s) && k == n + RunLen(HiraganaClass, s[n..])
    requires k <= |s| && forall p: nat, m :: KanjiRunAt(s[k..], p, m) ==> m in KanjiMatches(s[k..])
    ensures forall p: nat, m :: KanjiRunAt(s, p, m) ==> m in KanjiMatches(s)
  {
    KanjiMatchesFirst(s, n, k);
    forall p: nat, m | KanjiRunAt(s, p, m)
      ensures m in KanjiMatches(s)
    {
      KanjiTakeBackward(s, p, m, n, k);
      if p > 0 {
        KanjiRunShift(s, k, p - k, m);
      }
    }
  }

  /** A match taken at a kanji, or a later match, is a maximal occurrence. */
  lemma KanjiTakeForward(s: string, m: string, n: nat, k: nat)
    requires s != [] && InClass(KanjiClass, s[0])
    requires n == RunLen(KanjiClass, s) && k == n + RunLen(HiraganaClass, s[n..])
    requires forall m :: m in KanjiMatches(s[k..]) ==> exists p :: KanjiRunAt(s[k..], p, m)
    requires m in KanjiMatches(s)
    ensures exists p :: KanjiRunAt(s, p, m)
  {
    KanjiMatchesFirst(s, n, k);
    if m == s[..k] {
      KanjiFirstIsMaximal(s, n, k);
    } else {
      var q: nat :| KanjiRunAt(s[k..], q, m);
      assert s[k..][q] == m[0];
      KanjiBoundary(s, n, k);
      KanjiRunShift(s, k, q, m);
    }
  }

  /** Right after the first match, a kanji never follows a kanji: either the match ended
      in hiragana, or the kanji run stopped at a character that is not a kanji. */
  lemma KanjiBoundary(s: string, n: nat, k: nat)
    requires s != [] && InClass(KanjiClass, s[0])
    requires n == RunLen(KanjiClass, s) && k == n + RunLen(HiraganaClass, s[n..])
    ensures k <= |s|
    ensures k < |s| && InClass(KanjiClass, s[k]) ==> !InClass(KanjiClass, s[k - 1])
  {
    if k > n {
      assert s[n..][k - 1 - n] == s[k - 1];
    }
  }

  /** The first match is a maximal occurrence at 0. */
  lemma KanjiFirstIsMaximal(s: string, n: nat, k: nat)
    requires s != [] && InClass(KanjiClass, s[0])
    requires n == RunLen(KanjiClass, s) && k == n + RunLen(HiraganaClass, s[n..])
    ensures k <= |s| && KanjiRunAt(s, 0, s[..k])
  {
    assert KanjiEnd(s) == k;
    if k < |s| {
      RunLenIs(KanjiClass, s[..k], n);
    }
  }

  /** A maximal occurrence in a text starting with kanji is the first match, or starts
      after it. */
  lemma KanjiTakeBackward(s: string, p: nat, m: string, n: nat, k: nat)
    requires s != [] && InClass(KanjiClass, s[0])
    requires n == RunLen(KanjiClass, s) && k == n + RunLen(HiraganaClass, s[n..])
    requires KanjiRunAt(s, p, m)
    ensures if p == 0 then m == s[..k] else p >= k
  {
    assert s[p] == m[0];
    RunStartsOutside(KanjiClass, s, p);
    if p == 0 {
      KanjiPrefixIsMatch(s, m, n, k);
    } else {
      KanjiStartsAfterTail(s, p, n, k);
    }
  }


  /** A text starting with kanji: the first match, then the matches of the rest. */
  lemma KanjiMatchesFirst(s: string, n: nat, k: nat)
    requires s != [] && InClass(KanjiClass, s[0])
    requires n == RunLen(KanjiClass, s) && k == n + RunLen(HiraganaClass, s[n..])
    ensures k <= |s|
    ensures KanjiMatches(s) == [s[..k]] + KanjiMatches(s[k..])
  {
    assert KanjiEnd(s) == k;
  }


  /** A kanji word at the start of `s` that the next character would not extend is the
      first kanji match. */
  lemma KanjiPrefixIsMatch(s: string, m: string, n: nat, k: nat)
    requires KanjiRunAt(s, 0, m)
    requires n == RunLen(KanjiClass, s) && k == n + RunLen(HiraganaClass, s[n..])
    ensures m == s[..k]
  {
    var j := RunLen(KanjiClass, m);
    assert forall i :: 0 <= i < |m| ==> s[i] == m[i];
    if j < |m| {
      RunLenIs(KanjiClass, s, j);
      RunLenIs(HiraganaClass, s[n..], |m| - n);
    } else {
      RunLenIs(KanjiClass, s, |m|);
      RunLenIs(HiraganaClass, s[n..], 0);
    }
  }

  /** The token pushed for one match. */
  function WordToken(w: string): Token
  {
    JapaneseProcessor.Token(w, w, w, "名詞")
  }

  /** The tokens pushed by one `forEach`: matches of two or more characters, in order. */
  function TokensOf(matches: seq<string>): seq<Token>
  {
    if matches == [] then []
    else (if |matches[0]| >= 2 then [WordToken(matches[0])] else []) + TokensOf(matches[1..])
  }

  /** The tokens of the matches are the matches of two or more characters. */
  lemma {:induction false} TokensOfMatches(matches: seq<string>)
    ensures forall t :: t in TokensOf(matches) ==> t == WordToken(t.word) && |t.word| >= 2 && t.word in matches
    ensures forall m :: m in matches && |m| >= 2 ==> WordToken(m) in TokensOf(matches)
  {
    if matches != [] {
      TokensOfMatches(matches[1..]);
    }
  }

  lemma {:induction false} TokensOfSnoc(matches: seq<string>, m: string)
    ensures TokensOf(matches + [m]) == TokensOf(matches) + (if |m| >= 2 then [WordToken(m)] else [])
    decreases |matches|
  {
    var t := matches + [m];
    TokensOfCons(t);
    if matches == [] {
      assert t[1..] == [];
    } else {
      assert t[0] == matches[0];
      assert t[1..] == matches[1..] + [m];
      TokensOfSnoc(matches[1..], m);
      TokensOfCons(matches);
    }
  }

  lemma TokensOfCons(matches: seq<string>)
    requires matches != []
    ensures TokensOf(matches)
         == (if |matches[0]| >= 2 then [WordToken(matches[0])] else []) + TokensOf(matches[1..])
  {
  }

  lemma TokensOfPrefix(matches: seq<string>, i: nat)
    requires i < |matches|
    ensures TokensOf(matches[..i + 1])
         == TokensOf(matches[..i]) + (if |matches[i]| >= 2 then [WordToken(matches[i])] else [])
  {
    assert matches[..i + 1] == matches[..i] + [matches[i]];
    TokensOfSnoc(matches[..i], matches[i]);
  }

  /** What `simpleTokenize` returns: the kanji tokens, then the katakana tokens. */
  function SimpleTokens(text: string): seq<Token>
  {
    TokensOf(KanjiMatches(text)) + TokensOf(KatakanaMatches(text))
  }

  /** `simpleTokenize`: two passes over the pattern matches, pushing the long ones. */
  method SimpleTokenize(text: string) returns (tokens: seq<Token>)
    ensures tokens == SimpleTokens(text)
  {
    tokens := [];
    var kanjiMatches := KanjiMatches(text);
    for i := 0 to |kanjiMatches|
      invariant tokens == TokensOf(kanjiMatches[..i])
    {
      var word := kanjiMatches[i];
      TokensOfPrefix(kanjiMatches, i);
      if |word| >= 2 {
        tokens := tokens + [WordToken(word)];
      }
    }
    assert kanjiMatches[..|kanjiMatches|] == kanjiMatches;
    ghost var kanjiTokens := tokens;
    assert tokens + [] == tokens;
    var katakanaMatches := KatakanaMatches(text);
    for i := 0 to |katakanaMatches|
      invariant tokens == kanjiTokens + TokensOf(katakanaMatches[..i])
    {
      var word := katakanaMatches[i];
      TokensOfPrefix(katakanaMatches, i);
      if |word| >= 2 {
        tokens := tokens + [WordToken(word)];
      }
    }
    assert katakanaMatches[..|katakanaMatches|] == katakanaMatches;
  }

  /** Every token is at least two characters long, its reading and base form are the word
      itself, its part of speech is noun, and its word is either a kanji word or a
      katakana word, never both. */
  lemma SimpleTokensShape(text: string)
    ensures forall t :: t in SimpleTokens(text) ==>
      |t.word| >= 2 && t.reading == t.word && t.baseForm == t.word && t.partOfSpeech == "名詞"
      && (IsKanjiWord(t.word) != IsKatakanaWord(t.word))
  {
    TokensOfMatches(KanjiMatches(text));
    TokensOfMatches(KatakanaMatches(text));
    forall t | t in SimpleTokens(text)
      ensures IsKanjiWord(t.word) != IsKatakanaWord(t.word)
    {
      assert !InClass(KatakanaClass, t.word[0]) || !InClass(KanjiClass, t.word[0]);
    }
  }

  /** No kanji token comes after a katakana token. */
  lemma KanjiBeforeKatakana(text: string)
    ensures var r := SimpleTokens(text);
      forall i, j :: 0 <= i < j < |r| && IsKatakanaWord(r[i].word) ==> !IsKanjiWord(r[j].word)
  {
    var a, b := TokensOf(KanjiMatches(text)), TokensOf(KatakanaMatches(text));
    var r := a + b;
    TokensOfMatches(KanjiMatches(text));
    TokensOfMatches(KatakanaMatches(text));
    forall i, j | 0 <= i < j < |r|
      ensures IsKatakanaWord(r[i].word) ==> !IsKanjiWord(r[j].word)
    {
      if i < |a| {
        assert r[i] in a;
        assert InClass(KanjiClass, r[i].word[0]);
        assert !IsKatakanaWord(r[i].word);
      } else {
        assert r[j] in b;
        assert !InClass(KanjiClass, r[j].word[0]);
      }
    }
  }

  /** `tokenize`: an absent text makes the tokenizer throw, and the error becomes an
      empty list. */
  method Tokenize(text: Option<string>) returns (tokens: seq<Token>)
    ensures text.None? ==> tokens == []
    ensures text.Some? ==> tokens == SimpleTokens(text.value)
  {
    if text.None? {
      return [];
    }
    tokens := SimpleTokenize(text.value);
  }

  function Words(tokens: seq<Token>): set<string>
  {
    set t | t in tokens :: t.word
  }

  predicate DistinctWords(tokens: seq<Token>)
  {
    forall i, j :: 0 <= i < j < |tokens| ==> tokens[i].word != tokens[j].word
  }

  lemma WordsSnoc(tokens: seq<Token>, t: Token)
    ensures Words(tokens + [t]) == Words(tokens) + {t.word}
  {
    assert forall u :: u in tokens + [t] <==> u in tokens || u == t;
  }

  /** The first token of every word, in order. */
  function Dedupe(tokens: seq<Token>): (r: seq<Token>)
    ensures SubsequenceOf(r, tokens)
    ensures Words(r) == Words(tokens)
    ensures DistinctWords(r)
  {
    if tokens == [] then []
    else
      var init, last := tokens[..|tokens| - 1], tokens[|tokens| - 1];
      var kept := Dedupe(init);
      DedupeStep(kept, init, last);
      assert init + [last] == tokens;
      if last.word in Words(kept) then kept else kept + [last]
  }

  /** One step of `Dedupe`: keeping the next token exactly when its word is new
      preserves the three properties. */
  lemma DedupeStep(kept: seq<Token>, init: seq<Token>, last: Token)
    requires SubsequenceOf(kept, init) && Words(kept) == Words(init) && DistinctWords(kept)
    ensures var r := if last.word in Words(kept) then kept else kept + [last];
      SubsequenceOf(r, init + [last]) && Words(r) == Words(init + [last]) && DistinctWords(r)
  {
    var seen := last.word in Words(kept);
    SubsequenceStep(kept, init, last, !seen);
    WordsSnoc(init, last);
    if !seen {
      WordsSnoc(kept, last);
      var r := kept + [last];
      forall i, j | 0 <= i < j < |r|
        ensures r[i].word != r[j].word
      {
        if j == |kept| {
          assert kept[i] in kept;
        }
      }
    } else {
      assert kept + [] == kept;
    }
  }

  /** The words of `tokens` that do not occur in it. */
  lemma NotInWords(tokens: seq<Token>, w: string)
    requires forall i :: 0 <= i < |tokens| ==> tokens[i].word != w
    ensures w !in Words(tokens)
  {
    forall u | u in tokens
      ensures u.word != w
    {
      var i :| 0 <= i < |tokens| && tokens[i] == u;
    }
  }

  lemma WordsInit(tokens: seq<Token>)
    requires tokens != []
    ensures Words(tokens) == Words(tokens[..|tokens| - 1]) + {tokens[|tokens| - 1].word}
  {
    assert tokens[..|tokens| - 1] + [tokens[|tokens| - 1]] == tokens;
    WordsSnoc(tokens[..|tokens| - 1], tokens[|tokens| - 1]);
  }

  /** The last token is kept exactly when its word is new. */
  lemma DedupeSnoc(tokens: seq<Token>)
    requires tokens != []
    ensures var init, last := tokens[..|tokens| - 1], tokens[|tokens| - 1];
      Dedupe(tokens) == if last.word in Words(init) then Dedupe(init) else Dedupe(init) + [last]
  {
  }

  /** One token is kept per distinct word. */
  lemma {:induction false} DedupeLength(tokens: seq<Token>)
    ensures |Dedupe(tokens)| == |Words(tokens)|
  {
    if tokens != [] {
      var init, last := tokens[..|tokens| - 1], tokens[|tokens| - 1];
      DedupeLength(init);
      DedupeSnoc(tokens);
      WordsInit(tokens);
      if last.word in Words(init) {
        assert Words(tokens) == Words(init);
      } else {
        assert |Words(init) + {last.word}| == |Words(init)| + 1;
      }
    }
  }

  /** De-duplicating a prefix gives a prefix of the de-duplicated tokens. */
  lemma {:induction false} DedupePrefix(tokens: seq<Token>, n: nat)
    requires n <= |tokens|
    ensures |Dedupe(tokens[..n])| <= |Dedupe(tokens)|
    ensures Dedupe(tokens)[..|Dedupe(tokens[..n])|] == Dedupe(tokens[..n])
    decreases |tokens|
  {
    if n == |tokens| {
      assert tokens[..n] == tokens;
    } else {
      var init := tokens[..|tokens| - 1];
      DedupePrefix(init, n);
      assert init[..n] == tokens[..n];
      DedupeSnoc(tokens);
      var d := Dedupe(init);
      assert Dedupe(tokens)[..|d|] == d;
      PrefixTrans(Dedupe(tokens[..n]), d, Dedupe(tokens));
    }
  }

  /** A token whose word does not occur earlier is kept, at the position that counts the
      distinct words before it. */
  lemma DedupeKeepsFirst(tokens: seq<Token>, j: nat)
    requires j < |tokens|
    requires forall i :: 0 <= i < j ==> tokens[i].word != tokens[j].word
    ensures |Words(tokens[..j])| < |Dedupe(tokens)|
    ensures Dedupe(tokens)[|Words(tokens[..j])|] == tokens[j]
    ensures tokens[j] in Dedupe(tokens)
  {
    var before, upTo := tokens[..j], tokens[..j + 1];
    assert upTo[..j] == before;
    NotInWords(before, tokens[j].word);
    DedupeSnoc(upTo);
    DedupeLength(before);
    DedupePrefix(tokens, j + 1);
    assert Dedupe(tokens)[|Dedupe(before)|] == Dedupe(upTo)[|Dedupe(before)|];
  }

  /** Tokens with pairwise distinct words pass unchanged. */
  lemma {:induction false} DedupeOfDistinct(tokens: seq<Token>)
    requires DistinctWords(tokens)
    ensures Dedupe(tokens) == tokens
  {
    if tokens != [] {
      var init, last := tokens[..|tokens| - 1], tokens[|tokens| - 1];
      DedupeOfDistinct(init);
      NotInWords(init, last.word);
      assert init + [last] == tokens;
    }
  }

  lemma DedupeIdempotent(tokens: seq<Token>)
    ensures Dedupe(Dedupe(tokens)) == Dedupe(tokens)
  {
    DedupeOfDistinct(Dedupe(tokens));
  }

  /** `filterVocabulary`: one pass, remembering the words already seen. */
  method FilterVocabulary(tokens: seq<Token>) returns (r: seq<Token>)
    ensures r == Dedupe(tokens)
  {
    var seen: set<string> := {};
    r := [];
    for i := 0 to |tokens|
      invariant r == Dedupe(tokens[..i])
      invariant seen == Words(r)
    {
      assert tokens[..i + 1][..i] == tokens[..i];
      if tokens[i].word in seen {
        continue;
      }
      WordsSnoc(r, tokens[i]);
      seen := seen + {tokens[i].word};
      r := r + [tokens[i]];
    }
    assert tokens[..|tokens|] == tokens;
  }
}
