/** The morphological side of the engine: the token record built from the analyzer's
    output, the part-of-speech and script filter that keeps vocabulary words, and the
    Katakana to Hiragana shift. The analyzer itself is an input. */
module JapaneseProcessor {
  import opened Common

  /** One token as the rest of the engine sees it. */
  datatype Token = Token(word: string, reading: string, baseForm: string, partOfSpeech: string)

  /** One token as the morphological analyzer reports it: reading and dictionary form
      may be missing. */
  datatype AnalyzerToken = AnalyzerToken(
    surfaceForm: string, reading: Option<string>, basicForm: Option<string>, pos: string)

  /** JavaScript's `v || fallback` on an optional string: a missing or empty value falls back. */
  function OrElse(v: Option<string>, fallback: string): (r: string)
    ensures r == fallback || (v.Some? && r == v.value)
    ensures r == [] ==> fallback == []
  {
    if v.Some? && v.value != [] then v.value else fallback
  }

  /** The record conversion in `tokenize`. */
  function ToToken(t: AnalyzerToken): (r: Token)
    ensures r.word == t.surfaceForm && r.partOfSpeech == t.pos
    ensures (t.reading.None? || t.reading.value == []) ==> r.reading == t.surfaceForm
    ensures (t.basicForm.None? || t.basicForm.value == []) ==> r.baseForm == t.surfaceForm
    ensures t.reading.Some? && t.reading.value != [] ==> r.reading == t.reading.value
    ensures t.basicForm.Some? && t.basicForm.value != [] ==> r.baseForm == t.basicForm.value
  {
    Token(t.surfaceForm, OrElse(t.reading, t.surfaceForm), OrElse(t.basicForm, t.surfaceForm), t.pos)
  }

  /** `tokenize` after the analyzer has run: one token per analyzer token, in order. */
  function Tokenize(analyzed: seq<AnalyzerToken>): (r: seq<Token>)
    ensures |r| == |analyzed|
    ensures forall i :: 0 <= i < |r| ==> r[i] == ToToken(analyzed[i])
  {
    if analyzed == [] then [] else [ToToken(analyzed[0])] + Tokenize(analyzed[1..])
  }

  predicate IsHiragana(c: char) { '\U{3040}' <= c <= '\U{309F}' }
  predicate IsKatakana(c: char) { '\U{30A0}' <= c <= '\U{30FF}' }
  predicate IsKanji(c: char) { '\U{4E00}' <= c <= '\U{9FAF}' }

  /** Parts of speech that are never vocabulary (particles, auxiliary verbs, symbols,
      conjunctions, adnominals, interjections). */
  predicate HasExcludedPos(pos: string)
  {
    Contains(pos, "助詞") || Contains(pos, "助動詞") || Contains(pos, "記号")
    || Contains(pos, "接続詞") || Contains(pos, "連体詞") || Contains(pos, "感動詞")
  }

  /** Nouns, verbs and adjectives. */
  predicate HasContentPos(pos: string)
  {
    Contains(pos, "名詞") || Contains(pos, "動詞") || Contains(pos, "形容詞")
  }

  predicate IsSingleHiragana(w: string)
  {
    |w| == 1 && IsHiragana(w[0])
  }

  predicate HasKanji(w: string)
  {
    exists i :: 0 <= i < |w| && IsKanji(w[i])
  }

  predicate IsKatakanaWord(w: string)
  {
    |w| > 0 && forall i :: 0 <= i < |w| ==> IsKatakana(w[i])
  }

  /** The predicate of `filterVocabulary`, its checks in the source's order. */
  predicate Keep(t: Token)
  {
    if HasExcludedPos(t.partOfSpeech) then false
    else if !HasContentPos(t.partOfSpeech) then false
    else if IsSingleHiragana(t.word) then false
    else HasKanji(t.word) || IsKatakanaWord(t.word)
  }

  /** `filterVocabulary`: the tokens that pass `Keep`, in input order, repeats included. */
  function FilterVocabulary(tokens: seq<Token>): (r: seq<Token>)
    ensures SubsequenceOf(r, tokens)
    ensures forall t :: t in r ==> t in tokens && Keep(t)
    ensures forall t :: t in tokens && Keep(t) ==> t in r
    ensures forall t :: t in tokens ==> multiset(r)[t] == if Keep(t) then multiset(tokens)[t] else 0
  {
    Filter(tokens, Keep)
  }

  /** What a surviving token looks like: a content part of speech and none of the
      excluded ones, and a word that holds a kanji or is all katakana. */
  lemma FilterVocabularySurvivors(tokens: seq<Token>, t: Token)
    requires t in FilterVocabulary(tokens)
    ensures !HasExcludedPos(t.partOfSpeech) && HasContentPos(t.partOfSpeech)
    ensures HasKanji(t.word) || IsKatakanaWord(t.word)
    ensures !IsSingleHiragana(t.word)
  {
  }

  /** An occurrence of a pattern contains an occurrence of any of its slices. */
  lemma ContainsSlice(s: string, pat: string, a: nat, b: nat)
    requires a <= b <= |pat| && Contains(s, pat)
    ensures Contains(s, pat[a..b])
  {
    var j := IndexOf(s, pat).value;
    assert s[j + a..j + b] == pat[a..b];
    assert OccursAt(s, pat[a..b], j + a);
  }

  /** Auxiliary verbs are dropped even though "助動詞" contains "動詞". */
  lemma AuxiliaryVerbsDropped(t: Token)
    requires Contains(t.partOfSpeech, "助動詞")
    ensures HasContentPos(t.partOfSpeech)
    ensures !Keep(t)
  {
    assert "助動詞"[1..3] == "動詞";
    ContainsSlice(t.partOfSpeech, "助動詞", 1, 3);
  }

  /** The single-hiragana check never decides anything on its own: such a word has no
      kanji and is not katakana, so the script check drops it too. */
  lemma SingleHiraganaCheckRedundant(w: string)
    requires IsSingleHiragana(w)
    ensures !HasKanji(w) && !IsKatakanaWord(w)
  {
  }

  predicate IsShiftedKatakana(c: char) { '\U{30A1}' <= c <= '\U{30F6}' }

  /** One character of `katakanaToHiragana`. */
  function ShiftChar(c: char): (r: char)
    ensures IsShiftedKatakana(c) ==> r as int == c as int - 0x60 && IsHiragana(r)
    ensures !IsShiftedKatakana(c) ==> r == c
    ensures !IsShiftedKatakana(r)
  {
    if IsShiftedKatakana(c) then (c as int - 0x60) as char else c
  }

  /** `katakanaToHiragana`: shift every character in U+30A1..U+30F6 down by 0x60. */
  function KatakanaToHiragana(s: string): (r: string)
    ensures |r| == |s|
    ensures forall i :: 0 <= i < |s| ==> r[i] == ShiftChar(s[i])
  {
    if s == [] then [] else [ShiftChar(s[0])] + KatakanaToHiragana(s[1..])
  }

  /** `getHiraganaReading` is the same conversion. */
  function GetHiraganaReading(reading: string): (r: string)
    ensures |r| == |reading|
    ensures forall i :: 0 <= i < |r| ==> !IsShiftedKatakana(r[i])
  {
    KatakanaToHiragana(reading)
  }

  /** The output holds no shiftable Katakana, so a second conversion changes nothing. */
  lemma {:induction false} KatakanaToHiraganaIdempotent(s: string)
    ensures KatakanaToHiragana(KatakanaToHiragana(s)) == KatakanaToHiragana(s)
  {
    var r := KatakanaToHiragana(s);
    var rr := KatakanaToHiragana(r);
    assert forall i :: 0 <= i < |r| ==> rr[i] == r[i];
  }

  lemma KatakanaToHiraganaExample()
    ensures KatakanaToHiragana("カタカナ") == "かたかな"
  {
    var r := KatakanaToHiragana("カタカナ");
    assert r[0] == 'か' && r[1] == 'た' && r[2] == 'か' && r[3] == 'な';
  }
}
