/** Vocabulary extraction from parsed subtitles: count every vocabulary token by its
    dictionary form with up to five sample sentences, keep the frequent words, rank them
    by frequency, look up at most a hundred of them and keep those with a meaning. */
module VocabularyExtractor {
  import opened Common
  import JapaneseProcessor
  import SrtParser
  import Dictionary
  import ProgressTracker

  type Token = JapaneseProcessor.Token
  type SubtitleEntry = SrtParser.SubtitleEntry

  /** The morphological analyzer run on one text; `None` when it throws. */
  type Analyzer = string -> Option<seq<JapaneseProcessor.AnalyzerToken>>

  /** What is gathered for one word: the reading first seen, up to five sentences and
      the number of occurrences. */
  datatype Candidate = Candidate(reading: string, contexts: seq<string>, frequency: nat)

  datatype ExtractedVocabulary = ExtractedVocabulary(
    word: string, reading: string, meaning: string, contextSentence: string, frequency: nat)

  /** One vocabulary token met in one entry: its dictionary form, its reading in hiragana
      and the entry's text. */
  datatype Occurrence = Occurrence(word: string, reading: string, text: string)

  const MaxContexts: nat := 5
  const MaxLookups: nat := 100
  const NotFound: string := "Translation not found"

  // ---------------------------------------------------------------------------
  // Occurrences

  function TokenOccurrence(t: Token, text: string): Occurrence
  {
    Occurrence(t.baseForm, JapaneseProcessor.GetHiraganaReading(t.reading), text)
  }

  function TokenOccurrences(tokens: seq<Token>, text: string): (r: seq<Occurrence>)
    ensures |r| == |tokens|
    ensures forall i :: 0 <= i < |tokens| ==> r[i] == TokenOccurrence(tokens[i], text)
  {
    seq(|tokens|, i requires 0 <= i < |tokens| => TokenOccurrence(tokens[i], text))
  }

  /** The vocabulary tokens of one entry, or `None` when tokenizing it fails. */
  function EntryTokens(e: SubtitleEntry, analyze: Analyzer): Option<seq<Token>>
  {
    match analyze(e.text)
    case None => None
    case Some(analyzed) => Some(JapaneseProcessor.FilterVocabulary(JapaneseProcessor.Tokenize(analyzed)))
  }

  function EntryOccurrences(e: SubtitleEntry, analyze: Analyzer): seq<Occurrence>
  {
    match EntryTokens(e, analyze)
    case None => []
    case Some(tokens) => TokenOccurrences(tokens, e.text)
  }

  /** All occurrences, entry by entry, token by token. */
  function Occurrences(entries: seq<SubtitleEntry>, analyze: Analyzer): seq<Occurrence>
  {
    if entries == [] then []
    else Occurrences(entries[..|entries| - 1], analyze) + EntryOccurrences(entries[|entries| - 1], analyze)
  }

  /** An entry whose tokenizing fails contributes nothing. */
  lemma FailedEntrySkipped(entries: seq<SubtitleEntry>, e: SubtitleEntry, analyze: Analyzer)
    requires analyze(e.text).None?
    ensures Occurrences(entries + [e], analyze) == Occurrences(entries, analyze)
  {
    assert (entries + [e])[..|entries|] == entries;
    assert Occurrences(entries, analyze) + [] == Occurrences(entries, analyze);
  }

  // ---------------------------------------------------------------------------
  // Aggregation

  /** The word map, as its insertion order and its table. */
  datatype Aggregation = Aggregation(order: seq<string>, table: map<string, Candidate>)

  /** One token of the inner loop. */
  function AddOccurrence(agg: Aggregation, o: Occurrence): Aggregation
  {
    if o.word in agg.table then
      var c := agg.table[o.word];
      var contexts := if |c.contexts| < MaxContexts then c.contexts + [o.text] else c.contexts;
      Aggregation(agg.order, agg.table[o.word := c.(frequency := c.frequency + 1, contexts := contexts)])
    else
      Aggregation(agg.order + [o.word], agg.table[o.word := Candidate(o.reading, [o.text], 1)])
  }

  function Fold(occs: seq<Occurrence>): Aggregation
  {
    if occs == [] then Aggregation([], map[])
    else AddOccurrence(Fold(occs[..|occs| - 1]), occs[|occs| - 1])
  }

  function Aggregated(entries: seq<SubtitleEntry>, analyze: Analyzer): Aggregation
  {
    Fold(Occurrences(entries, analyze))
  }

  function WordsOf(occs: seq<Occurrence>): (r: seq<string>)
    ensures |r| == |occs| && forall i :: 0 <= i < |occs| ==> r[i] == occs[i].word
  {
    seq(|occs|, i requires 0 <= i < |occs| => occs[i].word)
  }

  /** Number of occurrences of `w`. */
  function Count(occs: seq<Occurrence>, w: string): nat
  {
    if occs == [] then 0
    else Count(occs[..|occs| - 1], w) + (if occs[|occs| - 1].word == w then 1 else 0)
  }

  /** The texts of the occurrences of `w`, in order. */
  function TextsOf(occs: seq<Occurrence>, w: string): seq<string>
  {
    if occs == [] then []
    else TextsOf(occs[..|occs| - 1], w) + (if occs[|occs| - 1].word == w then [occs[|occs| - 1].text] else [])
  }

  function Take(s: seq<string>, n: nat): (r: seq<string>)
    ensures |r| == if |s| < n then |s| else n
    ensures r == s[..|r|]
  {
    if |s| < n then s else s[..n]
  }

  /** The position of the first occurrence of `w`. */
  function FirstPos(occs: seq<Occurrence>, w: string): (p: nat)
    requires w in WordsOf(occs)
    ensures p < |occs| && occs[p].word == w
    ensures forall j :: 0 <= j < p ==> occs[j].word != w
  {
    if occs[0].word == w then 0
    else
      assert WordsOf(occs) == [occs[0].word] + WordsOf(occs[1..]);
      1 + FirstPos(occs[1..], w)
  }

  /** The words gathered are exactly the words that occur, each listed once. */
  lemma {:induction false} FoldKeys(occs: seq<Occurrence>)
    ensures var agg := Fold(occs);
      (forall w :: w in agg.table <==> w in WordsOf(occs))
      && (forall w :: w in agg.order <==> w in agg.table)
      && Distinct(agg.order)
  {
    if occs != [] {
      var init, o := occs[..|occs| - 1], occs[|occs| - 1];
      FoldKeys(init);
      assert WordsOf(occs) == WordsOf(init) + [o.word];
    }
  }

  /** A word's frequency is its number of occurrences, and its sentences are the texts
      of its first five occurrences. */
  lemma {:induction false} FoldCounts(occs: seq<Occurrence>, w: string)
    requires w in Fold(occs).table
    ensures Fold(occs).table[w].frequency == Count(occs, w)
    ensures Fold(occs).table[w].contexts == Take(TextsOf(occs, w), MaxContexts)
  {
    var init, o := occs[..|occs| - 1], occs[|occs| - 1];
    FoldKeys(init);
    if w in Fold(init).table {
      FoldCounts(init, w);
    } else if o.word == w {
      FoldKeys(occs);
      assert w !in WordsOf(init);
      CountAbsent(init, w);
    }
  }

  lemma {:induction false} CountAbsent(occs: seq<Occurrence>, w: string)
    requires w !in WordsOf(occs)
    ensures Count(occs, w) == 0 && TextsOf(occs, w) == []
  {
    if occs != [] {
      var init := occs[..|occs| - 1];
      assert WordsOf(occs) == WordsOf(init) + [occs[|occs| - 1].word];
      CountAbsent(init, w);
    }
  }

  /** Appending an occurrence does not move first positions, and gives a new word its own. */
  lemma FirstPosSnoc(init: seq<Occurrence>, o: Occurrence, w: string)
    ensures w in WordsOf(init) ==>
      w in WordsOf(init + [o]) && FirstPos(init + [o], w) == FirstPos(init, w)
    ensures w !in WordsOf(init) && o.word == w ==>
      w in WordsOf(init + [o]) && FirstPos(init + [o], w) == |init|
  {
    var occs := init + [o];
    assert WordsOf(occs) == WordsOf(init) + [o.word];
    if w in WordsOf(init) {
      var p, q := FirstPos(init, w), FirstPos(occs, w);
      assert occs[p] == init[p];
      assert !(q < p) && !(p < q);
    } else if o.word == w {
      var q := FirstPos(occs, w);
      assert !(q < |init|);
    }
  }

  /** A word's reading is the reading of its first occurrence. */
  lemma {:induction false} FoldReading(occs: seq<Occurrence>, w: string)
    requires w in Fold(occs).table
    ensures w in WordsOf(occs) && Fold(occs).table[w].reading == occs[FirstPos(occs, w)].reading
  {
    FoldKeys(occs);
    var init, o := occs[..|occs| - 1], occs[|occs| - 1];
    assert init + [o] == occs;
    FoldKeys(init);
    FirstPosSnoc(init, o, w);
    if w in Fold(init).table {
      FoldReading(init, w);
    }
  }

  /** Words are listed in the order of their first occurrences. */
  lemma {:induction false} FoldOrder(occs: seq<Occurrence>)
    ensures var order := Fold(occs).order;
      forall a, b :: 0 <= a < b < |order| ==>
        order[a] in WordsOf(occs) && order[b] in WordsOf(occs)
        && FirstPos(occs, order[a]) < FirstPos(occs, order[b])
  {
    FoldKeys(occs);
    if occs != [] {
      var init, o := occs[..|occs| - 1], occs[|occs| - 1];
      assert init + [o] == occs;
      FoldKeys(init);
      FoldOrder(init);
      var order, order' := Fold(init).order, Fold(occs).order;
      forall a, b | 0 <= a < b < |order'|
        ensures FirstPos(occs, order'[a]) < FirstPos(occs, order'[b])
      {
        assert order'[a] == order[a];
        FirstPosSnoc(init, o, order'[a]);
        FirstPosSnoc(init, o, order'[b]);
        if b < |order| {
          assert order'[b] == order[b];
        }
      }
    }
  }

  /** Every gathered word has one to five sentences and a positive frequency. */
  predicate WellFormedCandidate(c: Candidate)
  {
    1 <= |c.contexts| <= MaxContexts && c.frequency >= 1
  }

  lemma {:induction false} FoldWellFormed(occs: seq<Occurrence>)
    ensures forall w :: w in Fold(occs).table ==> WellFormedCandidate(Fold(occs).table[w])
  {
    if occs != [] {
      FoldWellFormed(occs[..|occs| - 1]);
    }
  }

  // ---------------------------------------------------------------------------
  // The counting loop

  lemma OccurrencesPrefix(entries: seq<SubtitleEntry>, i: nat, analyze: Analyzer)
    requires i < |entries|
    ensures Occurrences(entries[..i + 1], analyze) == Occurrences(entries[..i], analyze) + EntryOccurrences(entries[i], analyze)
  {
    assert entries[..i + 1][..i] == entries[..i];
  }

  lemma FoldTokenStep(before: seq<Occurrence>, tokens: seq<Token>, j: nat, text: string)
    requires j < |tokens|
    ensures Fold(before + TokenOccurrences(tokens[..j + 1], text))
         == AddOccurrence(Fold(before + TokenOccurrences(tokens[..j], text)), TokenOccurrence(tokens[j], text))
  {
    var occs := before + TokenOccurrences(tokens[..j + 1], text);
    assert occs[..|occs| - 1] == before + TokenOccurrences(tokens[..j], text);
  }

  /** The map update for one token of the inner loop. */
  method CountOccurrence(order: seq<string>, table: map<string, Candidate>, word: string, reading: string, text: string)
    returns (order': seq<string>, table': map<string, Candidate>)
    ensures Aggregation(order', table') == AddOccurrence(Aggregation(order, table), Occurrence(word, reading, text))
  {
    order', table' := order, table;
    if word in table {
      var existing := table[word];
      var contexts := existing.contexts;
      if |contexts| < MaxContexts {
        contexts := contexts + [text];
      }
      table' := table[word := existing.(frequency := existing.frequency + 1, contexts := contexts)];
    } else {
      order' := order + [word];
      table' := table[word := Candidate(reading, [text], 1)];
    }
  }

  /** The inner loop: count the vocabulary tokens of one entry. */
  method CountTokens(ghost before: seq<Occurrence>, order: seq<string>, table: map<string, Candidate>,
                     tokens: seq<Token>, text: string)
    returns (order': seq<string>, table': map<string, Candidate>)
    requires Aggregation(order, table) == Fold(before)
    ensures Aggregation(order', table') == Fold(before + TokenOccurrences(tokens, text))
  {
    order', table' := order, table;
    assert before + TokenOccurrences(tokens[..0], text) == before;
    for j := 0 to |tokens|
      invariant Aggregation(order', table') == Fold(before + TokenOccurrences(tokens[..j], text))
    {
      FoldTokenStep(before, tokens, j, text);
      var reading := JapaneseProcessor.GetHiraganaReading(tokens[j].reading);
      order', table' := CountOccurrence(order', table', tokens[j].baseForm, reading, text);
    }
    assert tokens[..|tokens|] == tokens;
  }

  /** The first loop of `extractFromSubtitles`: tokenize each entry (skipping it when
      that throws) and count its vocabulary tokens into the word map. */
  method Aggregate(entries: seq<SubtitleEntry>, analyze: Analyzer)
    returns (order: seq<string>, table: map<string, Candidate>)
    ensures Aggregation(order, table) == Aggregated(entries, analyze)
  {
    order, table := [], map[];
    for i := 0 to |entries|
      invariant Aggregation(order, table) == Fold(Occurrences(entries[..i], analyze))
    {
      OccurrencesPrefix(entries, i, analyze);
      ghost var before := Occurrences(entries[..i], analyze);
      var analyzed := analyze(entries[i].text);
      if analyzed.None? {
        assert before + [] == before;
        continue;
      }
      var filtered := JapaneseProcessor.FilterVocabulary(JapaneseProcessor.Tokenize(analyzed.value));
      order, table := CountTokens(before, order, table, filtered, entries[i].text);
    }
    assert entries[..|entries|] == entries;
  }

  // ---------------------------------------------------------------------------
  // Frequency filter, ranking and cut

  /** One entry of the word map. */
  datatype Ranked = Ranked(word: string, data: Candidate)

  /** Every listed word has an entry in the table. */
  predicate Listable(agg: Aggregation)
  {
    forall w :: w in agg.order ==> w in agg.table
  }

  /** `Array.from(vocabularyMap.entries())`: the entries in insertion order. */
  function Listed(agg: Aggregation): (r: seq<Ranked>)
    requires Listable(agg)
    ensures |r| == |agg.order|
    ensures forall i :: 0 <= i < |r| ==> r[i] == Ranked(agg.order[i], agg.table[agg.order[i]])
  {
    seq(|agg.order|, i requires 0 <= i < |agg.order| => Ranked(agg.order[i], agg.table[agg.order[i]]))
  }

  function Frequent(xs: seq<Ranked>, minFrequency: int): seq<Ranked>
  {
    Filter(xs, (x: Ranked) => x.data.frequency >= minFrequency)
  }

  predicate SortedDesc(s: seq<Ranked>)
  {
    forall i, j :: 0 <= i < j < |s| ==> s[i].data.frequency >= s[j].data.frequency
  }

  /** The number of leading elements at least as frequent as `x`. */
  function SplitPoint(x: Ranked, s: seq<Ranked>): (k: nat)
    ensures k <= |s|
    ensures forall i :: 0 <= i < k ==> s[i].data.frequency >= x.data.frequency
    ensures k < |s| ==> s[k].data.frequency < x.data.frequency
  {
    if s == [] || s[0].data.frequency < x.data.frequency then 0 else 1 + SplitPoint(x, s[1..])
  }

  lemma InsertSorted(x: Ranked, s: seq<Ranked>, k: nat)
    requires SortedDesc(s) && k == SplitPoint(x, s)
    ensures SortedDesc(s[..k] + [x] + s[k..])
  {
    var r := s[..k] + [x] + s[k..];
    forall i, j | 0 <= i < j < |r|
      ensures r[i].data.frequency >= r[j].data.frequency
    {
      if j < k {
        assert r[i] == s[i] && r[j] == s[j];
      } else if j == k {
        assert r[i] == s[i] && r[j] == x;
      } else {
        assert r[j] == s[j - 1];
        assert s[k].data.frequency >= s[j - 1].data.frequency;
        if i < k {
          assert r[i] == s[i];
        } else if i == k {
          assert r[i] == x;
        } else {
          assert r[i] == s[i - 1];
        }
      }
    }
  }

  /** Insert after every element of at least the same frequency. */
  function Insert(x: Ranked, s: seq<Ranked>): (r: seq<Ranked>)
    requires SortedDesc(s)
    ensures SortedDesc(r)
    ensures multiset(r) == multiset(s) + multiset{x}
  {
    var k := SplitPoint(x, s);
    InsertSorted(x, s, k);
    assert s == s[..k] + s[k..];
    s[..k] + [x] + s[k..]
  }

  /** The stable sort by descending frequency (`sort` with `b.frequency - a.frequency`). */
  function SortByFrequency(xs: seq<Ranked>): (r: seq<Ranked>)
    ensures SortedDesc(r)
    ensures multiset(r) == multiset(xs)
  {
    if xs == [] then []
    else
      var init, last := xs[..|xs| - 1], xs[|xs| - 1];
      assert init + [last] == xs;
      Insert(last, SortByFrequency(init))
  }

  /** The elements of frequency `f`, in order. */
  function WithFrequency(s: seq<Ranked>, f: nat): seq<Ranked>
  {
    if s == [] then [] else (if s[0].data.frequency == f then [s[0]] else []) + WithFrequency(s[1..], f)
  }

  lemma {:induction false} WithFrequencyAppend(a: seq<Ranked>, b: seq<Ranked>, f: nat)
    ensures WithFrequency(a + b, f) == WithFrequency(a, f) + WithFrequency(b, f)
  {
    if a == [] {
      assert a + b == b;
    } else {
      var head := if a[0].data.frequency == f then [a[0]] else [];
      assert (a + b)[0] == a[0] && (a + b)[1..] == a[1..] + b;
      assert WithFrequency(a + b, f) == head + WithFrequency(a[1..] + b, f);
      WithFrequencyAppend(a[1..], b, f);
      assert WithFrequency(a, f) == head + WithFrequency(a[1..], f);
    }
  }

  lemma {:induction false} WithFrequencyAbsent(s: seq<Ranked>, f: nat)
    requires forall i :: 0 <= i < |s| ==> s[i].data.frequency < f
    ensures WithFrequency(s, f) == []
  {
    if s != [] {
      WithFrequencyAbsent(s[1..], f);
    }
  }

  lemma WithFrequencySplice(front: seq<Ranked>, x: Ranked, back: seq<Ranked>, f: nat)
    requires forall i :: 0 <= i < |back| ==> back[i].data.frequency < x.data.frequency
    ensures WithFrequency(front + [x] + back, f)
         == WithFrequency(front + back, f) + (if x.data.frequency == f then [x] else [])
  {
    var mid := if x.data.frequency == f then [x] else [];
    assert WithFrequency([x], f) == mid + WithFrequency([], f) by {
      assert [x][1..] == [];
    }
    assert mid + [] == mid;
    WithFrequencyAppend(front + [x], back, f);
    WithFrequencyAppend(front, [x], f);
    WithFrequencyAppend(front, back, f);
    var wFront, wBack := WithFrequency(front, f), WithFrequency(back, f);
    if x.data.frequency == f {
      WithFrequencyAbsent(back, f);
    }
    assert wFront + mid + wBack == wFront + wBack + mid;
  }

  /** Everything after the split point is less frequent than `x`. */
  lemma AfterSplitPoint(x: Ranked, s: seq<Ranked>)
    requires SortedDesc(s)
    ensures var k := SplitPoint(x, s);
      forall i :: 0 <= i < |s[k..]| ==> s[k..][i].data.frequency < x.data.frequency
  {
    var k := SplitPoint(x, s);
    forall i | 0 <= i < |s[k..]|
      ensures s[k..][i].data.frequency < x.data.frequency
    {
      assert s[k..][i] == s[k + i];
      assert s[k].data.frequency >= s[k + i].data.frequency;
    }
  }

  /** `Insert` puts `x` at the split point. */
  lemma InsertAt(x: Ranked, s: seq<Ranked>)
    requires SortedDesc(s)
    ensures var k := SplitPoint(x, s); Insert(x, s) == s[..k] + [x] + s[k..]
  {
  }

  lemma InsertStable(x: Ranked, s: seq<Ranked>, f: nat)
    requires SortedDesc(s)
    ensures WithFrequency(Insert(x, s), f) == WithFrequency(s, f) + (if x.data.frequency == f then [x] else [])
  {
    var k := SplitPoint(x, s);
    var front, back := s[..k], s[k..];
    assert s == front + back;
    InsertAt(x, s);
    AfterSplitPoint(x, s);
    WithFrequencySplice(front, x, back, f);
  }

  /** Words of equal frequency keep their relative order. */
  lemma {:induction false} SortStable(xs: seq<Ranked>, f: nat)
    ensures WithFrequency(SortByFrequency(xs), f) == WithFrequency(xs, f)
  {
    if xs != [] {
      var init, last := xs[..|xs| - 1], xs[|xs| - 1];
      SortStable(init, f);
      InsertStable(last, SortByFrequency(init), f);
      assert init + [last] == xs;
      WithFrequencyAppend(init, [last], f);
      assert [last][1..] == [];
    }
  }

  /** The words that meet the minimum frequency, most frequent first. */
  function Candidates(agg: Aggregation, minFrequency: int): seq<Ranked>
    requires Listable(agg)
  {
    SortByFrequency(Frequent(Listed(agg), minFrequency))
  }

  /** `frequentWords.slice(0, 100)` */
  function ToProcess(agg: Aggregation, minFrequency: int): (r: seq<Ranked>)
    requires Listable(agg)
    ensures |r| <= MaxLookups
  {
    var c := Candidates(agg, minFrequency);
    if |c| <= MaxLookups then c else c[..MaxLookups]
  }

  /** The gathered word map lists every word it holds. */
  lemma AggregatedListable(entries: seq<SubtitleEntry>, analyze: Analyzer)
    ensures var agg := Aggregated(entries, analyze);
      Listable(agg) && forall w :: w in agg.table ==> w in agg.order
  {
    FoldKeys(Occurrences(entries, analyze));
  }

  /** The ranked candidates are exactly the listed words of at least the minimum
      frequency, each with its gathered data. */
  lemma CandidatesMembers(agg: Aggregation, minFrequency: int, x: Ranked)
    requires Listable(agg)
    ensures x in Candidates(agg, minFrequency) <==>
      x.word in agg.order && x.data == agg.table[x.word] && x.data.frequency >= minFrequency
  {
    var listed := Listed(agg);
    var frequent := Frequent(listed, minFrequency);
    assert x in listed <==> x.word in agg.order && x.data == agg.table[x.word] by {
      if x.word in agg.order && x.data == agg.table[x.word] {
        var i :| 0 <= i < |agg.order| && agg.order[i] == x.word;
        assert listed[i] == x;
      }
    }
    assert x in frequent <==> x in listed && x.data.frequency >= minFrequency;
    var c := Candidates(agg, minFrequency);
    assert multiset(c) == multiset(frequent);
    assert (x in c) == (x in multiset(c)) && (x in frequent) == (x in multiset(frequent));
  }

  /** Words of equal frequency are ranked in the order the word map lists them. */
  lemma CandidatesStable(agg: Aggregation, minFrequency: int, f: nat)
    requires Listable(agg)
    ensures WithFrequency(Candidates(agg, minFrequency), f) == WithFrequency(Frequent(Listed(agg), minFrequency), f)
  {
    SortStable(Frequent(Listed(agg), minFrequency), f);
  }

  // ---------------------------------------------------------------------------
  // The lookup loop

  /** A meaning the extractor keeps: truthy and not the "not found" marker. */
  predicate Accept(m: Option<string>)
  {
    Dictionary.Truthy(m) && m.value != NotFound
  }

  function Head(s: seq<string>): string
  {
    if s == [] then [] else s[0]
  }

  function Vocab(x: Ranked, meaning: string): ExtractedVocabulary
  {
    ExtractedVocabulary(x.word, x.data.reading, meaning, Head(x.data.contexts), x.data.frequency)
  }

  /** The words kept by the lookup loop, given the meaning found for each. */
  function Selected(xs: seq<Ranked>, meanings: seq<Option<string>>): seq<ExtractedVocabulary>
    requires |xs| == |meanings|
  {
    if xs == [] then []
    else
      var n := |xs| - 1;
      Selected(xs[..n], meanings[..n]) + (if Accept(meanings[n]) then [Vocab(xs[n], meanings[n].value)] else [])
  }

  /** The words of ranked candidates; `WordsOf` and `VocabWords` are the same projection
      over the other two record types that carry a word. */
  function RankedWords(xs: seq<Ranked>): (r: seq<string>)
    ensures |r| == |xs| && forall i :: 0 <= i < |xs| ==> r[i] == xs[i].word
  {
    seq(|xs|, i requires 0 <= i < |xs| => xs[i].word)
  }

  /** The words of extracted vocabulary items. */
  function VocabWords(vs: seq<ExtractedVocabulary>): (r: seq<string>)
    ensures |r| == |vs| && forall i :: 0 <= i < |vs| ==> r[i] == vs[i].word
  {
    seq(|vs|, i requires 0 <= i < |vs| => vs[i].word)
  }

  /** Exactly the candidates with an accepted meaning are kept, each with that meaning,
      and in candidate order. */
  lemma SelectedSpec(xs: seq<Ranked>, meanings: seq<Option<string>>)
    requires |xs| == |meanings|
    ensures forall i :: 0 <= i < |xs| && Accept(meanings[i]) ==> Vocab(xs[i], meanings[i].value) in Selected(xs, meanings)
    ensures forall v :: v in Selected(xs, meanings) ==>
      exists i :: 0 <= i < |xs| && Accept(meanings[i]) && v == Vocab(xs[i], meanings[i].value)
    ensures SubsequenceOf(VocabWords(Selected(xs, meanings)), RankedWords(xs))
  {
    SelectedKeepsAccepted(xs, meanings);
    SelectedOnlyAccepted(xs, meanings);
    SelectedInOrder(xs, meanings);
  }

  lemma {:induction false} SelectedKeepsAccepted(xs: seq<Ranked>, meanings: seq<Option<string>>)
    requires |xs| == |meanings|
    ensures forall i :: 0 <= i < |xs| && Accept(meanings[i]) ==> Vocab(xs[i], meanings[i].value) in Selected(xs, meanings)
  {
    if xs != [] {
      var n := |xs| - 1;
      var init, ms := xs[..n], meanings[..n];
      SelectedKeepsAccepted(init, ms);
      forall i | 0 <= i < n && Accept(meanings[i])
        ensures Vocab(xs[i], meanings[i].value) in Selected(xs, meanings)
      {
        assert xs[i] == init[i] && meanings[i] == ms[i];
      }
    }
  }

  lemma {:induction false} SelectedOnlyAccepted(xs: seq<Ranked>, meanings: seq<Option<string>>)
    requires |xs| == |meanings|
    ensures forall v :: v in Selected(xs, meanings) ==>
      exists i :: 0 <= i < |xs| && Accept(meanings[i]) && v == Vocab(xs[i], meanings[i].value)
  {
    if xs != [] {
      var n := |xs| - 1;
      var init, ms := xs[..n], meanings[..n];
      SelectedOnlyAccepted(init, ms);
      var prev := Selected(init, ms);
      var added := if Accept(meanings[n]) then [Vocab(xs[n], meanings[n].value)] else [];
      forall v | v in prev + added
        ensures exists i :: 0 <= i < |xs| && Accept(meanings[i]) && v == Vocab(xs[i], meanings[i].value)
      {
        if v in prev {
          var i :| 0 <= i < |init| && Accept(ms[i]) && v == Vocab(init[i], ms[i].value);
          assert xs[i] == init[i] && meanings[i] == ms[i];
        } else {
          assert v == Vocab(xs[n], meanings[n].value);
        }
      }
    }
  }

  lemma {:induction false} SelectedInOrder(xs: seq<Ranked>, meanings: seq<Option<string>>)
    requires |xs| == |meanings|
    ensures SubsequenceOf(VocabWords(Selected(xs, meanings)), RankedWords(xs))
  {
    if xs != [] {
      var n := |xs| - 1;
      var init, ms := xs[..n], meanings[..n];
      SelectedInOrder(init, ms);
      var keep := Accept(meanings[n]);
      var prev := Selected(init, ms);
      var added := if keep then [Vocab(xs[n], meanings[n].value)] else [];
      SubsequenceStep(VocabWords(prev), RankedWords(init), xs[n].word, keep);
      assert VocabWords(prev + added) == VocabWords(prev) + (if keep then [xs[n].word] else []);
      assert RankedWords(xs) == RankedWords(init) + [xs[n].word];
    }
  }

  lemma SelectedPrefix(xs: seq<Ranked>, meanings: seq<Option<string>>, m: Option<string>)
    requires |meanings| < |xs|
    ensures var i := |meanings|;
      Selected(xs[..i + 1], meanings + [m])
      == Selected(xs[..i], meanings) + (if Accept(m) then [Vocab(xs[i], m.value)] else [])
  {
    var i := |meanings|;
    assert xs[..i + 1][..i] == xs[..i];
    assert (meanings + [m])[..i] == meanings;
  }

  /** Every kept word carries its true number of occurrences, at least the minimum, the
      reading and sentence of its first occurrence, and an accepted meaning. */
  lemma ExtractedWord(entries: seq<SubtitleEntry>, analyze: Analyzer, minFrequency: int,
                      meanings: seq<Option<string>>, v: ExtractedVocabulary)
    requires Listable(Aggregated(entries, analyze))
    requires |meanings| == |ToProcess(Aggregated(entries, analyze), minFrequency)|
    requires v in Selected(ToProcess(Aggregated(entries, analyze), minFrequency), meanings)
    ensures var occs := Occurrences(entries, analyze);
      v.word in WordsOf(occs)
      && v.frequency == Count(occs, v.word) && v.frequency >= minFrequency
      && v.reading == occs[FirstPos(occs, v.word)].reading
      && v.contextSentence == occs[FirstPos(occs, v.word)].text
      && v.meaning != [] && v.meaning != NotFound
  {
    var occs := Occurrences(entries, analyze);
    var agg := Fold(occs);
    var toProcess := ToProcess(agg, minFrequency);
    SelectedSpec(toProcess, meanings);
    var i :| 0 <= i < |toProcess| && Accept(meanings[i]) && v == Vocab(toProcess[i], meanings[i].value);
    var x := toProcess[i];
    assert x in Candidates(agg, minFrequency);
    CandidatesMembers(agg, minFrequency, x);
    FoldKeys(occs);
    FoldCounts(occs, x.word);
    FoldReading(occs, x.word);
    FirstText(occs, x.word);
  }

  /** The first of a word's texts is the text of its first occurrence. */
  lemma {:induction false} FirstText(occs: seq<Occurrence>, w: string)
    requires w in WordsOf(occs)
    ensures TextsOf(occs, w) != [] && TextsOf(occs, w)[0] == occs[FirstPos(occs, w)].text
    ensures Count(occs, w) >= 1
  {
    var init, o := occs[..|occs| - 1], occs[|occs| - 1];
    assert init + [o] == occs;
    FirstPosSnoc(init, o, w);
    if w in WordsOf(init) {
      FirstText(init, w);
    } else {
      CountAbsent(init, w);
    }
  }

  /** The progress message of the i-th lookup. */
  function LookupMessage(word: string, i: nat, n: nat): string
  {
    "Looking up: \"" + word + "\" (" + IntToDecimal(i) + "/" + IntToDecimal(n) + ")"
  }

  /** The tracker record after `start` and `done` lookup updates. */
  function RecordAfter(fileId: string, toProcess: seq<Ranked>, done: nat, now: int): ProgressTracker.Progress
    requires done <= |toProcess|
  {
    if done == 0 then ProgressTracker.Progress(fileId, ProgressTracker.Starting, 0, |toProcess|, ProgressTracker.StartMessage, now)
    else ProgressTracker.Progress(fileId, ProgressTracker.LookingUp, done, |toProcess|,
                                  LookupMessage(toProcess[done - 1].word, done, |toProcess|), now)
  }

  /** The tracker record moves on by one lookup. */
  lemma RecordStep(fileId: string, toProcess: seq<Ranked>, i: nat, now: int)
    requires i < |toProcess|
    ensures RecordAfter(fileId, toProcess, i + 1, now)
         == RecordAfter(fileId, toProcess, i, now).(stage := ProgressTracker.LookingUp, currentWord := i + 1,
                                                   message := LookupMessage(toProcess[i].word, i + 1, |toProcess|))
  {
  }

  /** JavaScript's `if (fileId)`: a missing or empty id turns progress reporting off. */
  predicate Tracked(fileId: Option<string>)
  {
    fileId.Some? && fileId.value != []
  }

  lemma UpdateTwice<K, V>(m: map<K, V>, k: K, a: V, b: V)
    ensures m[k := a][k := b] == m[k := b]
  {
  }

  /** The progress report before the i-th lookup. */
  method ReportLookup(tracker: ProgressTracker.Tracker, fileId: string, toProcess: seq<Ranked>, i: nat,
                      now: int, ghost base: map<string, ProgressTracker.Progress>)
    requires i < |toProcess|
    requires tracker.progress == base[fileId := RecordAfter(fileId, toProcess, i, now)]
    modifies tracker
    ensures tracker.progress == base[fileId := RecordAfter(fileId, toProcess, i + 1, now)]
  {
    RecordStep(fileId, toProcess, i, now);
    tracker.Update(fileId, ProgressTracker.LookingUp, i + 1, LookupMessage(toProcess[i].word, i + 1, |toProcess|));
    assert base[fileId := RecordAfter(fileId, toProcess, i, now)][fileId := RecordAfter(fileId, toProcess, i + 1, now)]
        == base[fileId := RecordAfter(fileId, toProcess, i + 1, now)];
  }

  /** Every truthy meaning found so far is in the session cache under its word. */
  ghost predicate Remembered(toProcess: seq<Ranked>, meanings: seq<Option<string>>, session: map<string, string>)
    requires |meanings| <= |toProcess|
  {
    forall k :: 0 <= k < |meanings| && Dictionary.Truthy(meanings[k]) ==>
      toProcess[k].word in session && session[toProcess[k].word] == meanings[k].value
  }

  lemma RememberedStep(toProcess: seq<Ranked>, meanings: seq<Option<string>>, session: map<string, string>,
                       session': map<string, string>, m: Option<string>)
    requires |meanings| < |toProcess| && Remembered(toProcess, meanings, session)
    requires forall k :: k in session ==> k in session' && session'[k] == session[k]
    requires Dictionary.Truthy(m) ==> toProcess[|meanings|].word in session' && session'[toProcess[|meanings|].word] == m.value
    ensures Remembered(toProcess, meanings + [m], session')
  {
    var ms := meanings + [m];
    forall k | 0 <= k < |ms| && Dictionary.Truthy(ms[k])
      ensures toProcess[k].word in session' && session'[toProcess[k].word] == ms[k].value
    {
      if k < |meanings| {
        assert ms[k] == meanings[k];
      }
    }
  }

  /** What the lookup loop keeps true: no word's answer has changed since the loop began,
      each meaning found so far is the answer its word had then, and every truthy one is in
      the session cache. */
  ghost predicate LookedUp(toProcess: seq<Ranked>, meanings: seq<Option<string>>,
                           session: map<string, string>, store: map<string, string>,
                           session0: map<string, string>, store0: map<string, string>,
                           service: string -> Dictionary.Response, storeUp: string -> bool)
    requires |meanings| <= |toProcess|
  {
    (forall w :: Dictionary.Answer(session, store, w, service, storeUp)
              == Dictionary.Answer(session0, store0, w, service, storeUp))
    && (forall k :: 0 <= k < |meanings| ==>
          meanings[k] == Dictionary.Answer(session0, store0, toProcess[k].word, service, storeUp))
    && Remembered(toProcess, meanings, session)
  }

  /** One lookup keeps `LookedUp`. */
  lemma LookedUpStep(toProcess: seq<Ranked>, meanings: seq<Option<string>>,
                     session: map<string, string>, store: map<string, string>,
                     session0: map<string, string>, store0: map<string, string>,
                     service: string -> Dictionary.Response, storeUp: string -> bool, o: Dictionary.Outcome)
    requires |meanings| < |toProcess|
    requires LookedUp(toProcess, meanings, session, store, session0, store0, service, storeUp)
    requires var w := toProcess[|meanings|].word;
      o == Dictionary.LookupOutcome(session, store, w, service(w), storeUp(w))
    ensures LookedUp(toProcess, meanings + [o.meaning], o.session, o.store, session0, store0, service, storeUp)
  {
    var w := toProcess[|meanings|].word;
    Dictionary.LookupKeepsAnswers(session, store, w, service, storeUp);
    Dictionary.LookupCaches(session, store, w, service(w), storeUp(w), service(w), storeUp(w));
    RememberedStep(toProcess, meanings, session, o.session, o.meaning);
    assert o.meaning == Dictionary.Answer(session0, store0, w, service, storeUp);
  }

  /** The counting loop followed by the frequency filter, the ranking and the cut. */
  method WordsToProcess(entries: seq<SubtitleEntry>, minFrequency: int, analyze: Analyzer)
    returns (toProcess: seq<Ranked>)
    ensures Listable(Aggregated(entries, analyze))
    ensures toProcess == ToProcess(Aggregated(entries, analyze), minFrequency)
  {
    var order, table := Aggregate(entries, analyze);
    AggregatedListable(entries, analyze);
    toProcess := ToProcess(Aggregation(order, table), minFrequency);
  }

  /** The second loop of `extractFromSubtitles`: report progress, look each ranked word
      up and keep it when its meaning is accepted. `meanings` records what each lookup gave. */
  method LookupAll(toProcess: seq<Ranked>, fileId: Option<string>, dict: Dictionary.Dictionary,
                   service: string -> Dictionary.Response, storeUp: string -> bool, tracker: ProgressTracker.Tracker, now: int)
    returns (vocabulary: seq<ExtractedVocabulary>, ghost meanings: seq<Option<string>>)
    requires Tracked(fileId) ==>
      fileId.value in tracker.progress && tracker.progress[fileId.value] == RecordAfter(fileId.value, toProcess, 0, now)
    modifies dict, tracker
    ensures |meanings| == |toProcess| && vocabulary == Selected(toProcess, meanings)
    ensures forall k :: 0 <= k < |toProcess| ==>
      meanings[k] == Dictionary.Answer(old(dict.session), old(dict.store), toProcess[k].word, service, storeUp)
    ensures Remembered(toProcess, meanings, dict.session)
    ensures Tracked(fileId) ==>
      tracker.progress == old(tracker.progress)[fileId.value := RecordAfter(fileId.value, toProcess, |toProcess|, now)]
    ensures !Tracked(fileId) ==> tracker.progress == old(tracker.progress)
  {
    vocabulary, meanings := [], [];
    ghost var base := tracker.progress;
    if Tracked(fileId) {
      assert base == base[fileId.value := RecordAfter(fileId.value, toProcess, 0, now)];
    }
    for i := 0 to |toProcess|
      invariant |meanings| == i && vocabulary == Selected(toProcess[..i], meanings)
      invariant LookedUp(toProcess, meanings, dict.session, dict.store, old(dict.session), old(dict.store),
                         service, storeUp)
      invariant Tracked(fileId) ==> tracker.progress == base[fileId.value := RecordAfter(fileId.value, toProcess, i, now)]
      invariant !Tracked(fileId) ==> tracker.progress == base
    {
      var word := toProcess[i].word;
      if Tracked(fileId) {
        ReportLookup(tracker, fileId.value, toProcess, i, now, base);
      }
      ghost var sessionBefore, storeBefore := dict.session, dict.store;
      var meaning := dict.Lookup(word, service, storeUp(word));
      LookedUpStep(toProcess, meanings, sessionBefore, storeBefore, old(dict.session), old(dict.store),
                   service, storeUp, Dictionary.Outcome(meaning, dict.session, dict.store));
      SelectedPrefix(toProcess, meanings, meaning);
      if Accept(meaning) {
        vocabulary := vocabulary + [Vocab(toProcess[i], meaning.value)];
      }
      meanings := meanings + [meaning];
    }
    assert toProcess[..|toProcess|] == toProcess;
  }

  /** `extractFromSubtitles`. The analyzer, the dictionary with its service and store
      availability, the tracker and the clock reading are inputs. */
  method ExtractFromSubtitles(
    entries: seq<SubtitleEntry>, minFrequency: int, fileId: Option<string>, analyze: Analyzer,
    dict: Dictionary.Dictionary, service: string -> Dictionary.Response, storeUp: string -> bool,
    tracker: ProgressTracker.Tracker, now: int)
    returns (vocabulary: seq<ExtractedVocabulary>, ghost meanings: seq<Option<string>>)
    modifies dict, tracker
    ensures Listable(Aggregated(entries, analyze))
    ensures var toProcess := ToProcess(Aggregated(entries, analyze), minFrequency);
      |meanings| == |toProcess| && vocabulary == Selected(toProcess, meanings)
      && (forall k :: 0 <= k < |toProcess| ==>
            meanings[k] == Dictionary.Answer(old(dict.session), old(dict.store), toProcess[k].word, service, storeUp))
      && Remembered(toProcess, meanings, dict.session)
      && (Tracked(fileId) ==>
            tracker.progress == old(tracker.progress)[fileId.value := RecordAfter(fileId.value, toProcess, |toProcess|, now)])
    ensures !Tracked(fileId) ==> tracker.progress == old(tracker.progress)
  {
    var toProcess := WordsToProcess(entries, minFrequency, analyze);
    ghost var before := tracker.progress;
    if Tracked(fileId) {
      tracker.Start(fileId.value, |toProcess|, now);
    }
    dict.Initialize();
    vocabulary, meanings := LookupAll(toProcess, fileId, dict, service, storeUp, tracker, now);
    if Tracked(fileId) {
      UpdateTwice(before, fileId.value, RecordAfter(fileId.value, toProcess, 0, now),
                  RecordAfter(fileId.value, toProcess, |toProcess|, now));
    }
  }

  // ---------------------------------------------------------------------------
  // Statistics

  datatype Statistics = Statistics(totalWords: int, uniqueWords: nat)

  function TotalFrequency(vs: seq<ExtractedVocabulary>): nat
  {
    if vs == [] then 0 else TotalFrequency(vs[..|vs| - 1]) + vs[|vs| - 1].frequency
  }

  /** `getStatistics` without the rounded average. */
  function GetStatistics(vs: seq<ExtractedVocabulary>): (r: Statistics)
    ensures r.uniqueWords == |vs|
  {
    Statistics(TotalFrequency(vs), |vs|)
  }

  /** When every word occurs at least `m` times, the total is at least `m` per word. */
  lemma {:induction false} StatisticsBound(vs: seq<ExtractedVocabulary>, m: nat)
    requires forall i :: 0 <= i < |vs| ==> vs[i].frequency >= m
    ensures GetStatistics(vs).totalWords >= m * GetStatistics(vs).uniqueWords
  {
    if vs != [] {
      StatisticsBound(vs[..|vs| - 1], m);
    }
  }

  /** The total of a list is the sum of the totals of its parts. */
  lemma {:induction false} TotalFrequencyAppend(a: seq<ExtractedVocabulary>, b: seq<ExtractedVocabulary>)
    ensures TotalFrequency(a + b) == TotalFrequency(a) + TotalFrequency(b)
  {
    if b != [] {
      var b' := b[..|b| - 1];
      assert (a + b)[..|a + b| - 1] == a + b';
      TotalFrequencyAppend(a, b');
    } else {
      assert a + b == a;
    }
  }
}
