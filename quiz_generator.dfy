/** Quiz building from stored vocabulary: sample distinct distractors, shuffle with
    Fisher-Yates, build one question of a given kind per selected item, or round-robin
    the four kinds. `Math.random` is modelled by nondeterministic choice, so every
    contract holds whatever the random draws are. */
module QuizGenerator {
  import opened Common

  /** The fields of a stored vocabulary row that quizzes read. */
  datatype Vocabulary = Vocabulary(
    id: string, word: string, reading: string, meaning: string, contextSentence: string)

  datatype Kind = Recognition | Meaning | Context | Reverse

  datatype QuizQuestion = QuizQuestion(
    id: string, kind: Kind, question: string, correctAnswer: string, options: seq<string>,
    vocabularyId: string)

  /** Every question offers at most four options. */
  const OptionCount: nat := 4

  function KindName(k: Kind): string
  {
    match k
    case Recognition => "recognition"
    case Meaning => "meaning"
    case Context => "context"
    case Reverse => "reverse"
  }

  /** The `switch` of `generateQuiz`: an unknown type string falls back to a meaning question. */
  function KindOf(quizType: string): (k: Kind)
    ensures KindName(k) == quizType || k == Meaning
  {
    if quizType == "recognition" then Recognition
    else if quizType == "context" then Context
    else if quizType == "reverse" then Reverse
    else Meaning
  }

  /** Every kind is selected by its own name. */
  lemma KindOfName(k: Kind)
    ensures KindOf(KindName(k)) == k
  {
    match k
    case Recognition =>
    case Meaning =>
      assert KindName(k) != "recognition" && KindName(k) != "context" && KindName(k) != "reverse" by {
        assert KindName(k)[0] == 'm';
      }
    case Context =>
      assert KindName(k) != "recognition" by {
        assert KindName(k)[0] == 'c';
      }
    case Reverse =>
      assert KindName(k) != "recognition" && KindName(k) != "context" by {
        assert KindName(k)[0] == 'r' && KindName(k)[2] == 'v';
      }
  }

  /** The field a question of kind `k` asks for. */
  function Answer(k: Kind, v: Vocabulary): string
  {
    match k
    case Recognition => v.reading
    case Meaning => v.meaning
    case Context => v.word
    case Reverse => v.word
  }

  /** `allVocab.map(v => v.<field>)`: the field asked for, over all vocabulary. */
  function Field(k: Kind, all: seq<Vocabulary>): (r: seq<string>)
    ensures |r| == |all| && forall i :: 0 <= i < |all| ==> r[i] == Answer(k, all[i])
  {
    seq(|all|, i requires 0 <= i < |all| => Answer(k, all[i]))
  }

  /** `String.prototype.replace` with a string pattern: only the first occurrence is replaced. */
  function ReplaceFirst(s: string, pat: string, rep: string): (r: string)
    ensures IndexOf(s, pat).None? ==> r == s
    ensures IndexOf(s, pat).Some? ==>
      var k := IndexOf(s, pat).value;
      |r| == |s| - |pat| + |rep| && r[..k] == s[..k] && r[k..k + |rep|] == rep
      && r[k + |rep|..] == s[k + |pat|..]
  {
    match IndexOf(s, pat)
    case None => s
    case Some(k) =>
      var r := s[..k] + rep + s[k + |pat|..];
      assert r[..k] == s[..k] && r[k..k + |rep|] == rep && r[k + |rep|..] == s[k + |pat|..];
      r
  }

  /** Putting the pattern back where the blank is gives the sentence again, and no
      earlier position held the pattern. */
  lemma ReplaceFirstRestores(s: string, pat: string, rep: string)
    requires Contains(s, pat)
    ensures var k := IndexOf(s, pat).value;
      var r := ReplaceFirst(s, pat, rep);
      k + |rep| <= |r| && s == r[..k] + pat + r[k + |rep|..]
      && forall j :: 0 <= j < k ==> !OccursAt(s, pat, j)
  {
    var k := IndexOf(s, pat).value;
    assert s == s[..k] + s[k..k + |pat|] + s[k + |pat|..];
  }

  /** The question text of each kind. */
  function Prompt(k: Kind, v: Vocabulary): string
  {
    match k
    case Recognition => "What is the reading of: " + v.word + "?"
    case Meaning => "What does " + v.word + " (" + v.reading + ") mean?"
    case Context => "Fill in the blank: " + ReplaceFirst(v.contextSentence, v.word, "___")
    case Reverse => "How do you say \"" + v.meaning + "\" in Japanese?"
  }

  /** The values other than the answer that may serve as distractors. */
  function Pool(correct: string, all: seq<string>): set<string>
  {
    (set o | o in all) - {correct}
  }

  function Min(a: int, b: int): int
  {
    if a < b then a else b
  }

  /** What `generateOptions` promises: the answer, no repeats, nothing from outside the
      answer and the candidates, and as many options as asked for or as there are. */
  predicate ValidOptions(options: seq<string>, correct: string, all: seq<string>, count: int)
  {
    correct in options && Distinct(options)
    && (forall o :: o in options ==> o == correct || o in all)
    && (count >= 1 ==> |options| == Min(count, 1 + |Pool(correct, all)|))
  }

  lemma OptionsSize(options: seq<string>, correct: string, all: seq<string>, count: int)
    requires count >= 1 && 1 <= |options| <= count && options[0] == correct && Distinct(options)
    requires forall o :: o in options ==> o == correct || o in all
    requires |options| < count ==> forall o :: o in all ==> o in options
    ensures |options| == Min(count, 1 + |Pool(correct, all)|)
  {
    var s := set o | o in options;
    var full := {correct} + Pool(correct, all);
    DistinctCard(options);
    assert s <= full;
    assert {correct} * Pool(correct, all) == {};
    assert |full| == 1 + |Pool(correct, all)|;
    assert full == s + (full - s) && s * (full - s) == {};
    assert |full| == |s| + |full - s|;
    if |options| < count {
      assert full <= s;
      assert full - s == {};
    }
  }

  /** `splice(index, 1)` removes that one position and keeps every other element. */
  lemma SpliceKeepsOthers(filtered: seq<string>, index: nat)
    requires index < |filtered|
    ensures var rest := filtered[..index] + filtered[index + 1..];
      |rest| == |filtered| - 1
      && (forall k :: 0 <= k < |filtered| && k != index ==> filtered[k] in rest)
      && (forall x :: x in rest ==> x in filtered)
  {
    var rest := filtered[..index] + filtered[index + 1..];
    forall k | 0 <= k < |filtered| && k != index
      ensures filtered[k] in rest
    {
      if k < index {
        assert rest[k] == filtered[k];
      } else {
        assert rest[k - 1] == filtered[k];
      }
    }
  }

  /** What holds while options are drawn: the answer comes first, the options are distinct
      and come from the candidates, and every other candidate is either already an option
      or still waiting to be drawn. */
  predicate Drawing(options: seq<string>, filtered: seq<string>, correct: string, all: seq<string>, count: int)
  {
    1 <= |options| && options[0] == correct && Distinct(options)
    && (count >= 1 ==> |options| <= count)
    && (forall o :: o in options ==> o == correct || o in all)
    && (forall o :: o in filtered ==> o in all && o != correct)
    && (forall o :: o in all && o != correct ==> o in options || o in filtered)
  }

  /** One draw: the candidate at `index` is added unless already held, and removed. */
  lemma DrawStep(options: seq<string>, filtered: seq<string>, index: nat, correct: string, all: seq<string>, count: int)
    requires Drawing(options, filtered, correct, all, count)
    requires |options| < count && index < |filtered|
    ensures var o := filtered[index];
      Drawing(if o in options then options else options + [o],
              filtered[..index] + filtered[index + 1..], correct, all, count)
  {
    var o := filtered[index];
    var next := if o in options then options else options + [o];
    var rest := filtered[..index] + filtered[index + 1..];
    SpliceKeepsOthers(filtered, index);
    assert forall x :: x in next <==> x in options || x == o;
    forall x | x in all && x != correct
      ensures x in next || x in rest
    {
      if x !in options && x !in rest {
        var k :| 0 <= k < |filtered| && filtered[k] == x;
        assert k == index;
      }
    }
  }

  /** When the candidates run out or `count` options are held, the options are valid. */
  lemma DrawDone(options: seq<string>, filtered: seq<string>, correct: string, all: seq<string>, count: int)
    requires Drawing(options, filtered, correct, all, count)
    requires |options| >= count || |filtered| == 0
    ensures ValidOptions(options, correct, all, count)
  {
    assert correct in options;
    if count >= 1 {
      OptionsSize(options, correct, all, count);
    }
  }

  /** `generateOptions`: start from the answer, then draw candidates other than the
      answer at random, removing each draw, until `count` distinct options are held or
      the candidates run out. */
  method GenerateOptions(correct: string, all: seq<string>, count: int) returns (options: seq<string>)
    ensures |options| >= 1 && options[0] == correct
    ensures ValidOptions(options, correct, all, count)
  {
    options := [correct];
    var filtered := Filter(all, (o: string) => o != correct);
    while |options| < count && |filtered| > 0
      invariant Drawing(options, filtered, correct, all, count)
      decreases |filtered|
    {
      var index :| 0 <= index < |filtered|;
      DrawStep(options, filtered, index, correct, all, count);
      var o := filtered[index];
      if o !in options {
        options := options + [o];
      }
      filtered := filtered[..index] + filtered[index + 1..];
    }
    DrawDone(options, filtered, correct, all, count);
  }

  /** `shuffleArray`: Fisher-Yates on a copy, swapping each position from the back with
      a random position at or before it. */
  method Shuffle<T>(a: seq<T>) returns (r: seq<T>)
    ensures |r| == |a| && multiset(r) == multiset(a)
  {
    var shuffled := new T[|a|](i requires 0 <= i < |a| => a[i]);
    assert shuffled[..] == a;
    var i := |a| - 1;
    while i > 0
      invariant i < |a|
      invariant multiset(shuffled[..]) == multiset(a)
    {
      var j :| 0 <= j <= i;
      shuffled[i], shuffled[j] := shuffled[j], shuffled[i];
      i := i - 1;
    }
    r := shuffled[..];
  }

  /** Shuffling keeps the options valid. */
  lemma ShuffledOptionsValid(options: seq<string>, shuffled: seq<string>, correct: string, all: seq<string>, count: int)
    requires ValidOptions(options, correct, all, count) && multiset(shuffled) == multiset(options)
    ensures ValidOptions(shuffled, correct, all, count)
  {
    DistinctPermutation(options, shuffled);
    assert |shuffled| == |multiset(shuffled)| == |options|;
    assert correct in multiset(options);
    forall o | o in shuffled
      ensures o == correct || o in all
    {
      assert o in multiset(options);
    }
  }

  /** A question of kind `k` about `v`, with its options drawn from `all`. */
  predicate QuestionFor(q: QuizQuestion, k: Kind, v: Vocabulary, all: seq<Vocabulary>)
  {
    q.id == v.id && q.vocabularyId == v.id && q.kind == k
    && q.question == Prompt(k, v) && q.correctAnswer == Answer(k, v)
    && ValidOptions(q.options, Answer(k, v), Field(k, all), OptionCount)
  }

  /** The answer is among the options exactly once, and there are at most four. */
  lemma QuestionAnswerOnce(q: QuizQuestion, k: Kind, v: Vocabulary, all: seq<Vocabulary>)
    requires QuestionFor(q, k, v, all)
    ensures 1 <= |q.options| <= OptionCount
    ensures multiset(q.options)[q.correctAnswer] == 1
  {
    DistinctCount(q.options, q.correctAnswer);
  }

  /** What every generated question satisfies whatever item it is about: it is about an item
      of the vocabulary, and its answer is among its one to four options. */
  predicate WellPosed(q: QuizQuestion, vocabulary: seq<Vocabulary>)
  {
    (exists v :: v in vocabulary && q.vocabularyId == v.id)
    && q.correctAnswer in q.options && 1 <= |q.options| <= OptionCount
  }

  lemma QuestionWellPosed(q: QuizQuestion, k: Kind, v: Vocabulary, all: seq<Vocabulary>)
    requires v in all && QuestionFor(q, k, v, all)
    ensures WellPosed(q, all)
  {
    QuestionAnswerOnce(q, k, v, all);
  }

  /** Three items with three different meanings: a meaning question can offer only the
      answer and the two other meanings. */
  lemma ThreeItemMeaningOptions(options: seq<string>, all: seq<Vocabulary>, i: nat)
    requires |all| == 3 && i < 3
    requires all[0].meaning != all[1].meaning && all[0].meaning != all[2].meaning && all[1].meaning != all[2].meaning
    requires ValidOptions(options, Answer(Meaning, all[i]), Field(Meaning, all), OptionCount)
    ensures |options| == 3
  {
    var f := Field(Meaning, all);
    assert f[i] == Answer(Meaning, all[i]);
    PoolOfThree(f, i);
  }

  /** Among three different strings, two are left besides any one of them. */
  lemma PoolOfThree(f: seq<string>, i: nat)
    requires |f| == 3 && i < 3
    requires f[0] != f[1] && f[0] != f[2] && f[1] != f[2]
    ensures |Pool(f[i], f)| == 2
  {
    assert (set o | o in f) == {f[0], f[1], f[2]};
    var others := if i == 0 then {f[1], f[2]} else if i == 1 then {f[0], f[2]} else {f[0], f[1]};
    assert Pool(f[i], f) == others;
  }

  /** The part the four builders share: options for the asked field, shuffled. */
  method BuildQuestion(k: Kind, v: Vocabulary, all: seq<Vocabulary>) returns (q: QuizQuestion)
    ensures QuestionFor(q, k, v, all)
  {
    var options := GenerateOptions(Answer(k, v), Field(k, all), OptionCount);
    var shuffled := Shuffle(options);
    ShuffledOptionsValid(options, shuffled, Answer(k, v), Field(k, all), OptionCount);
    q := QuizQuestion(v.id, k, Prompt(k, v), Answer(k, v), shuffled, v.id);
  }

  /** `generateRecognitionQuestion`: asks for the reading. */
  method RecognitionQuestion(v: Vocabulary, all: seq<Vocabulary>) returns (q: QuizQuestion)
    ensures QuestionFor(q, Recognition, v, all) && q.correctAnswer == v.reading
  {
    q := BuildQuestion(Recognition, v, all);
  }

  /** `generateMeaningQuestion`: asks for the meaning. */
  method MeaningQuestion(v: Vocabulary, all: seq<Vocabulary>) returns (q: QuizQuestion)
    ensures QuestionFor(q, Meaning, v, all) && q.correctAnswer == v.meaning
  {
    q := BuildQuestion(Meaning, v, all);
  }

  /** `generateContextQuestion`: asks for the word blanked out of its sentence. */
  method ContextQuestion(v: Vocabulary, all: seq<Vocabulary>) returns (q: QuizQuestion)
    ensures QuestionFor(q, Context, v, all) && q.correctAnswer == v.word
  {
    q := BuildQuestion(Context, v, all);
  }

  /** `generateReverseQuestion`: asks for the word given the meaning. */
  method ReverseQuestion(v: Vocabulary, all: seq<Vocabulary>) returns (q: QuizQuestion)
    ensures QuestionFor(q, Reverse, v, all) && q.correctAnswer == v.word
  {
    q := BuildQuestion(Reverse, v, all);
  }

  /** The `switch` on the kind. */
  method Question(k: Kind, v: Vocabulary, all: seq<Vocabulary>) returns (q: QuizQuestion)
    ensures QuestionFor(q, k, v, all)
  {
    match k
    case Recognition => q := RecognitionQuestion(v, all);
    case Meaning => q := MeaningQuestion(v, all);
    case Context => q := ContextQuestion(v, all);
    case Reverse => q := ReverseQuestion(v, all);
  }

  /** `shuffled.slice(0, Math.min(count, vocabulary.length))`: a negative end counts back
      from the length. */
  function SelectCount(count: int, len: nat): (n: nat)
    ensures n <= len
    ensures count >= 0 ==> n == Min(count, len)
    ensures count < 0 ==> n == if len + count < 0 then 0 else len + count
  {
    var end := Min(count, len);
    if end < 0 then (if len + end < 0 then 0 else len + end) else end
  }

  /** The items a quiz is built from: a prefix of a random rearrangement of the vocabulary. */
  method Select(vocabulary: seq<Vocabulary>, count: int) returns (selected: seq<Vocabulary>, ghost shuffled: seq<Vocabulary>)
    ensures |shuffled| == |vocabulary| && multiset(shuffled) == multiset(vocabulary)
    ensures |selected| == SelectCount(count, |vocabulary|) && selected == shuffled[..|selected|]
    ensures multiset(selected) <= multiset(vocabulary)
    ensures forall v :: v in selected ==> v in vocabulary
  {
    var all := Shuffle(vocabulary);
    shuffled := all;
    var n := SelectCount(count, |vocabulary|);
    selected := all[..n];
    assert all == selected + all[n..];
    forall v | v in selected
      ensures v in vocabulary
    {
      assert multiset(all) == multiset(selected) + multiset(all[n..]);
      assert v in multiset(vocabulary);
    }
  }

  /** `generateQuiz`: one question of the requested kind per selected item, in order. */
  method GenerateQuiz(vocabulary: seq<Vocabulary>, quizType: string, count: int)
    returns (questions: seq<QuizQuestion>, ghost selected: seq<Vocabulary>, ghost shuffled: seq<Vocabulary>)
    ensures |shuffled| == |vocabulary| && multiset(shuffled) == multiset(vocabulary)
    ensures |selected| == SelectCount(count, |vocabulary|) && selected == shuffled[..|selected|]
    ensures |questions| == |selected|
    ensures forall i :: 0 <= i < |questions| ==> QuestionFor(questions[i], KindOf(quizType), selected[i], vocabulary)
    ensures |questions| == SelectCount(count, |vocabulary|)
    ensures forall q :: q in questions ==> q.kind == KindOf(quizType) && WellPosed(q, vocabulary)
  {
    var chosen;
    chosen, shuffled := Select(vocabulary, count);
    selected := chosen;
    var kind := KindOf(quizType);
    questions := [];
    for i := 0 to |chosen|
      invariant |questions| == i
      invariant forall k :: 0 <= k < i ==> QuestionFor(questions[k], kind, chosen[k], vocabulary)
    {
      var q := Question(kind, chosen[i], vocabulary);
      questions := questions + [q];
    }
    forall q | q in questions
      ensures q.kind == kind && WellPosed(q, vocabulary)
    {
      var i :| 0 <= i < |questions| && questions[i] == q;
      assert chosen[i] in chosen;
      QuestionWellPosed(q, kind, chosen[i], vocabulary);
    }
  }

  /** `types[i % types.length]` */
  function MixedKind(i: nat): Kind
  {
    [Recognition, Meaning, Context, Reverse][i % 4]
  }

  /** Once four items are selected, every kind is asked. */
  lemma MixedKindsCovered(n: nat, k: Kind)
    requires n >= 4
    ensures exists i :: 0 <= i < n && MixedKind(i) == k
  {
    var i := match k
      case Recognition => 0
      case Meaning => 1
      case Context => 2
      case Reverse => 3;
    assert MixedKind(i) == k;
  }

  /** `generateMixedQuiz`: the i-th selected item gets the i-th kind round-robin, and the
      questions are shuffled at the end. */
  method GenerateMixedQuiz(vocabulary: seq<Vocabulary>, count: int)
    returns (questions: seq<QuizQuestion>, ghost selected: seq<Vocabulary>, ghost shuffled: seq<Vocabulary>,
             ghost built: seq<QuizQuestion>)
    ensures |shuffled| == |vocabulary| && multiset(shuffled) == multiset(vocabulary)
    ensures |selected| == SelectCount(count, |vocabulary|) && selected == shuffled[..|selected|]
    ensures |built| == |selected|
    ensures forall i :: 0 <= i < |built| ==> QuestionFor(built[i], MixedKind(i), selected[i], vocabulary)
    ensures multiset(questions) == multiset(built)
    ensures |questions| == SelectCount(count, |vocabulary|)
    ensures forall q :: q in questions ==> WellPosed(q, vocabulary)
  {
    var chosen;
    chosen, shuffled := Select(vocabulary, count);
    selected := chosen;
    var inOrder := [];
    for i := 0 to |chosen|
      invariant |inOrder| == i
      invariant forall k :: 0 <= k < i ==> QuestionFor(inOrder[k], MixedKind(k), chosen[k], vocabulary)
    {
      var q := Question(MixedKind(i), chosen[i], vocabulary);
      inOrder := inOrder + [q];
    }
    built := inOrder;
    questions := Shuffle(inOrder);
    assert |questions| == |multiset(questions)| == |multiset(built)| == |built|;
    forall q | q in questions
      ensures WellPosed(q, vocabulary)
    {
      assert q in multiset(built);
      var i :| 0 <= i < |built| && built[i] == q;
      assert chosen[i] in chosen;
      QuestionWellPosed(q, MixedKind(i), chosen[i], vocabulary);
    }
  }
}
