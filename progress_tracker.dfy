/** In-memory progress of file processing: a map from file id to a progress record,
    moved through its stages by the extraction pipeline and read by the status page. */
module ProgressTracker {
  import opened Common

  datatype Stage = Starting | Processing | LookingUp | Saving | Complete | Error

  datatype Progress = Progress(
    fileId: string,
    stage: Stage,
    currentWord: int,
    totalWords: int,
    message: string,
    startTime: int)

  const StartMessage: string := "Starting vocabulary extraction..."

  function CompleteMessage(wordCount: int): string
  {
    "Complete! Added " + IntToDecimal(wordCount) + " words to vocabulary."
  }

  function ErrorMessage(errorMessage: string): (r: string)
    ensures |r| == 7 + |errorMessage| && r[..7] == "Error: " && r[7..] == errorMessage
  {
    "Error: " + errorMessage
  }

  /** `Math.floor(a / b)` on integers. */
  function FloorDiv(a: int, b: int): (q: int)
    requires b != 0
    ensures b > 0 ==> b * q <= a < b * q + b
    ensures b < 0 ==> b * q >= a > b * q + b
  {
    if b > 0 then a / b else (-a) / (-b)
  }

  /** `Math.round(c / t * 100)` in exact arithmetic: the nearest integer, halves rounded up. */
  function RoundedPercent(c: int, t: int): int
    requires t != 0
  {
    FloorDiv(200 * c + t, 2 * t)
  }

  /** `getPercentage` on the record found for a file, if any. */
  function Percentage(p: Option<Progress>): (r: int)
    ensures p.None? ==> r == 0
    ensures p.Some? && p.value.stage == Complete ==> r == 100
    ensures p.Some? && p.value.stage != Complete ==> r <= 99
    ensures p.Some? && p.value.stage != Complete && p.value.totalWords == 0 ==> r == 0
  {
    match p
    case None => 0
    case Some(q) =>
      if q.stage == Complete then 100
      else if q.totalWords == 0 then 0
      else
        var percentage := RoundedPercent(q.currentWord, q.totalWords);
        if percentage < 99 then percentage else 99
  }

  /** While not complete, the percentage is the nearest integer to `100 * currentWord /
      totalWords` (halves up), capped at 99, and it lies in 0..99 when the word count is
      within 0..totalWords. */
  lemma PercentageRounds(q: Progress)
    requires q.stage != Complete && q.totalWords > 0
    ensures var r := Percentage(Some(q));
      var c, t := q.currentWord, q.totalWords;
      (r < 99 ==> 2 * t * r - t <= 200 * c < 2 * t * r + t)
      && (r == 99 ==> 200 * c >= 2 * t * 99 - t)
      && (0 <= c ==> 0 <= r)
  {
    var c, t := q.currentWord, q.totalWords;
    var b := 2 * t;
    var p := RoundedPercent(c, t);
    assert b * p <= 200 * c + t < b * p + b;
    assert 2 * t * p == b * p;
    if p >= 99 {
      MulMonotone(b, 99, p);
    }
    if 0 <= c {
      assert b * (p + 1) == b * p + b;
      PositiveFactor(b, p + 1);
    }
  }

  lemma PositiveFactor(b: int, x: int)
    requires b > 0 && b * x > 0
    ensures x > 0
  {
    if x <= 0 {
      MulMonotone(b, x, 0);
    }
  }

  lemma MulMonotone(b: int, x: int, y: int)
    requires b >= 0 && x <= y
    ensures b * x <= b * y
  {
    assert b * y - b * x == b * (y - x);
  }

  /** The percentage is 100 exactly when the file's record says it is complete. */
  lemma PercentageFullIffComplete(p: Option<Progress>)
    ensures Percentage(p) == 100 <==> p.Some? && p.value.stage == Complete
  {
  }

  /** `isProcessing` on the record found for a file, if any. */
  predicate InProgress(p: Option<Progress>)
  {
    p.Some? && p.value.stage != Complete && p.value.stage != Error
  }

  /** The process-wide tracker. `setTimeout` removal is the explicit `Expire`. */
  class Tracker {
    var progress: map<string, Progress>

    constructor()
      ensures progress == map[]
    {
      progress := map[];
    }

    /** `start`: create or overwrite the record of `fileId`. `now` is the clock reading. */
    method Start(fileId: string, totalWords: int, now: int)
      modifies this
      ensures progress == old(progress)[fileId := Progress(fileId, Starting, 0, totalWords, StartMessage, now)]
    {
      progress := progress[fileId := Progress(fileId, Starting, 0, totalWords, StartMessage, now)];
    }

    /** `update`: change stage, word count and message of an existing record; an
        unknown id is ignored. */
    method Update(fileId: string, stage: Stage, currentWord: int, message: string)
      modifies this
      ensures fileId !in old(progress) ==> progress == old(progress)
      ensures fileId in old(progress) ==>
        progress == old(progress)[fileId := old(progress)[fileId].(stage := stage, currentWord := currentWord, message := message)]
    {
      if fileId in progress {
        var p := progress[fileId];
        progress := progress[fileId := p.(stage := stage, currentWord := currentWord, message := message)];
      }
    }

    /** `complete`: the word count jumps to the total. */
    method Complete(fileId: string, wordCount: int)
      modifies this
      ensures fileId !in old(progress) ==> progress == old(progress)
      ensures fileId in old(progress) ==>
        var p := old(progress)[fileId];
        progress == old(progress)[fileId := p.(stage := Stage.Complete, currentWord := p.totalWords, message := CompleteMessage(wordCount))]
    {
      if fileId in progress {
        var p := progress[fileId];
        progress := progress[fileId := p.(stage := Stage.Complete, currentWord := p.totalWords, message := CompleteMessage(wordCount))];
      }
    }

    /** `error`: the word count is left as it was. */
    method Error(fileId: string, errorMessage: string)
      modifies this
      ensures fileId !in old(progress) ==> progress == old(progress)
      ensures fileId in old(progress) ==>
        progress == old(progress)[fileId := old(progress)[fileId].(stage := Stage.Error, message := ErrorMessage(errorMessage))]
    {
      if fileId in progress {
        var p := progress[fileId];
        progress := progress[fileId := p.(stage := Stage.Error, message := ErrorMessage(errorMessage))];
      }
    }

    /** The delayed removal scheduled by `complete` and `error`, when it fires. */
    method Expire(fileId: string)
      modifies this
      ensures progress == old(progress) - {fileId}
    {
      progress := progress - {fileId};
    }

    /** `get` */
    function Get(fileId: string): (r: Option<Progress>)
      reads this
      ensures r.Some? <==> fileId in progress
      ensures r.Some? ==> r.value == progress[fileId]
    {
      if fileId in progress then Some(progress[fileId]) else None
    }

    /** `getPercentage` */
    function GetPercentage(fileId: string): (r: int)
      reads this
      ensures r <= 100
      ensures r == 100 <==> fileId in progress && progress[fileId].stage == Stage.Complete
      ensures fileId !in progress ==> r == 0
    {
      PercentageFullIffComplete(Get(fileId));
      Percentage(Get(fileId))
    }

    /** `isProcessing`: a record exists that is neither complete nor failed. */
    function IsProcessing(fileId: string): (r: bool)
      reads this
      ensures r <==> fileId in progress && progress[fileId].stage != Stage.Complete
                                        && progress[fileId].stage != Stage.Error
      ensures r ==> GetPercentage(fileId) <= 99
    {
      InProgress(Get(fileId))
    }
  }
}
