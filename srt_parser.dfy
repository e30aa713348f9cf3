/** The SRT subtitle parser: splitting a file into blocks, reading the sequence
    number and the timestamp pair of each block, cleaning the text, detecting
    Japanese text and validating an upload. */
module SrtParser {
  import opened Common

  /** The byte-order mark that `parse` strips from the front of the content. */
  const Bom: char := '\U{FEFF}'

  datatype SubtitleEntry = SubtitleEntry(sequence: int, startTime: string, endTime: string, text: string)

  datatype Validation = Valid | Invalid(error: string)

  const EmptyFile: string := "File is empty"
  const NoEntries: string := "No valid subtitle entries found"
  const NoJapanese: string := "No Japanese text found in subtitles"

  // ---------------------------------------------------------------------------
  // Timestamps: `(\d{2}:\d{2}:\d{2},\d{3})\s*-->\s*(\d{2}:\d{2}:\d{2},\d{3})`

  /** The shape `DD:DD:DD,DDD` with ASCII digits. */
  predicate IsTimestamp(t: string)
  {
    |t| == 12
    && IsDigit(t[0]) && IsDigit(t[1]) && t[2] == ':'
    && IsDigit(t[3]) && IsDigit(t[4]) && t[5] == ':'
    && IsDigit(t[6]) && IsDigit(t[7]) && t[8] == ','
    && IsDigit(t[9]) && IsDigit(t[10]) && IsDigit(t[11])
  }

  /** The timestamp-pair pattern matched at the very start of `t`. Both `\s*` runs are
      maximal, because neither '-' nor a digit is whitespace, so the greedy match never
      backtracks into them. */
  function ArrowAt(t: string): (r: Option<(string, string)>)
    ensures r.Some? ==> IsTimestamp(r.value.0) && IsTimestamp(r.value.1)
  {
    if |t| < 12 || !IsTimestamp(t[..12]) then None
    else
      var a := 12 + WsPrefixLen(t[12..]);
      if a + 3 > |t| || t[a..a + 3] != "-->" then None
      else
        var b := a + 3 + WsPrefixLen(t[a + 3..]);
        if b + 12 > |t| || !IsTimestamp(t[b..b + 12]) then None
        else Some((t[..12], t[b..b + 12]))
  }

  /** `line.match(pattern)`: the leftmost position where the pattern matches. */
  function FindTimestamps(line: string): (r: Option<(string, string)>)
    ensures r.Some? ==> IsTimestamp(r.value.0) && IsTimestamp(r.value.1)
    decreases |line|
  {
    if line == [] then None
    else match ArrowAt(line)
      case Some(pair) => Some(pair)
      case None => FindTimestamps(line[1..])
  }

  /** A line written as `start --> end` is read back as the same pair. */
  lemma TimestampLineRoundTrip(start: string, end: string)
    requires IsTimestamp(start) && IsTimestamp(end)
    ensures FindTimestamps(start + " --> " + end) == Some((start, end))
  {
    var t := start + " --> " + end;
    assert t[..12] == start;
    assert t[12..] == " --> " + end;
    assert WsPrefixLen(t[12..]) == 1 by {
      assert t[12..][1] == '-';
      assert WsPrefixLen(t[12..][1..]) == 0;
    }
    assert t[13..16] == "-->";
    assert t[16..] == " " + end;
    assert WsPrefixLen(t[16..]) == 1 by {
      assert t[16..][1..] == end;
      assert !IsJsWhitespace(end[0]);
    }
    assert t[17..29] == end;
  }

  // ---------------------------------------------------------------------------
  // Sequence numbers: `parseInt(s, 10)`

  function DigitPrefixLen(s: string): (n: nat)
    ensures n <= |s| && AllDigits(s[..n])
    ensures n == |s| || !IsDigit(s[n])
  {
    if s == [] || !IsDigit(s[0]) then 0
    else
      var n := 1 + DigitPrefixLen(s[1..]);
      assert s[..n] == [s[0]] + s[1..][..n - 1];
      n
  }

  /** `parseInt(s, 10)`: leading whitespace, an optional sign, then the longest run of
      decimal digits; `None` stands for NaN (no digit after the sign). */
  function ParseIntJs(s: string): (r: Option<int>)
    ensures r.Some? ==> exists i :: 0 <= i < |s| && IsDigit(s[i])
  {
    var u := TrimStart(s);
    var signed := |u| > 0 && (u[0] == '-' || u[0] == '+');
    var body := if signed then u[1..] else u;
    var n := DigitPrefixLen(body);
    if n == 0 then None
    else
      var magnitude: int := DigitsValue(body[..n]);
      assert IsDigit(body[0]);
      Some(if signed && u[0] == '-' then -magnitude else magnitude)
  }

  /** A sequence number rendered in decimal parses back to itself. */
  lemma ParseIntJsOfDecimal(i: int)
    ensures ParseIntJs(IntToDecimal(i)) == Some(i)
  {
    var s := IntToDecimal(i);
    var m: nat := if i < 0 then -i else i;
    var digits := NatToDecimal(m);
    assert WsPrefixLen(s) == 0 by {
      assert s[0] == '-' || IsDigit(s[0]);
    }
    assert TrimStart(s) == s;
    var body := if i < 0 then s[1..] else s;
    assert body == digits;
    assert DigitPrefixLen(digits) == |digits| by {
      DigitPrefixOfDigits(digits);
    }
    assert digits[..|digits|] == digits;
    DigitsValueOfNatToDecimal(m);
  }

  lemma {:induction false} DigitPrefixOfDigits(s: string)
    requires AllDigits(s)
    ensures DigitPrefixLen(s) == |s|
    decreases |s|
  {
    if s != [] {
      DigitPrefixOfDigits(s[1..]);
    }
  }

  // ---------------------------------------------------------------------------
  // Text cleaning

  /** The two bracketed forms that `cleanHTML` deletes: HTML tags `<…>` and
      parenthetical speaker names `(…)`, `（…）` in ASCII or full-width form. */
  datatype Enclosure = Tag | Parenthetical

  predicate Opens(k: Enclosure, c: char)
  {
    match k
    case Tag => c == '<'
    case Parenthetical => c == '(' || c == '\U{FF08}'
  }

  predicate Closes(k: Enclosure, c: char)
  {
    match k
    case Tag => c == '>'
    case Parenthetical => c == ')' || c == '\U{FF09}'
  }

  /** No opening bracket of kind `k` is followed, anywhere later, by a closing one. */
  predicate NoEnclosed(k: Enclosure, s: string)
  {
    forall i, j :: 0 <= i < j < |s| && Opens(k, s[i]) ==> !Closes(k, s[j])
  }

  function FirstCloser(k: Enclosure, t: string): (r: Option<nat>)
    ensures r.Some? ==> r.value < |t| && Closes(k, t[r.value])
    ensures r.None? ==> forall i :: 0 <= i < |t| ==> !Closes(k, t[i])
  {
    if t == [] then None
    else if Closes(k, t[0]) then Some(0)
    else match FirstCloser(k, t[1..])
      case None => None
      case Some(j) => Some(j + 1)
  }

  lemma NoEnclosedCons(k: Enclosure, c: char, r: string)
    requires NoEnclosed(k, r)
    requires Opens(k, c) ==> forall j :: 0 <= j < |r| ==> !Closes(k, r[j])
    ensures NoEnclosed(k, [c] + r)
  {
    var s := [c] + r;
    forall i, j | 0 <= i < j < |s| && Opens(k, s[i]) ensures !Closes(k, s[j]) {
      assert s[j] == r[j - 1];
      if i > 0 { assert s[i] == r[i - 1]; }
    }
  }

  /** `s.replace(/<open>[^<close>]*<close>/g, '')`: scanning left to right, every opening
      bracket that has a closing bracket somewhere after it is deleted together with
      everything up to and including the first such closing bracket. */
  function RemoveEnclosed(k: Enclosure, s: string): (r: string)
    ensures NoEnclosed(k, r)
    ensures forall i :: 0 <= i < |r| ==> r[i] in s
    decreases |s|
  {
    if s == [] then []
    else if Opens(k, s[0]) && FirstCloser(k, s[1..]).Some? then
      RemoveEnclosed(k, s[FirstCloser(k, s[1..]).value + 2..])
    else
      var rest := RemoveEnclosed(k, s[1..]);
      NoEnclosedCons(k, s[0], rest);
      [s[0]] + rest
  }

  /** Removing one kind of bracket keeps the other kind's guarantee. */
  lemma {:induction false} RemoveEnclosedKeeps(k: Enclosure, other: Enclosure, s: string)
    requires NoEnclosed(other, s)
    ensures NoEnclosed(other, RemoveEnclosed(k, s))
    decreases |s|
  {
    if s == [] {
      assert RemoveEnclosed(k, s) == [];
    } else {
      if Opens(k, s[0]) && FirstCloser(k, s[1..]).Some? {
        var j := FirstCloser(k, s[1..]).value;
        NoEnclosedSuffix(other, s, j + 2);
        RemoveEnclosedKeeps(k, other, s[j + 2..]);
        RemoveEnclosedKeepsAfterDrop(k, other, s);
      } else {
        NoEnclosedSuffix(other, s, 1);
        RemoveEnclosedKeeps(k, other, s[1..]);
        RemoveEnclosedKeepsFirst(k, other, s);
      }
    }
  }

  /** The step that deletes an enclosure. */
  lemma RemoveEnclosedKeepsAfterDrop(k: Enclosure, other: Enclosure, s: string)
    requires s != [] && Opens(k, s[0]) && FirstCloser(k, s[1..]).Some?
    requires NoEnclosed(other, RemoveEnclosed(k, s[FirstCloser(k, s[1..]).value + 2..]))
    ensures NoEnclosed(other, RemoveEnclosed(k, s))
  {
    RemoveEnclosedDrops(k, s, FirstCloser(k, s[1..]).value);
  }

  lemma RemoveEnclosedDrops(k: Enclosure, s: string, j: nat)
    requires s != [] && Opens(k, s[0]) && FirstCloser(k, s[1..]) == Some(j)
    ensures j + 2 <= |s| && RemoveEnclosed(k, s) == RemoveEnclosed(k, s[j + 2..])
  {
  }

  /** The step that keeps the first character. */
  lemma RemoveEnclosedKeepsFirst(k: Enclosure, other: Enclosure, s: string)
    requires s != [] && !(Opens(k, s[0]) && FirstCloser(k, s[1..]).Some?)
    requires NoEnclosed(other, s) && NoEnclosed(other, RemoveEnclosed(k, s[1..]))
    ensures NoEnclosed(other, RemoveEnclosed(k, s))
  {
    if Opens(other, s[0]) {
      RemoveEnclosedNoCloser(k, other, s);
    }
    NoEnclosedCons(other, s[0], RemoveEnclosed(k, s[1..]));
    assert RemoveEnclosed(k, s) == [s[0]] + RemoveEnclosed(k, s[1..]);
  }

  /** After an opening bracket of the other kind, what is left of the rest holds none of
      its closing brackets. */
  lemma RemoveEnclosedNoCloser(k: Enclosure, other: Enclosure, s: string)
    requires s != [] && NoEnclosed(other, s) && Opens(other, s[0])
    ensures forall j :: 0 <= j < |RemoveEnclosed(k, s[1..])| ==> !Closes(other, RemoveEnclosed(k, s[1..])[j])
  {
    var rest := RemoveEnclosed(k, s[1..]);
    forall j | 0 <= j < |rest| ensures !Closes(other, rest[j]) {
      var p :| 0 <= p < |s[1..]| && s[1..][p] == rest[j];
      assert s[p + 1] == rest[j];
    }
  }

  lemma NoEnclosedSuffix(k: Enclosure, s: string, d: nat)
    requires NoEnclosed(k, s) && d <= |s|
    ensures NoEnclosed(k, s[d..])
  {
    NoEnclosedSlice(k, s, d, |s|);
    assert s[d..|s|] == s[d..];
  }

  /** A string without the pattern is left as it is. */
  lemma {:induction false} RemoveEnclosedFixes(k: Enclosure, s: string)
    requires NoEnclosed(k, s)
    ensures RemoveEnclosed(k, s) == s
    decreases |s|
  {
    if s != [] {
      if Opens(k, s[0]) {
        forall i | 0 <= i < |s[1..]| ensures !Closes(k, s[1..][i]) {
          assert s[1..][i] == s[i + 1];
        }
      }
      RemoveEnclosedFixes(k, s[1..]);
    }
  }

  /** `s.replace(/\s+/g, ' ')`: every maximal run of whitespace becomes one space. */
  function CollapseWs(s: string): (r: string)
    ensures forall i :: 0 <= i < |r| && IsJsWhitespace(r[i]) ==> r[i] == ' '
    ensures forall i :: 0 <= i < |r| - 1 ==> !(IsJsWhitespace(r[i]) && IsJsWhitespace(r[i + 1]))
    ensures |s| > 0 ==> |r| > 0 && (IsJsWhitespace(r[0]) <==> IsJsWhitespace(s[0]))
    ensures forall i :: 0 <= i < |r| && !IsJsWhitespace(r[i]) ==> r[i] in s
    decreases |s|
  {
    if s == [] then []
    else if IsJsWhitespace(s[0]) then
      var n := WsPrefixLen(s);
      var rest := CollapseWs(s[n..]);
      assert forall i :: 0 <= i < |rest| && !IsJsWhitespace(rest[i]) ==> rest[i] in s;
      [' '] + rest
    else
      [s[0]] + CollapseWs(s[1..])
  }

  lemma {:induction false} CollapseWsKeeps(k: Enclosure, s: string)
    requires NoEnclosed(k, s)
    ensures NoEnclosed(k, CollapseWs(s))
    decreases |s|
  {
    if s != [] {
      var n := if IsJsWhitespace(s[0]) then WsPrefixLen(s) else 1;
      var rest := CollapseWs(s[n..]);
      CollapseWsKeeps(k, s[n..]);
      assert CollapseWs(s) == [CollapseWs(s)[0]] + rest;
      if Opens(k, CollapseWs(s)[0]) {
        assert n == 1 && forall p :: 0 <= p < |s[1..]| ==> !Closes(k, s[1..][p]);
        forall j | 0 <= j < |rest| ensures !Closes(k, rest[j]) {
          if !IsJsWhitespace(rest[j]) {
            assert rest[j] in s[1..];
          }
        }
      }
      NoEnclosedCons(k, CollapseWs(s)[0], rest);
    }
  }

  lemma {:induction false} CollapseWsFixes(s: string)
    requires forall i :: 0 <= i < |s| && IsJsWhitespace(s[i]) ==> s[i] == ' '
    requires forall i :: 0 <= i < |s| - 1 ==> !(IsJsWhitespace(s[i]) && IsJsWhitespace(s[i + 1]))
    ensures CollapseWs(s) == s
    decreases |s|
  {
    if s != [] {
      if IsJsWhitespace(s[0]) {
        assert WsPrefixLen(s) == 1 by {
          if |s| > 1 { assert !IsJsWhitespace(s[1]); }
        }
      }
      CollapseWsFixes(s[1..]);
    }
  }

  lemma NoEnclosedSlice(k: Enclosure, s: string, a: nat, b: nat)
    requires NoEnclosed(k, s) && a <= b <= |s|
    ensures NoEnclosed(k, s[a..b])
  {
    var t := s[a..b];
    forall i, j | 0 <= i < j < |t| && Opens(k, t[i]) ensures !Closes(k, t[j]) {
      assert t[i] == s[a + i] && t[j] == s[a + j];
    }
  }

  /** What `cleanHTML` guarantees of its output: every whitespace character is a plain
      space, no two whitespace characters are adjacent (so there is no newline), there is
      no whitespace at either end, and no tag or parenthetical is left. */
  predicate IsCleanText(t: string)
  {
    && (forall i :: 0 <= i < |t| && IsJsWhitespace(t[i]) ==> t[i] == ' ')
    && (forall i :: 0 <= i < |t| - 1 ==> !(IsJsWhitespace(t[i]) && IsJsWhitespace(t[i + 1])))
    && (|t| == 0 || (!IsJsWhitespace(t[0]) && !IsJsWhitespace(t[|t| - 1])))
    && NoEnclosed(Tag, t)
    && NoEnclosed(Parenthetical, t)
  }

  /** `cleanHTML`: drop tags, then parentheticals, then collapse whitespace and trim. */
  function CleanHtml(text: string): (r: string)
    ensures IsCleanText(r)
  {
    var noTags := RemoveEnclosed(Tag, text);
    var noParens := RemoveEnclosed(Parenthetical, noTags);
    RemoveEnclosedKeeps(Parenthetical, Tag, noTags);
    var collapsed := CollapseWs(noParens);
    CollapseWsKeeps(Tag, noParens);
    CollapseWsKeeps(Parenthetical, noParens);
    TrimKeepsClean(collapsed);
    Trim(collapsed)
  }

  lemma TrimKeepsClean(s: string)
    requires forall i :: 0 <= i < |s| && IsJsWhitespace(s[i]) ==> s[i] == ' '
    requires forall i :: 0 <= i < |s| - 1 ==> !(IsJsWhitespace(s[i]) && IsJsWhitespace(s[i + 1]))
    requires NoEnclosed(Tag, s) && NoEnclosed(Parenthetical, s)
    ensures IsCleanText(Trim(s))
  {
    var r := Trim(s);
    var a := WsPrefixLen(s);
    NoEnclosedSlice(Tag, s, a, a + |r|);
    NoEnclosedSlice(Parenthetical, s, a, a + |r|);
    SliceKeepsSpacing(s, a, a + |r|);
  }

  /** A slice of text whose whitespace is single plain spaces has the same shape. */
  lemma SliceKeepsSpacing(s: string, a: nat, b: nat)
    requires a <= b <= |s|
    requires forall i :: 0 <= i < |s| && IsJsWhitespace(s[i]) ==> s[i] == ' '
    requires forall i :: 0 <= i < |s| - 1 ==> !(IsJsWhitespace(s[i]) && IsJsWhitespace(s[i + 1]))
    ensures var r := s[a..b];
      && (forall i :: 0 <= i < |r| && IsJsWhitespace(r[i]) ==> r[i] == ' ')
      && (forall i :: 0 <= i < |r| - 1 ==> !(IsJsWhitespace(r[i]) && IsJsWhitespace(r[i + 1])))
  {
    var r := s[a..b];
    forall i | 0 <= i < |r| && IsJsWhitespace(r[i]) ensures r[i] == ' ' {
      assert r[i] == s[a + i];
    }
    forall i | 0 <= i < |r| - 1 ensures !(IsJsWhitespace(r[i]) && IsJsWhitespace(r[i + 1])) {
      assert r[i] == s[a + i] && r[i + 1] == s[a + i + 1];
    }
  }

  /** Clean text is left unchanged by `cleanHTML`. */
  lemma CleanHtmlFixesClean(t: string)
    requires IsCleanText(t)
    ensures CleanHtml(t) == t
  {
    RemoveEnclosedFixes(Tag, t);
    RemoveEnclosedFixes(Parenthetical, t);
    CollapseWsFixes(t);
    TrimOfTrimmed(t);
  }

  /** Cleaning twice is cleaning once. */
  lemma CleanHtmlIdempotent(text: string)
    ensures CleanHtml(CleanHtml(text)) == CleanHtml(text)
  {
    CleanHtmlFixesClean(CleanHtml(text));
  }

  /** Clean text never holds a newline. */
  lemma CleanTextHasNoNewline(t: string)
    requires IsCleanText(t)
    ensures '\n' !in t
  {
    if '\n' in t {
      var i :| 0 <= i < |t| && t[i] == '\n';
      assert IsJsWhitespace(t[i]);
    }
  }

  // ---------------------------------------------------------------------------
  // Japanese detection: `/[぀-ゟ゠-ヿ一-龯]/`

  predicate IsJapaneseChar(c: char)
  {
    ('\U{3040}' <= c <= '\U{309F}') || ('\U{30A0}' <= c <= '\U{30FF}') || ('\U{4E00}' <= c <= '\U{9FAF}')
  }

  /** `containsJapanese`: the regular expression test, scanning left to right. */
  function ContainsJapanese(text: string): (r: bool)
    ensures r <==> exists i :: 0 <= i < |text| && IsJapaneseChar(text[i])
    decreases |text|
  {
    if text == [] then false
    else if IsJapaneseChar(text[0]) then true
    else
      var r := ContainsJapanese(text[1..]);
      assert r ==> exists i :: 0 <= i < |text| && IsJapaneseChar(text[i]) by {
        if r {
          var i :| 0 <= i < |text[1..]| && IsJapaneseChar(text[1..][i]);
          assert text[i + 1] == text[1..][i];
        }
      }
      assert (exists i :: 0 <= i < |text| && IsJapaneseChar(text[i])) ==> r by {
        if exists i :: 0 <= i < |text| && IsJapaneseChar(text[i]) {
          var i :| 0 <= i < |text| && IsJapaneseChar(text[i]);
          assert i > 0;
          assert text[1..][i - 1] == text[i];
        }
      }
      r
  }

  // ---------------------------------------------------------------------------
  // Blocks: `content.split(/\n\s*\n/)`

  function LastIndexOf(s: string, c: char): (r: Option<nat>)
    ensures r.Some? ==> r.value < |s| && s[r.value] == c
    ensures r.Some? ==> forall j :: r.value < j < |s| ==> s[j] != c
    ensures r.None? ==> c !in s
  {
    if s == [] then None
    else if s[|s| - 1] == c then Some(|s| - 1)
    else
      var r := LastIndexOf(s[..|s| - 1], c);
      assert s == s[..|s| - 1] + [s[|s| - 1]];
      r
  }

  /** Length of the separator `\n\s*\n` matched at the start of `t`, if any. The greedy
      `\s*` takes the whole whitespace run after the first newline and gives back
      characters until the next one is a newline, so the match ends at the last newline
      of that run. */
  function SeparatorLen(t: string): (r: Option<nat>)
    ensures r.Some? ==> 2 <= r.value <= |t| && t[0] == '\n' && t[r.value - 1] == '\n'
    ensures r.Some? ==> forall i :: 1 <= i < r.value ==> IsJsWhitespace(t[i])
  {
    if |t| == 0 || t[0] != '\n' then None
    else
      var run := t[1..1 + WsPrefixLen(t[1..])];
      match LastIndexOf(run, '\n')
      case None => None
      case Some(k) =>
        assert forall i :: 1 <= i < k + 2 ==> t[i] == run[i - 1];
        Some(k + 2)
  }

  /** The blocks of `s`: the pieces between leftmost, non-overlapping separators. */
  function SplitBlocks(s: string): (r: seq<string>)
    ensures |r| >= 1
    decreases |s|
  {
    if s == [] then [[]]
    else match SeparatorLen(s)
      case Some(n) => [[]] + SplitBlocks(s[n..])
      case None =>
        var rest := SplitBlocks(s[1..]);
        [[s[0]] + rest[0]] + rest[1..]
  }

  function StripBom(content: string): string
  {
    if |content| > 0 && content[0] == Bom then content[1..] else content
  }

  /** The text lines of a block, after the sequence line and the timestamp line, joined,
      trimmed and cleaned. */
  function BlockText(lines: seq<string>): string
    requires |lines| >= 2
  {
    CleanHtml(Trim(Join(lines[2..], "\n")))
  }

  /** What every emitted entry satisfies. */
  predicate WellFormedEntry(e: SubtitleEntry)
  {
    IsTimestamp(e.startTime) && IsTimestamp(e.endTime) && IsCleanText(e.text)
  }

  /** One block: skipped (`None`) when it has fewer than three lines, when its first
      line does not parse as an integer, or when its second line has no timestamp pair. */
  function ParseBlock(block: string): Option<SubtitleEntry>
  {
    ParseLines(SplitOn(Trim(block), '\n'))
  }

  /** The checks of one block, on its lines. */
  function ParseLines(lines: seq<string>): (r: Option<SubtitleEntry>)
    ensures r.None? <==> |lines| < 3 || ParseIntJs(Trim(lines[0])).None? || FindTimestamps(lines[1]).None?
    ensures r.Some? ==> WellFormedEntry(r.value) && r.value.text == BlockText(lines)
                        && r.value.sequence == ParseIntJs(Trim(lines[0])).value
  {
    if |lines| < 3 then None
    else match ParseIntJs(Trim(lines[0]))
      case None => None
      case Some(sequence) =>
        match FindTimestamps(lines[1])
        case None => None
        case Some(times) => Some(SubtitleEntry(sequence, times.0, times.1, BlockText(lines)))
  }

  /** The entries of one block as a sequence of zero or one entries. */
  function Emitted(r: Option<SubtitleEntry>): seq<SubtitleEntry>
  {
    match r
    case Some(e) => [e]
    case None => []
  }

  /** The entries that `parse` gives for the blocks, in block order. */
  function EmitEach(blocks: seq<string>, parse: string -> Option<SubtitleEntry>): (r: seq<SubtitleEntry>)
    ensures |r| <= |blocks|
  {
    if blocks == [] then []
    else Emitted(parse(blocks[0])) + EmitEach(blocks[1..], parse)
  }

  lemma {:induction false} EmitEachSnoc(blocks: seq<string>, b: string, parse: string -> Option<SubtitleEntry>)
    ensures EmitEach(blocks + [b], parse) == EmitEach(blocks, parse) + Emitted(parse(b))
  {
    if blocks == [] {
      assert [] + [b] == [b];
      assert [b][1..] == [];
    } else {
      assert (blocks + [b])[0] == blocks[0];
      assert (blocks + [b])[1..] == blocks[1..] + [b];
      EmitEachSnoc(blocks[1..], b, parse);
      var head := Emitted(parse(blocks[0]));
      assert head + (EmitEach(blocks[1..], parse) + Emitted(parse(b)))
          == (head + EmitEach(blocks[1..], parse)) + Emitted(parse(b));
    }
  }

  /** The entries of the well-formed blocks, in block order. */
  function ParseBlocks(blocks: seq<string>): (r: seq<SubtitleEntry>)
    ensures |r| <= |blocks|
  {
    EmitEach(blocks, ParseBlock)
  }

  /** Every entry of every block list is well formed. */
  lemma {:induction false} ParseBlocksWellFormed(blocks: seq<string>)
    ensures forall e :: e in ParseBlocks(blocks) ==> WellFormedEntry(e)
  {
    if blocks != [] {
      ParseBlocksWellFormed(blocks[1..]);
      var r := ParseLines(SplitOn(Trim(blocks[0]), '\n'));
      assert r.Some? ==> WellFormedEntry(r.value);
    }
  }

  /** The entries `parse` returns for `content`. */
  function Entries(content: string): seq<SubtitleEntry>
  {
    ParseBlocks(SplitBlocks(StripBom(content)))
  }

  /** `SRTParser.parse`: the loop over blocks, skipping malformed ones. */
  method Parse(content: string) returns (entries: seq<SubtitleEntry>)
    ensures entries == Entries(content)
  {
    var stripped := StripBom(content);
    var blocks := SplitBlocks(stripped);
    entries := [];
    for i := 0 to |blocks|
      invariant entries == ParseBlocks(blocks[..i])
    {
      ParseBlocksPrefix(blocks, i);
      var lines := SplitOn(Trim(blocks[i]), '\n');
      assert ParseBlock(blocks[i]) == ParseLines(lines);
      if |lines| < 3 {
        continue;
      }
      var sequence := ParseIntJs(Trim(lines[0]));
      if sequence.None? {
        continue;
      }
      var times := FindTimestamps(lines[1]);
      if times.None? {
        continue;
      }
      var text := Trim(Join(lines[2..], "\n"));
      var entry := SubtitleEntry(sequence.value, times.value.0, times.value.1, CleanHtml(text));
      assert ParseLines(lines) == Some(entry);
      entries := entries + [entry];
    }
    assert blocks[..|blocks|] == blocks;
  }

  lemma ParseBlocksSnoc(blocks: seq<string>, b: string)
    ensures ParseBlocks(blocks + [b]) == ParseBlocks(blocks) + Emitted(ParseBlock(b))
  {
    EmitEachSnoc(blocks, b, ParseBlock);
  }

  lemma ParseBlocksPrefix(blocks: seq<string>, i: nat)
    requires i < |blocks|
    ensures ParseBlocks(blocks[..i + 1]) == ParseBlocks(blocks[..i]) + Emitted(ParseBlock(blocks[i]))
  {
    assert blocks[..i + 1] == blocks[..i] + [blocks[i]];
    ParseBlocksSnoc(blocks[..i], blocks[i]);
  }

  lemma ParseBlocksCons(b: string, blocks: seq<string>)
    ensures ParseBlocks([b] + blocks) == Emitted(ParseBlock(b)) + ParseBlocks(blocks)
  {
    assert ([b] + blocks)[1..] == blocks;
  }

  /** A leading byte-order mark makes no difference to the parsed entries, even when the
      content already starts with one (only one mark is stripped, and trimming the first
      block removes any further one). */
  lemma ParseIgnoresBom(content: string)
    ensures Entries([Bom] + content) == Entries(content)
  {
    assert StripBom([Bom] + content) == content;
    if |content| > 0 && content[0] == Bom {
      var d := content[1..];
      var rest := SplitBlocks(d);
      assert SeparatorLen(content) == None;
      assert SplitBlocks(content) == [[Bom] + rest[0]] + rest[1..];
      TrimDropsLeadingWhitespace(Bom, rest[0]);
      ParseBlocksCons([Bom] + rest[0], rest[1..]);
      ParseBlocksCons(rest[0], rest[1..]);
      assert rest == [rest[0]] + rest[1..];
    }
  }

  lemma {:induction false} SplitBlocksOfBlank(s: string)
    requires AllWhitespace(s)
    ensures forall k :: 0 <= k < |SplitBlocks(s)| ==> AllWhitespace(SplitBlocks(s)[k])
    decreases |s|
  {
    if s != [] {
      match SeparatorLen(s)
      case Some(n) =>
        SplitBlocksOfBlank(s[n..]);
      case None =>
        SplitBlocksOfBlank(s[1..]);
        var rest := SplitBlocks(s[1..]);
        assert AllWhitespace([s[0]] + rest[0]) by {
          assert AllWhitespace(rest[0]);
        }
    }
  }

  lemma {:induction false} ParseBlocksOfBlank(blocks: seq<string>)
    requires forall k :: 0 <= k < |blocks| ==> AllWhitespace(blocks[k])
    ensures ParseBlocks(blocks) == []
  {
    if blocks != [] {
      assert Trim(blocks[0]) == [];
      assert SplitOn([], '\n') == [[]];
      ParseBlocksOfBlank(blocks[1..]);
    }
  }

  /** Blank content has no entries, so `validate`'s first check is a special case of its
      second one (it only picks a more specific message). */
  lemma BlankContentHasNoEntries(content: string)
    requires AllWhitespace(content)
    ensures Entries(content) == []
  {
    var s := StripBom(content);
    assert AllWhitespace(s) by {
      if s != content {
        assert forall i :: 0 <= i < |s| ==> s[i] == content[i + 1];
      }
    }
    SplitBlocksOfBlank(s);
    ParseBlocksOfBlank(SplitBlocks(s));
  }

  // ---------------------------------------------------------------------------
  // extractJapaneseText and validate

  /** `entries.map(entry => entry.text)` */
  function EntryTexts(entries: seq<SubtitleEntry>): (r: seq<string>)
    ensures |r| == |entries| && forall k :: 0 <= k < |entries| ==> r[k] == entries[k].text
  {
    seq(|entries|, k requires 0 <= k < |entries| => entries[k].text)
  }

  lemma EntryTextsMembers(entries: seq<SubtitleEntry>)
    ensures forall t :: t in EntryTexts(entries) <==> exists k :: 0 <= k < |entries| && entries[k].text == t
  {
    var texts := EntryTexts(entries);
    forall t | t in texts ensures exists k :: 0 <= k < |entries| && entries[k].text == t {
      var k :| 0 <= k < |texts| && texts[k] == t;
    }
    forall t | exists k :: 0 <= k < |entries| && entries[k].text == t ensures t in texts {
      var k :| 0 <= k < |entries| && entries[k].text == t;
      assert texts[k] == t;
    }
  }

  /** The entry texts that contain Japanese, in order: the texts kept by the filter are
      a subsequence of the entry texts, every Japanese text is kept as often as it occurs,
      and nothing else. */
  function JapaneseTexts(entries: seq<SubtitleEntry>): (r: seq<string>)
    ensures SubsequenceOf(r, EntryTexts(entries))
    ensures forall t :: t in r <==> ContainsJapanese(t) && exists k :: 0 <= k < |entries| && entries[k].text == t
    ensures forall t :: t in EntryTexts(entries) ==>
      multiset(r)[t] == if ContainsJapanese(t) then multiset(EntryTexts(entries))[t] else 0
    ensures |r| <= |entries|
    ensures forall k :: 0 <= k < |r| ==> ContainsJapanese(r[k])
    ensures r == [] <==> forall k :: 0 <= k < |entries| ==> !ContainsJapanese(entries[k].text)
    ensures (forall k :: 0 <= k < |entries| ==> '\n' !in entries[k].text)
            ==> forall k :: 0 <= k < |r| ==> '\n' !in r[k]
  {
    var texts := EntryTexts(entries);
    var r := Filter(texts, ContainsJapanese);
    SubsequenceLength(r, texts);
    JapaneseTextsMembers(entries, r);
    JapaneseTextsNoNewline(entries, r);
    r
  }

  lemma JapaneseTextsMembers(entries: seq<SubtitleEntry>, r: seq<string>)
    requires r == Filter(EntryTexts(entries), ContainsJapanese)
    ensures forall t :: t in r <==> ContainsJapanese(t) && exists k :: 0 <= k < |entries| && entries[k].text == t
    ensures r == [] <==> forall k :: 0 <= k < |entries| ==> !ContainsJapanese(entries[k].text)
  {
    var texts := EntryTexts(entries);
    EntryTextsMembers(entries);
    if r == [] {
      forall k | 0 <= k < |entries|
        ensures !ContainsJapanese(entries[k].text)
      {
        assert texts[k] == entries[k].text && texts[k] in texts;
      }
    } else {
      assert r[0] in r;
    }
  }

  lemma JapaneseTextsNoNewline(entries: seq<SubtitleEntry>, r: seq<string>)
    requires r == Filter(EntryTexts(entries), ContainsJapanese)
    ensures (forall k :: 0 <= k < |entries| ==> '\n' !in entries[k].text)
            ==> forall k :: 0 <= k < |r| ==> '\n' !in r[k]
  {
    EntryTextsMembers(entries);
    forall k | 0 <= k < |r|
      ensures r[k] in EntryTexts(entries)
    {
      assert r[k] in r;
    }
  }

  /** `extractJapaneseText`: the Japanese entry texts joined by newlines. */
  function ExtractJapaneseText(entries: seq<SubtitleEntry>): string
  {
    Join(JapaneseTexts(entries), "\n")
  }

  /** The joined text of parsed entries splits back, line by line, into exactly the
      entry texts that contain Japanese. */
  lemma ExtractJapaneseTextSplitsBack(content: string)
    requires JapaneseTexts(Entries(content)) != []
    ensures SplitOn(ExtractJapaneseText(Entries(content)), '\n') == JapaneseTexts(Entries(content))
  {
    var entries := Entries(content);
    ParseBlocksWellFormed(SplitBlocks(StripBom(content)));
    forall k | 0 <= k < |entries| ensures '\n' !in entries[k].text {
      assert entries[k] in entries;
      CleanTextHasNoNewline(entries[k].text);
    }
    SplitOnJoin(JapaneseTexts(entries), '\n');
  }

  /** `validate`: the first failing check, in order, or `Valid`. The content is valid
      exactly when `extractJapaneseText` would find some text. */
  function Validate(content: string): (r: Validation)
    ensures r.Valid? <==> JapaneseTexts(Entries(content)) != []
    ensures r == Invalid(EmptyFile) <==> AllWhitespace(content)
    ensures r == Invalid(NoEntries) <==> !AllWhitespace(content) && Entries(content) == []
    ensures r == Invalid(NoJapanese) <==> Entries(content) != [] && JapaneseTexts(Entries(content)) == []
  {
    if Trim(content) == [] then
      BlankContentHasNoEntries(content);
      Invalid(EmptyFile)
    else
      var entries := Entries(content);
      if |entries| == 0 then Invalid(NoEntries)
      else if forall k :: 0 <= k < |entries| ==> !ContainsJapanese(entries[k].text) then Invalid(NoJapanese)
      else Valid
  }
}
