/**
 * `ExcoBlock.from_string`: split the text of a cell comment into the blocks
 * found between a start-marker line and an end-marker line.
 *
 * Three descriptions of the same behaviour live here:
 *   - `FromString`, the loop of the source, updating `in_marker`,
 *     `start_line`, `current_str` and the list of blocks line by line;
 *   - `ScanFrom`, the same loop as a function of the state between two lines;
 *   - `Blocks`, a declarative reference: list the marker lines in order
 *     (`Marks`), find the first one out of place (`FirstError`), and
 *     otherwise pair them up (`Pair`).
 * `FromString` is proved equal to `Blocks`, and the lemmas at the end say what
 * `Blocks` means in terms of the lines.
 */
module ExcoBlocks {
  import opened Base
  import opened Text

  /** One block: the 1-based lines of its two markers and the text strictly between them. */
  datatype ExcoBlock = ExcoBlock(startLine: nat, endLine: nat, raw: string)

  /** `TooManyBeginException`, `TooManyEndException` and `ExpectEndException`, with the line they report. */
  datatype BlockError = TooManyBegin(line: nat) | TooManyEnd(line: nat) | ExpectEnd

  /** What a line is to the scanner; the start marker is tested first. */
  datatype Kind = Begin | End | Body

  function Classify(line: string, startMarker: string, endMarker: string): Kind
  {
    var t := Strip(line);
    if t == startMarker then Begin else if t == endMarker then End else Body
  }

  // ---------------------------------------------------------------------------
  // The loop, as a function of its state

  /** The loop's variables `in_marker`, `start_line`, `current_str` and `ret` between two lines. */
  datatype ScanState = ScanState(inMarker: bool, startLine: nat, current: string, blocks: seq<ExcoBlock>)

  const Initial := ScanState(false, 0, "", [])

  /** One iteration of the loop, on line number `i`. */
  function Step(st: ScanState, i: nat, line: string, startMarker: string, endMarker: string): Result<ScanState, BlockError>
  {
    match Classify(line, startMarker, endMarker)
    case Begin =>
      if st.inMarker then Err(TooManyBegin(i)) else Ok(st.(inMarker := true, startLine := i))
    case End =>
      if !st.inMarker then Err(TooManyEnd(i))
      else Ok(ScanState(false, st.startLine, "", st.blocks + [ExcoBlock(st.startLine, i, st.current)]))
    case Body =>
      if st.inMarker then Ok(st.(current := st.current + line)) else Ok(st)
  }

  /** The rest of the loop from index `k` (line `k + 1`) on, followed by the final open-block check. */
  function ScanFrom(lines: seq<string>, k: nat, st: ScanState, startMarker: string, endMarker: string): Result<seq<ExcoBlock>, BlockError>
    requires k <= |lines|
    decreases |lines| - k
  {
    if k == |lines| then
      if st.inMarker then Err(ExpectEnd) else Ok(st.blocks)
    else
      match Step(st, k + 1, lines[k], startMarker, endMarker)
      case Err(e) => Err(e)
      case Ok(next) => ScanFrom(lines, k + 1, next, startMarker, endMarker)
  }

  // ---------------------------------------------------------------------------
  // The declarative reference

  /** A marker line: its 1-based number and whether it opens or closes a block. */
  datatype Mark = Mark(line: nat, kind: Kind)

  /** The marker lines from index `k` on, in order. */
  function Marks(lines: seq<string>, k: nat, startMarker: string, endMarker: string): seq<Mark>
    requires k <= |lines|
    decreases |lines| - k
  {
    if k == |lines| then []
    else
      var kind := Classify(lines[k], startMarker, endMarker);
      (if kind == Body then [] else [Mark(k + 1, kind)]) + Marks(lines, k + 1, startMarker, endMarker)
  }

  /** The first marker out of place when a block is `open` before `ms`, or the missing end marker. */
  function FirstError(ms: seq<Mark>, open: bool): Option<BlockError>
  {
    if ms == [] then
      if open then Some(ExpectEnd) else None
    else if ms[0].kind == Begin then
      if open then Some(TooManyBegin(ms[0].line)) else FirstError(ms[1..], true)
    else
      if !open then Some(TooManyEnd(ms[0].line)) else FirstError(ms[1..], false)
  }

  /** The text of the lines strictly between line `s` and line `e` (1-based), line breaks kept. */
  function Between(lines: seq<string>, s: nat, e: nat): string
  {
    if 1 <= s < e <= |lines| then Concat(lines[s..e - 1]) else ""
  }

  /** One block per consecutive pair of markers. */
  function Pair(ms: seq<Mark>, lines: seq<string>): seq<ExcoBlock>
  {
    if |ms| < 2 then []
    else [ExcoBlock(ms[0].line, ms[1].line, Between(lines, ms[0].line, ms[1].line))] + Pair(ms[2..], lines)
  }

  /** What `from_string` returns for the given lines, or the exception it raises. */
  function Blocks(lines: seq<string>, startMarker: string, endMarker: string): Result<seq<ExcoBlock>, BlockError>
  {
    var ms := Marks(lines, 0, startMarker, endMarker);
    match FirstError(ms, false)
    case Some(e) => Err(e)
    case None => Ok(Pair(ms, lines))
  }

  // ---------------------------------------------------------------------------
  // The scanner

  /** `ExcoBlock.from_string(comment, start_marker, end_marker)`. */
  method FromString(comment: string, startMarker: string, endMarker: string) returns (r: Result<seq<ExcoBlock>, BlockError>)
    ensures r == Blocks(SplitLines(comment), startMarker, endMarker)
  {
    var lines := SplitLines(comment);
    ScanAgreesWithBlocks(lines, startMarker, endMarker);
    var inMarker := false;
    var current := "";
    var startLine := 0;
    var ret: seq<ExcoBlock> := [];
    var i := 0;
    while i < |lines|
      invariant 0 <= i <= |lines|
      invariant ScanFrom(lines, i, ScanState(inMarker, startLine, current, ret), startMarker, endMarker)
             == ScanFrom(lines, 0, Initial, startMarker, endMarker)
    {
      var line := lines[i];
      var lineNo := i + 1;
      if Strip(line) == startMarker {
        if inMarker {
          return Err(TooManyBegin(lineNo));
        }
        inMarker := true;
        startLine := lineNo;
      } else if Strip(line) == endMarker {
        if !inMarker {
          return Err(TooManyEnd(lineNo));
        }
        inMarker := false;
        ret := ret + [ExcoBlock(startLine, lineNo, current)];
        current := "";
      } else if inMarker {
        current := current + line;
      }
      i := i + 1;
    }
    if inMarker {
      return Err(ExpectEnd);
    }
    return Ok(ret);
  }

  // ---------------------------------------------------------------------------
  // The loop computes the reference

  /** What the reference gives for the marker lines `ms` still to come, from scanner state `st`. */
  function Resume(st: ScanState, ms: seq<Mark>, lines: seq<string>): Result<seq<ExcoBlock>, BlockError>
  {
    match FirstError(ms, st.inMarker)
    case Some(e) => Err(e)
    case None => Ok(st.blocks + Pair(if st.inMarker then [Mark(st.startLine, Begin)] + ms else ms, lines))
  }

  /** Closing the open block moves one pair from the reference's pending marks into the finished blocks. */
  lemma CloseAgrees(st: ScanState, i: nat, ms: seq<Mark>, lines: seq<string>)
    requires st.inMarker && 1 <= st.startLine < i <= |lines|
    requires st.current == Concat(lines[st.startLine..i - 1])
    ensures Resume(st, [Mark(i, End)] + ms, lines)
         == Resume(ScanState(false, st.startLine, "", st.blocks + [ExcoBlock(st.startLine, i, st.current)]), ms, lines)
  {
    var b := Mark(st.startLine, Begin);
    var e := Mark(i, End);
    var blk := ExcoBlock(st.startLine, i, st.current);
    assert ([b] + ([e] + ms))[2..] == ms;
    assert Pair([b] + ([e] + ms), lines) == [blk] + Pair(ms, lines);
    assert st.blocks + ([blk] + Pair(ms, lines)) == (st.blocks + [blk]) + Pair(ms, lines);
    assert FirstError([e] + ms, true) == FirstError(ms, false);
  }

  /** The loop state after the first `k` lines: `current` holds the lines read since the open block's start marker. */
  ghost predicate Reachable(lines: seq<string>, k: nat, st: ScanState)
  {
    && k <= |lines|
    && (!st.inMarker ==> st.current == "")
    && (st.inMarker ==> 1 <= st.startLine <= k && st.current == Concat(lines[st.startLine..k]))
  }

  /** A successful iteration on line `k + 1` leads to a state reachable after `k + 1` lines. */
  lemma StepReachable(lines: seq<string>, k: nat, st: ScanState, startMarker: string, endMarker: string)
    requires Reachable(lines, k, st) && k < |lines|
    requires Step(st, k + 1, lines[k], startMarker, endMarker).Ok?
    ensures Reachable(lines, k + 1, Step(st, k + 1, lines[k], startMarker, endMarker).value)
  {
    var kind := Classify(lines[k], startMarker, endMarker);
    if kind == Body && st.inMarker {
      assert lines[st.startLine..k + 1] == lines[st.startLine..k] + [lines[k]];
      ConcatAppend(lines[st.startLine..k], lines[k]);
    } else if kind == Begin {
      assert lines[k + 1..k + 1] == [];
    }
  }

  /** One successful iteration on line `i` keeps the loop state and the reference in step. */
  lemma StepAgrees(st: ScanState, i: nat, line: string, startMarker: string, endMarker: string, ms: seq<Mark>, lines: seq<string>)
    requires 1 <= i <= |lines| && lines[i - 1] == line
    requires Reachable(lines, i - 1, st)
    requires Step(st, i, line, startMarker, endMarker).Ok?
    ensures var kind := Classify(line, startMarker, endMarker);
      Resume(st, (if kind == Body then [] else [Mark(i, kind)]) + ms, lines)
      == Resume(Step(st, i, line, startMarker, endMarker).value, ms, lines)
  {
    var kind := Classify(line, startMarker, endMarker);
    if kind == End {
      assert st.startLine < i;
      CloseAgrees(st, i, ms, lines);
    } else if kind == Begin {
      assert FirstError([Mark(i, Begin)] + ms, false) == FirstError(ms, true);
    } else {
      assert ([] + ms) == ms;
    }
  }

  /** An iteration that raises an error raises the one the reference reports. */
  lemma StepFailsAgrees(st: ScanState, i: nat, line: string, startMarker: string, endMarker: string, ms: seq<Mark>, lines: seq<string>)
    requires Step(st, i, line, startMarker, endMarker).Err?
    ensures var kind := Classify(line, startMarker, endMarker);
      Resume(st, (if kind == Body then [] else [Mark(i, kind)]) + ms, lines)
      == Err(Step(st, i, line, startMarker, endMarker).error)
  {
    var kind := Classify(line, startMarker, endMarker);
    assert kind != Body;
    var all := [Mark(i, kind)] + ms;
    assert all[0] == Mark(i, kind);
  }

  /** From any reachable state, the rest of the loop gives what the reference gives for the remaining marker lines. */
  lemma {:induction false} ScanFromAgrees(lines: seq<string>, k: nat, st: ScanState, startMarker: string, endMarker: string)
    requires Reachable(lines, k, st)
    ensures ScanFrom(lines, k, st, startMarker, endMarker) == Resume(st, Marks(lines, k, startMarker, endMarker), lines)
    decreases |lines| - k
  {
    if k == |lines| {
      assert st.blocks + Pair([], lines) == st.blocks;
    } else {
      var step := Step(st, k + 1, lines[k], startMarker, endMarker);
      if step.Ok? {
        var next := step.value;
        var kind := Classify(lines[k], startMarker, endMarker);
        var ms := Marks(lines, k + 1, startMarker, endMarker);
        assert ScanFrom(lines, k, st, startMarker, endMarker) == ScanFrom(lines, k + 1, next, startMarker, endMarker);
        assert Marks(lines, k, startMarker, endMarker) == (if kind == Body then [] else [Mark(k + 1, kind)]) + ms;
        StepReachable(lines, k, st, startMarker, endMarker);
        ScanFromAgrees(lines, k + 1, next, startMarker, endMarker);
        StepAgrees(st, k + 1, lines[k], startMarker, endMarker, ms, lines);
      } else {
        var ms := Marks(lines, k + 1, startMarker, endMarker);
        var kind := Classify(lines[k], startMarker, endMarker);
        assert Marks(lines, k, startMarker, endMarker) == (if kind == Body then [] else [Mark(k + 1, kind)]) + ms;
        StepFailsAgrees(st, k + 1, lines[k], startMarker, endMarker, ms, lines);
      }
    }
  }

  lemma ScanAgreesWithBlocks(lines: seq<string>, startMarker: string, endMarker: string)
    ensures ScanFrom(lines, 0, Initial, startMarker, endMarker) == Blocks(lines, startMarker, endMarker)
  {
    ScanFromAgrees(lines, 0, Initial, startMarker, endMarker);
    var ms := Marks(lines, 0, startMarker, endMarker);
    assert [] + Pair(ms, lines) == Pair(ms, lines);
  }

  // ---------------------------------------------------------------------------
  // What the reference means

  /** Every mark in `ms` is a marker line after index `k`, with the kind its line has. */
  ghost predicate SoundMarks(lines: seq<string>, k: nat, ms: seq<Mark>, startMarker: string, endMarker: string)
  {
    forall i :: 0 <= i < |ms| ==>
      && k < ms[i].line <= |lines|
      && ms[i].kind != Body
      && ms[i].kind == Classify(lines[ms[i].line - 1], startMarker, endMarker)
  }

  ghost predicate IncreasingLines(ms: seq<Mark>)
  {
    forall i, j :: 0 <= i < j < |ms| ==> ms[i].line < ms[j].line
  }

  /** Every marker line from index `k` on has its mark in `ms`. */
  ghost predicate CompleteMarks(lines: seq<string>, k: nat, ms: seq<Mark>, startMarker: string, endMarker: string)
  {
    forall t :: k <= t < |lines| && Classify(lines[t], startMarker, endMarker) != Body ==>
      Mark(t + 1, Classify(lines[t], startMarker, endMarker)) in ms
  }

  lemma {:induction false} MarksAreSound(lines: seq<string>, k: nat, startMarker: string, endMarker: string)
    requires k <= |lines|
    ensures SoundMarks(lines, k, Marks(lines, k, startMarker, endMarker), startMarker, endMarker)
    decreases |lines| - k
  {
    if k < |lines| {
      MarksAreSound(lines, k + 1, startMarker, endMarker);
    }
  }

  lemma {:induction false} MarksIncrease(lines: seq<string>, k: nat, startMarker: string, endMarker: string)
    requires k <= |lines|
    ensures IncreasingLines(Marks(lines, k, startMarker, endMarker))
    decreases |lines| - k
  {
    if k < |lines| {
      MarksIncrease(lines, k + 1, startMarker, endMarker);
      MarksAreSound(lines, k + 1, startMarker, endMarker);
      var rest := Marks(lines, k + 1, startMarker, endMarker);
      var kind := Classify(lines[k], startMarker, endMarker);
      if kind != Body {
        var all := [Mark(k + 1, kind)] + rest;
        assert Marks(lines, k, startMarker, endMarker) == all;
        forall i, j | 0 <= i < j < |all| ensures all[i].line < all[j].line {
          assert all[j] == rest[j - 1];
          if i > 0 {
            assert all[i] == rest[i - 1];
          }
        }
      } else {
        assert Marks(lines, k, startMarker, endMarker) == rest;
      }
    }
  }

  lemma {:induction false} MarksAreComplete(lines: seq<string>, k: nat, startMarker: string, endMarker: string)
    requires k <= |lines|
    ensures CompleteMarks(lines, k, Marks(lines, k, startMarker, endMarker), startMarker, endMarker)
    decreases |lines| - k
  {
    if k < |lines| {
      MarksAreComplete(lines, k + 1, startMarker, endMarker);
    }
  }

  /** The kind the `i`-th marker must have when a block is `open` before the first one. */
  function ExpectedKind(i: nat, open: bool): Kind
  {
    if (i % 2 == 0) != open then Begin else End
  }

  predicate Alternate(ms: seq<Mark>, open: bool)
  {
    forall i :: 0 <= i < |ms| ==> ms[i].kind == ExpectedKind(i, open)
  }

  /** Markers that pair up: begin, end, begin, end, ..., with an end last. */
  predicate Balanced(ms: seq<Mark>)
  {
    Alternate(ms, false) && |ms| % 2 == 0
  }

  lemma AlternateShift(ms: seq<Mark>, open: bool)
    requires ms != []
    ensures Alternate(ms, open) <==> ms[0].kind == ExpectedKind(0, open) && Alternate(ms[1..], !open)
  {
    if ms[0].kind == ExpectedKind(0, open) && Alternate(ms[1..], !open) {
      forall i | 1 <= i < |ms| ensures ms[i].kind == ExpectedKind(i, open) {
        assert ms[i] == ms[1..][i - 1];
      }
    }
  }

  /** `FirstError` finds nothing, or only the missing end marker, exactly when every marker is where it should be. */
  lemma {:induction false} FirstErrorAtEnd(ms: seq<Mark>, open: bool)
    requires OnlyMarkers(ms)
    ensures FirstError(ms, open) == None <==> Alternate(ms, open) && ExpectedKind(|ms|, open) == Begin
    ensures FirstError(ms, open) == Some(ExpectEnd) <==> Alternate(ms, open) && ExpectedKind(|ms|, open) == End
  {
    if ms != [] {
      AlternateShift(ms, open);
      if ms[0].kind == ExpectedKind(0, open) {
        FirstErrorAtEnd(ms[1..], !open);
        assert ExpectedKind(|ms|, open) == ExpectedKind(|ms[1..]|, !open);
      }
    }
  }

  lemma ExpectedKindShift(i: nat, open: bool)
    ensures ExpectedKind(i + 1, open) == ExpectedKind(i, !open)
  {
  }

  /** A prefix of alternating markers alternates too. */
  lemma AlternatePrefix(ms: seq<Mark>, open: bool, n: nat)
    requires n <= |ms| && Alternate(ms, open)
    ensures Alternate(ms[..n], open)
  {
    forall i | 0 <= i < n ensures ms[..n][i].kind == ExpectedKind(i, open) {
      assert ms[..n][i] == ms[i];
    }
  }

  /** A reported `TooManyBegin(l)` is the start marker at line `l`, the `i`-th, met while a block is open. */
  lemma {:induction false} FirstErrorTooManyBegin(ms: seq<Mark>, open: bool, l: nat) returns (i: nat)
    requires OnlyMarkers(ms)
    requires FirstError(ms, open) == Some(TooManyBegin(l))
    ensures i < |ms| && ms[i] == Mark(l, Begin) && ExpectedKind(i, open) == End && Alternate(ms[..i], open)
  {
    if ms[0].kind == ExpectedKind(0, open) {
      var rest := ms[1..];
      var k := FirstErrorTooManyBegin(rest, !open, l);
      i := k + 1;
      var prefix := ms[..i];
      assert prefix[1..] == rest[..k];
      assert prefix[0] == ms[0];
      AlternateShift(prefix, open);
      assert ms[i] == rest[k];
      ExpectedKindShift(k, open);
    } else {
      i := 0;
      assert ms[..0] == [];
    }
  }

  /** A reported `TooManyEnd(l)` is the end marker at line `l`, the `i`-th, met while no block is open. */
  lemma {:induction false} FirstErrorTooManyEnd(ms: seq<Mark>, open: bool, l: nat) returns (i: nat)
    requires OnlyMarkers(ms)
    requires FirstError(ms, open) == Some(TooManyEnd(l))
    ensures i < |ms| && ms[i] == Mark(l, End) && ExpectedKind(i, open) == Begin && Alternate(ms[..i], open)
  {
    if ms[0].kind == ExpectedKind(0, open) {
      var rest := ms[1..];
      var k := FirstErrorTooManyEnd(rest, !open, l);
      i := k + 1;
      var prefix := ms[..i];
      assert prefix[1..] == rest[..k];
      assert prefix[0] == ms[0];
      AlternateShift(prefix, open);
      assert ms[i] == rest[k];
      ExpectedKindShift(k, open);
    } else {
      i := 0;
      assert ms[..0] == [];
    }
  }

  lemma {:induction false} PairShape(ms: seq<Mark>, lines: seq<string>)
    requires |ms| % 2 == 0
    ensures |Pair(ms, lines)| == |ms| / 2
    ensures forall j :: 0 <= j < |ms| / 2 ==>
      Pair(ms, lines)[j] == ExcoBlock(ms[2 * j].line, ms[2 * j + 1].line, Between(lines, ms[2 * j].line, ms[2 * j + 1].line))
  {
    if |ms| >= 2 {
      var rest := ms[2..];
      PairShape(rest, lines);
      forall j | 1 <= j < |ms| / 2
        ensures Pair(ms, lines)[j] == ExcoBlock(ms[2 * j].line, ms[2 * j + 1].line, Between(lines, ms[2 * j].line, ms[2 * j + 1].line))
      {
        assert Pair(ms, lines)[j] == Pair(rest, lines)[j - 1];
        assert ms[2 * j] == rest[2 * (j - 1)] && ms[2 * j + 1] == rest[2 * (j - 1) + 1];
      }
    }
  }

  /** No mark of `ms` is a body line. */
  predicate OnlyMarkers(ms: seq<Mark>)
  {
    forall i :: 0 <= i < |ms| ==> ms[i].kind != Body
  }

  /** `bs` holds one block per consecutive pair of `ms`, with the text between the pair. */
  ghost predicate PairsOf(bs: seq<ExcoBlock>, ms: seq<Mark>, lines: seq<string>)
  {
    && |ms| == 2 * |bs|
    && forall j :: 0 <= j < |bs| ==>
         && bs[j].startLine == ms[2 * j].line
         && bs[j].endLine == ms[2 * j + 1].line
         && bs[j].raw == Between(lines, ms[2 * j].line, ms[2 * j + 1].line)
  }

  /**
   * `from_string` returns blocks exactly when the marker lines pair up (start,
   * end, start, end, ...); block `j` then spans the `j`-th pair, in order of
   * appearance, and holds the text between them.
   */
  lemma BlocksOkIffBalanced(lines: seq<string>, startMarker: string, endMarker: string)
    ensures Blocks(lines, startMarker, endMarker).Ok? <==> Balanced(Marks(lines, 0, startMarker, endMarker))
    ensures Blocks(lines, startMarker, endMarker).Ok? ==>
      PairsOf(Blocks(lines, startMarker, endMarker).value, Marks(lines, 0, startMarker, endMarker), lines)
  {
    var ms := Marks(lines, 0, startMarker, endMarker);
    assert OnlyMarkers(ms) by {
      MarksAreSound(lines, 0, startMarker, endMarker);
    }
    FirstErrorAtEnd(ms, false);
    if Balanced(ms) {
      PairShape(ms, lines);
    }
  }

  /** Each block opens on a start-marker line, closes on a later end-marker line, and holds the lines between. */
  lemma PairedBlocksSpan(lines: seq<string>, ms: seq<Mark>, bs: seq<ExcoBlock>, startMarker: string, endMarker: string)
    requires PairsOf(bs, ms, lines) && Balanced(ms) && IncreasingLines(ms)
    requires SoundMarks(lines, 0, ms, startMarker, endMarker)
    ensures forall j :: 0 <= j < |bs| ==>
      && 1 <= bs[j].startLine < bs[j].endLine <= |lines|
      && Classify(lines[bs[j].startLine - 1], startMarker, endMarker) == Begin
      && Classify(lines[bs[j].endLine - 1], startMarker, endMarker) == End
      && bs[j].raw == Concat(lines[bs[j].startLine..bs[j].endLine - 1])
  {
    forall j | 0 <= j < |bs|
      ensures 1 <= bs[j].startLine < bs[j].endLine <= |lines|
      ensures Classify(lines[bs[j].startLine - 1], startMarker, endMarker) == Begin
      ensures Classify(lines[bs[j].endLine - 1], startMarker, endMarker) == End
      ensures bs[j].raw == Concat(lines[bs[j].startLine..bs[j].endLine - 1])
    {
      assert ms[2 * j].kind == ExpectedKind(2 * j, false);
      assert ms[2 * j + 1].kind == ExpectedKind(2 * j + 1, false);
      assert ms[2 * j].line < ms[2 * j + 1].line;
    }
  }

  /** No mark lies strictly between two consecutive marks. */
  lemma NoMarkBetween(ms: seq<Mark>, a: nat, i: nat)
    requires IncreasingLines(ms) && a + 1 < |ms| && i < |ms|
    ensures ms[i].line <= ms[a].line || ms[a + 1].line <= ms[i].line
  {
    if i < a {
      assert ms[i].line < ms[a].line;
    } else if a + 1 < i {
      assert ms[a + 1].line < ms[i].line;
    }
  }

  /** A line strictly between two consecutive marks is not a marker line. */
  lemma BodyBetween(lines: seq<string>, ms: seq<Mark>, a: nat, t: nat, startMarker: string, endMarker: string)
    requires IncreasingLines(ms) && CompleteMarks(lines, 0, ms, startMarker, endMarker)
    requires a + 1 < |ms| && ms[a].line <= t < ms[a + 1].line - 1 && t < |lines|
    ensures Classify(lines[t], startMarker, endMarker) == Body
  {
    forall i | 0 <= i < |ms| ensures ms[i].line != t + 1 {
      NoMarkBetween(ms, a, i);
    }
    assert Mark(t + 1, Begin) !in ms;
    assert Mark(t + 1, End) !in ms;
  }

  /** No marker line lies strictly inside a block. */
  lemma PairedBlocksHoldBody(lines: seq<string>, ms: seq<Mark>, bs: seq<ExcoBlock>, startMarker: string, endMarker: string)
    requires PairsOf(bs, ms, lines) && IncreasingLines(ms)
    requires CompleteMarks(lines, 0, ms, startMarker, endMarker)
    ensures forall j, t :: 0 <= j < |bs| && bs[j].startLine <= t < bs[j].endLine - 1 && t < |lines| ==>
      Classify(lines[t], startMarker, endMarker) == Body
  {
    forall j, t | 0 <= j < |bs| && bs[j].startLine <= t < bs[j].endLine - 1 && t < |lines|
      ensures Classify(lines[t], startMarker, endMarker) == Body
    {
      assert bs[j].startLine == ms[2 * j].line && bs[j].endLine == ms[2 * j + 1].line;
      BodyBetween(lines, ms, 2 * j, t, startMarker, endMarker);
    }
  }

  /** Each block ends before the next one starts. */
  lemma PairedBlocksInOrder(lines: seq<string>, ms: seq<Mark>, bs: seq<ExcoBlock>)
    requires PairsOf(bs, ms, lines) && IncreasingLines(ms)
    ensures forall j :: 0 <= j < |bs| - 1 ==> bs[j].endLine < bs[j + 1].startLine
  {
    forall j | 0 <= j < |bs| - 1 ensures bs[j].endLine < bs[j + 1].startLine {
      assert ms[2 * j + 1].line < ms[2 * (j + 1)].line;
    }
  }

  /** Every marker line opens or closes some block. */
  lemma PairedBlocksCover(lines: seq<string>, ms: seq<Mark>, bs: seq<ExcoBlock>, startMarker: string, endMarker: string)
    requires PairsOf(bs, ms, lines)
    requires CompleteMarks(lines, 0, ms, startMarker, endMarker)
    ensures forall t :: 0 <= t < |lines| && Classify(lines[t], startMarker, endMarker) != Body ==>
      exists j :: 0 <= j < |bs| && (bs[j].startLine == t + 1 || bs[j].endLine == t + 1)
  {
    forall t | 0 <= t < |lines| && Classify(lines[t], startMarker, endMarker) != Body
      ensures exists j :: 0 <= j < |bs| && (bs[j].startLine == t + 1 || bs[j].endLine == t + 1)
    {
      var i :| 0 <= i < |ms| && ms[i] == Mark(t + 1, Classify(lines[t], startMarker, endMarker));
      var j := i / 2;
      if i % 2 == 0 {
        assert bs[j].startLine == t + 1;
      } else {
        assert bs[j].endLine == t + 1;
      }
    }
  }

  /**
   * The blocks in terms of the lines: each block's markers are a start-marker
   * line and a later end-marker line with only non-marker lines between them,
   * its `raw` is those lines joined with their line breaks, blocks follow one
   * another, and every marker line is the start or the end of some block.
   */
  lemma BlocksSpanMarkerLines(lines: seq<string>, startMarker: string, endMarker: string, bs: seq<ExcoBlock>)
    requires Blocks(lines, startMarker, endMarker) == Ok(bs)
    ensures forall j :: 0 <= j < |bs| ==>
      && 1 <= bs[j].startLine < bs[j].endLine <= |lines|
      && Classify(lines[bs[j].startLine - 1], startMarker, endMarker) == Begin
      && Classify(lines[bs[j].endLine - 1], startMarker, endMarker) == End
      && bs[j].raw == Concat(lines[bs[j].startLine..bs[j].endLine - 1])
    ensures forall j, t :: 0 <= j < |bs| && bs[j].startLine <= t < bs[j].endLine - 1 ==>
      Classify(lines[t], startMarker, endMarker) == Body
    ensures forall j :: 0 <= j < |bs| - 1 ==> bs[j].endLine < bs[j + 1].startLine
    ensures forall t :: 0 <= t < |lines| && Classify(lines[t], startMarker, endMarker) != Body ==>
      exists j :: 0 <= j < |bs| && (bs[j].startLine == t + 1 || bs[j].endLine == t + 1)
  {
    var ms := Marks(lines, 0, startMarker, endMarker);
    BlocksOkIffBalanced(lines, startMarker, endMarker);
    assert PairsOf(bs, ms, lines) && Balanced(ms);
    assert SoundMarks(lines, 0, ms, startMarker, endMarker) by {
      MarksAreSound(lines, 0, startMarker, endMarker);
    }
    assert IncreasingLines(ms) by {
      MarksIncrease(lines, 0, startMarker, endMarker);
    }
    assert CompleteMarks(lines, 0, ms, startMarker, endMarker) by {
      MarksAreComplete(lines, 0, startMarker, endMarker);
    }
    PairedBlocksSpan(lines, ms, bs, startMarker, endMarker);
    PairedBlocksHoldBody(lines, ms, bs, startMarker, endMarker);
    PairedBlocksInOrder(lines, ms, bs);
    PairedBlocksCover(lines, ms, bs, startMarker, endMarker);
  }

  /** Line `l` holds a start marker that follows another start marker, all markers before that one paired up. */
  ghost predicate BeginWhileOpen(ms: seq<Mark>, l: nat)
  {
    exists i :: 1 <= i < |ms| && ms[i] == Mark(l, Begin) && ms[i - 1].kind == Begin && Balanced(ms[..i - 1])
  }

  /** Line `l` holds an end marker, all markers before it paired up. */
  ghost predicate EndWhileClosed(ms: seq<Mark>, l: nat)
  {
    exists i :: 0 <= i < |ms| && ms[i] == Mark(l, End) && Balanced(ms[..i])
  }

  /** With no block open at first, a `TooManyBegin(l)` is a start marker right after another start marker, all earlier markers paired. */
  lemma TooManyBeginAfterBegin(ms: seq<Mark>, l: nat)
    requires OnlyMarkers(ms)
    requires FirstError(ms, false) == Some(TooManyBegin(l))
    ensures BeginWhileOpen(ms, l)
  {
    var i := FirstErrorTooManyBegin(ms, false, l);
    assert i % 2 == 1;
    var prefix := ms[..i];
    assert prefix[i - 1] == ms[i - 1];
    assert prefix[i - 1].kind == ExpectedKind(i - 1, false) == Begin;
    var pre := ms[..i - 1];
    assert forall j :: 0 <= j < |pre| ==> pre[j] == prefix[j];
    assert Balanced(pre);
  }

  /** With no block open at first, a `TooManyEnd(l)` is an end marker met when all earlier markers are paired. */
  lemma TooManyEndAfterPairs(ms: seq<Mark>, l: nat)
    requires OnlyMarkers(ms)
    requires FirstError(ms, false) == Some(TooManyEnd(l))
    ensures EndWhileClosed(ms, l)
  {
    var i := FirstErrorTooManyEnd(ms, false, l);
    assert |ms[..i]| == i;
    assert Balanced(ms[..i]);
  }

  /** A `TooManyBegin(l)` error reports a start-marker line `l` met while the block opened by the previous marker is still open. */
  lemma TooManyBeginMeansOpenBlock(lines: seq<string>, startMarker: string, endMarker: string, l: nat)
    requires Blocks(lines, startMarker, endMarker) == Err(TooManyBegin(l))
    ensures 1 <= l <= |lines| && Classify(lines[l - 1], startMarker, endMarker) == Begin
    ensures BeginWhileOpen(Marks(lines, 0, startMarker, endMarker), l)
  {
    var ms := Marks(lines, 0, startMarker, endMarker);
    assert FirstError(ms, false) == Some(TooManyBegin(l));
    assert OnlyMarkers(ms) by {
      MarksAreSound(lines, 0, startMarker, endMarker);
    }
    TooManyBeginAfterBegin(ms, l);
    var i :| 1 <= i < |ms| && ms[i] == Mark(l, Begin) && ms[i - 1].kind == Begin && Balanced(ms[..i - 1]);
    assert SoundMarks(lines, 0, ms, startMarker, endMarker) by {
      MarksAreSound(lines, 0, startMarker, endMarker);
    }
    assert 1 <= ms[i].line <= |lines| && ms[i].kind == Classify(lines[ms[i].line - 1], startMarker, endMarker);
  }

  /** A `TooManyEnd(l)` error reports an end-marker line `l` met when every earlier marker is already paired. */
  lemma TooManyEndMeansNoOpenBlock(lines: seq<string>, startMarker: string, endMarker: string, l: nat)
    requires Blocks(lines, startMarker, endMarker) == Err(TooManyEnd(l))
    ensures 1 <= l <= |lines| && Classify(lines[l - 1], startMarker, endMarker) == End
    ensures EndWhileClosed(Marks(lines, 0, startMarker, endMarker), l)
  {
    var ms := Marks(lines, 0, startMarker, endMarker);
    assert FirstError(ms, false) == Some(TooManyEnd(l));
    assert OnlyMarkers(ms) by {
      MarksAreSound(lines, 0, startMarker, endMarker);
    }
    TooManyEndAfterPairs(ms, l);
    var i :| 0 <= i < |ms| && ms[i] == Mark(l, End) && Balanced(ms[..i]);
    assert SoundMarks(lines, 0, ms, startMarker, endMarker) by {
      MarksAreSound(lines, 0, startMarker, endMarker);
    }
    assert 1 <= ms[i].line <= |lines| && ms[i].kind == Classify(lines[ms[i].line - 1], startMarker, endMarker);
  }

  /** An `ExpectEnd` error means the markers pair up except for a last, unclosed start marker. */
  lemma ExpectEndMeansUnclosedBlock(lines: seq<string>, startMarker: string, endMarker: string)
    requires Blocks(lines, startMarker, endMarker) == Err(ExpectEnd)
    ensures var ms := Marks(lines, 0, startMarker, endMarker);
      |ms| % 2 == 1 && ms[|ms| - 1].kind == Begin && Balanced(ms[..|ms| - 1])
  {
    var ms := Marks(lines, 0, startMarker, endMarker);
    assert OnlyMarkers(ms) by {
      MarksAreSound(lines, 0, startMarker, endMarker);
    }
    FirstErrorAtEnd(ms, false);
    AlternatePrefix(ms, false, |ms| - 1);
  }
}
