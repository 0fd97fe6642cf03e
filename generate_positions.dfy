/**
 * generate_positions.py: reading a v2.0 file whose states are written in the
 * binary form (base64 of a nibble-packed board, then "[w]" or "[b]"), turning each
 * state into the run-length text form, and collecting the graph.
 *
 * Base64 decoding is a parameter `decode` (None when the text does not decode);
 * the graph layout and the JSON output are not part of this model.
 */
module GeneratePositions {
  import opened Wrappers
  import opened Text
  import LegacyEvaluate

  newtype byte = x: int | 0 <= x < 256

  // ---------------------------------------------------------------------------
  // binary_to_state: unpacking

  /** The two squares one byte packs, high nibble first. */
  function NibblesOf(b: byte): seq<int> {
    [(b as int) / 16, (b as int) % 16]
  }

  /** The square list the byte loop builds. */
  function Nibbles(data: seq<byte>): seq<int> {
    if data == [] then []
    else Nibbles(data[..|data| - 1]) + NibblesOf(data[|data| - 1])
  }

  /**
   * Every byte becomes two squares in 0..15, high nibble first, and the pair
   * packs back to the byte, so nothing is lost.
   */
  lemma {:induction false} NibblesShape(data: seq<byte>)
    ensures |Nibbles(data)| == 2 * |data|
    ensures forall k :: 0 <= k < |Nibbles(data)| ==> 0 <= Nibbles(data)[k] < 16
    ensures forall i :: 0 <= i < |data| ==>
      Nibbles(data)[2 * i] == data[i] as int / 16 && Nibbles(data)[2 * i + 1] == data[i] as int % 16
    ensures forall i :: 0 <= i < |data| ==> Nibbles(data)[2 * i] * 16 + Nibbles(data)[2 * i + 1] == data[i] as int
    decreases |data|
  {
    if data != [] {
      var init := data[..|data| - 1];
      NibblesShape(init);
      assert forall i :: 0 <= i < |init| ==> init[i] == data[i];
    }
  }

  // ---------------------------------------------------------------------------
  // binary_to_state: run-length text

  /** num_to_piece.get(square, '?'): squares 1..12 are the letters A..L, anything else '?'. */
  const NUM_TO_PIECE: string := "ABCDEFGHIJKL"

  function NibbleLetter(n: int): (c: char)
    ensures 1 <= n <= 12 ==> c == NUM_TO_PIECE[n - 1]
    ensures !(1 <= n <= 12) ==> c == '?'
    ensures !IsDigit(c)
  {
    if 1 <= n <= 12 then NUM_TO_PIECE[n - 1] else '?'
  }

  /** What the flushing loop writes for a run of `count` empty squares: 9s, then the remainder. */
  function Flush(count: nat): string
    decreases count
  {
    if count == 0 then ""
    else if count >= 9 then "9" + Flush(count - 9)
    else [DigitChar(count)]
  }

  /** A flushed run is made of digits 1..9 only, and reads back as exactly `count` empty squares. */
  lemma {:induction false} FlushReadsBack(count: nat)
    ensures forall k :: 0 <= k < |Flush(count)| ==> '1' <= Flush(count)[k] <= '9'
    ensures LegacyEvaluate.Expand(Flush(count)) == LegacyEvaluate.Empties(count)
    decreases count
  {
    if count >= 9 {
      FlushReadsBack(count - 9);
      LegacyEvaluate.ExpandAppend("9", Flush(count - 9));
      LegacyEvaluate.ExpandOne('9');
      assert LegacyEvaluate.Empties(9) + LegacyEvaluate.Empties(count - 9) == LegacyEvaluate.Empties(count);
    } else if count > 0 {
      LegacyEvaluate.ExpandRunDigit(count);
    }
  }

  /** The state (output, empty_count) of the square loop after the given squares. */
  function EncodeRun(squares: seq<int>): (string, nat) {
    if squares == [] then ("", 0)
    else
      var prev := EncodeRun(squares[..|squares| - 1]);
      var last := squares[|squares| - 1];
      if last == 0 then (prev.0, prev.1 + 1)
      else (prev.0 + Flush(prev.1) + [NibbleLetter(last)], 0)
  }

  /** The run-length text of a square list: the loop's output, then the trailing run. */
  function EncodeBody(squares: seq<int>): string {
    var run := EncodeRun(squares);
    run.0 + Flush(run.1)
  }

  /** How a square reads back: 0 is empty, any other value the letter it is written as. */
  function Cell(n: int): LegacyEvaluate.Square {
    if n == 0 then None else Some(NibbleLetter(n))
  }

  function Cells(squares: seq<int>): seq<LegacyEvaluate.Square> {
    seq(|squares|, i requires 0 <= i < |squares| => Cell(squares[i]))
  }

  lemma {:induction false} EncodeRunReadsBack(squares: seq<int>)
    ensures LegacyEvaluate.Expand(EncodeRun(squares).0) + LegacyEvaluate.Empties(EncodeRun(squares).1) == Cells(squares)
    decreases |squares|
  {
    if squares == [] {
      assert LegacyEvaluate.Expand("") == [];
    } else {
      var init := squares[..|squares| - 1];
      var last := squares[|squares| - 1];
      var prev := EncodeRun(init);
      EncodeRunReadsBack(init);
      assert Cells(squares) == Cells(init) + [Cell(last)];
      if last == 0 {
        assert LegacyEvaluate.Empties(prev.1 + 1) == LegacyEvaluate.Empties(prev.1) + [None];
      } else {
        var letter := NibbleLetter(last);
        LegacyEvaluate.ExpandAppend(prev.0 + Flush(prev.1), [letter]);
        LegacyEvaluate.ExpandAppend(prev.0, Flush(prev.1));
        LegacyEvaluate.ExpandOne(letter);
        FlushReadsBack(prev.1);
        assert LegacyEvaluate.Empties(0) == [];
      }
    }
  }

  /**
   * Reading the text back, a digit d as d empty squares and a letter as one
   * square, gives exactly the unpacked squares, with '?' for 13..15.
   */
  lemma EncodeBodyReadsBack(squares: seq<int>)
    ensures LegacyEvaluate.Expand(EncodeBody(squares)) == Cells(squares)
  {
    var run := EncodeRun(squares);
    EncodeRunReadsBack(squares);
    LegacyEvaluate.ExpandAppend(run.0, Flush(run.1));
    FlushReadsBack(run.1);
  }

  /** The text form of a decoded board followed by its side to move. */
  function DecodedState(data: seq<byte>, turn: char): string {
    EncodeBody(Nibbles(data)) + "[" + [turn] + "]"
  }

  /** binary_to_state on a state, given the base64 decoder. */
  function StateText(state: string, decode: string -> Option<seq<byte>>): string {
    if state == "start[w]" then state
    else if EndsWith(state, "[w]") || EndsWith(state, "[b]") then
      match decode(state[..|state| - 3])
      case None => state
      case Some(data) => DecodedState(data, if EndsWith(state, "[w]") then 'w' else 'b')
    else state
  }

  /**
   * "start[w]" and every state without a "[w]" or "[b]" suffix, or whose base64
   * part does not decode, are returned as they are.  Otherwise the result ends
   * with the same suffix and its body reads back to the unpacked board, two
   * squares per byte.
   */
  lemma StateTextMeaning(state: string, decode: string -> Option<seq<byte>>)
    ensures state == "start[w]" ==> StateText(state, decode) == state
    ensures !EndsWith(state, "[w]") && !EndsWith(state, "[b]") ==> StateText(state, decode) == state
    ensures state != "start[w]" && (EndsWith(state, "[w]") || EndsWith(state, "[b]")) ==>
      var r := StateText(state, decode);
      match decode(state[..|state| - 3])
      case None => r == state
      case Some(data) =>
        EndsWith(r, state[|state| - 3..]) &&
        LegacyEvaluate.Expand(r[..|r| - 3]) == Cells(Nibbles(data)) &&
        |LegacyEvaluate.Expand(r[..|r| - 3])| == 2 * |data|
  {
    if state != "start[w]" && (EndsWith(state, "[w]") || EndsWith(state, "[b]")) {
      match decode(state[..|state| - 3])
      case None =>
      case Some(data) =>
        var turn := if EndsWith(state, "[w]") then 'w' else 'b';
        DecodedStateMeaning(data, turn);
        assert state[|state| - 3..] == "[" + [turn] + "]";
    }
  }

  /** A decoded state is the run-length body of its squares, then the side to move in brackets. */
  lemma DecodedStateMeaning(data: seq<byte>, turn: char)
    ensures var r := DecodedState(data, turn);
      |r| >= 3 && r[|r| - 3..] == "[" + [turn] + "]" &&
      LegacyEvaluate.Expand(r[..|r| - 3]) == Cells(Nibbles(data)) &&
      |LegacyEvaluate.Expand(r[..|r| - 3])| == 2 * |data|
  {
    var body := EncodeBody(Nibbles(data));
    var r := DecodedState(data, turn);
    assert r == body + ("[" + [turn] + "]");
    assert r[..|r| - 3] == body;
    EncodeBodyReadsBack(Nibbles(data));
    NibblesLength(data);
  }

  lemma NibblesLength(data: seq<byte>)
    ensures |Nibbles(data)| == 2 * |data|
  {
    NibblesShape(data);
  }

  /** The while loop that drains empty_count into the output. */
  method FlushEmpties(output: string, count: nat) returns (out: string)
    ensures out == output + Flush(count)
  {
    out := output;
    var emptyCount := count;
    while emptyCount > 0
      invariant out + Flush(emptyCount) == output + Flush(count)
      decreases emptyCount
    {
      if emptyCount >= 9 {
        assert Flush(emptyCount) == "9" + Flush(emptyCount - 9);
        out := out + "9";
        emptyCount := emptyCount - 9;
      } else {
        out := out + [DigitChar(emptyCount)];
        emptyCount := 0;
      }
    }
    assert out + Flush(0) == out;
  }

  /** binary_to_state: the byte loop filling `squares`, then the square loop writing `output`. */
  method BinaryToState(state: string, decode: string -> Option<seq<byte>>) returns (r: string)
    ensures r == StateText(state, decode)
  {
    if state == "start[w]" {
      return state;
    }
    var turn;
    if EndsWith(state, "[w]") {
      turn := 'w';
    } else if EndsWith(state, "[b]") {
      turn := 'b';
    } else {
      return state;
    }
    var decoded := decode(state[..|state| - 3]);
    if decoded.None? {
      return state;
    }
    var data := decoded.value;
    var squares := Unpack(data);
    var output := EncodeSquares(squares);
    r := output + "[" + [turn] + "]";
  }

  /** The byte loop: two squares per byte, high nibble first. */
  method Unpack(data: seq<byte>) returns (squares: seq<int>)
    ensures squares == Nibbles(data)
  {
    squares := [];
    var i := 0;
    while i < |data|
      invariant 0 <= i <= |data|
      invariant squares == Nibbles(data[..i])
    {
      assert data[..i + 1][..i] == data[..i];
      var high := (data[i] as int / 16) % 16;
      var low := data[i] as int % 16;
      squares := squares + [high];
      squares := squares + [low];
      i := i + 1;
    }
    assert data[..i] == data;
  }

  /** The square loop with its run counter, then the final flush. */
  method EncodeSquares(squares: seq<int>) returns (output: string)
    ensures output == EncodeBody(squares)
  {
    output := "";
    var emptyCount: nat := 0;
    var j := 0;
    while j < |squares|
      invariant 0 <= j <= |squares|
      invariant (output, emptyCount) == EncodeRun(squares[..j])
    {
      assert squares[..j + 1][..j] == squares[..j];
      var square := squares[j];
      if square == 0 {
        emptyCount := emptyCount + 1;
      } else {
        output := FlushEmpties(output, emptyCount);
        emptyCount := 0;
        output := output + [NibbleLetter(square)];
      }
      j := j + 1;
    }
    assert squares[..j] == squares;
    output := FlushEmpties(output, emptyCount);
  }

  // ---------------------------------------------------------------------------
  // parse_v2_file

  /** How generate_positions.py treats a line after the header. */
  datatype GraphLine = Skipped | Malformed | Transition(edge: LegacyEvaluate.V2Edge)

  /** An edge with both endpoints turned into the text form. */
  function Converted(e: LegacyEvaluate.V2Edge, decode: string -> Option<seq<byte>>): LegacyEvaluate.V2Edge {
    LegacyEvaluate.V2Edge(StateText(e.from, decode), StateText(e.to, decode), e.annotation)
  }

  function ClassifyLine(raw: string, decode: string -> Option<seq<byte>>): GraphLine {
    var line := Strip(raw);
    if line == "" then Skipped
    else if !Contains(line, "->") then Malformed
    else
      var parts := Split(line, "->");
      if |parts| != 2 then Malformed
      else Transition(Converted(LegacyEvaluate.SplitTarget(Strip(parts[0]), parts[1]), decode))
  }

  /**
   * Line by line this is evaluate.py's reading with both endpoints turned into the
   * text form, except that a position line, which carries no "->", is reported as
   * malformed instead of passed over.
   */
  lemma ClassifyAgrees(raw: string, decode: string -> Option<seq<byte>>)
    ensures ClassifyLine(raw, decode) ==
      match LegacyEvaluate.ClassifyV2(raw)
      case Blank => Skipped
      case PositionDef => Malformed
      case Malformed => Malformed
      case Transition(e) => Transition(Converted(e, decode))
  {
  }

  /** The effect of line number lineNo on (states, edges, warnings). */
  function StepGraph(acc: LegacyEvaluate.V2Acc, raw: string, lineNo: nat, decode: string -> Option<seq<byte>>): LegacyEvaluate.V2Acc {
    ApplyLine(acc, ClassifyLine(raw, decode), lineNo)
  }

  function ApplyLine(acc: LegacyEvaluate.V2Acc, line: GraphLine, lineNo: nat): LegacyEvaluate.V2Acc {
    match line
    case Transition(e) => acc.(states := acc.states + {e.from, e.to}, edges := acc.edges + [e])
    case Malformed => acc.(warnings := acc.warnings + [LegacyEvaluate.MalformedLine(lineNo)])
    case Skipped => acc
  }

  /** One pass of the line loop, for a given decoder. */
  function GraphStep(decode: string -> Option<seq<byte>>): (LegacyEvaluate.V2Acc, string, nat) -> LegacyEvaluate.V2Acc {
    (acc: LegacyEvaluate.V2Acc, raw: string, lineNo: nat) => StepGraph(acc, raw, lineNo, decode)
  }

  /** The state after `step` is applied to the lines `body`, the first of which is line number `first`. */
  function Fold(step: (LegacyEvaluate.V2Acc, string, nat) -> LegacyEvaluate.V2Acc, acc: LegacyEvaluate.V2Acc, body: seq<string>, first: nat): LegacyEvaluate.V2Acc
    decreases |body|
  {
    if body == [] then acc
    else step(Fold(step, acc, body[..|body| - 1], first), body[|body| - 1], first + |body| - 1)
  }

  lemma FoldNext(step: (LegacyEvaluate.V2Acc, string, nat) -> LegacyEvaluate.V2Acc, acc: LegacyEvaluate.V2Acc, lines: seq<string>, i: nat)
    requires 1 <= i < |lines|
    ensures Fold(step, acc, lines[1..i + 1], 2) == step(Fold(step, acc, lines[1..i], 2), lines[i], i + 1)
  {
    assert lines[1..i + 1][..i - 1] == lines[1..i] && lines[1..i + 1][i - 1] == lines[i];
  }

  /** generate_positions.py parse_v2_file on the lines of a file. */
  function ParseGraph(lines: seq<string>, decode: string -> Option<seq<byte>>): (r: Result<LegacyEvaluate.V2File, LegacyEvaluate.V2Error>)
    ensures r.Err? <==> |lines| == 0 || !StartsWith(Strip(lines[0]), "v")
  {
    if |lines| == 0 || !StartsWith(Strip(lines[0]), "v") then Err(LegacyEvaluate.NoVersionHeader)
    else
      var acc := Fold(GraphStep(decode), LegacyEvaluate.V2Acc({}, [], LegacyEvaluate.HeaderWarnings(Strip(lines[0]))), lines[1..], 2);
      Ok(LegacyEvaluate.V2File(acc.states, acc.edges, acc.warnings))
  }

  /** parse_v2_file: the line loop, appending to `edges` and adding to `states`. */
  method LoadGraph(lines: seq<string>, decode: string -> Option<seq<byte>>) returns (r: Result<LegacyEvaluate.V2File, LegacyEvaluate.V2Error>)
    ensures r == ParseGraph(lines, decode)
  {
    if |lines| == 0 || !StartsWith(Strip(lines[0]), "v") {
      return Err(LegacyEvaluate.NoVersionHeader);
    }
    var version := Strip(lines[0]);
    var warnings: seq<LegacyEvaluate.V2Warning> := [];
    if version != "v2.0" {
      warnings := [LegacyEvaluate.VersionMismatch(version)];
    }
    ghost var start := LegacyEvaluate.V2Acc({}, [], warnings);
    var edges: seq<LegacyEvaluate.V2Edge> := [];
    var states: set<string> := {};
    var i := 1;
    while i < |lines|
      invariant 1 <= i <= |lines|
      invariant LegacyEvaluate.V2Acc(states, edges, warnings) == Fold(GraphStep(decode), start, lines[1..i], 2)
    {
      FoldNext(GraphStep(decode), start, lines, i);
      states, edges, warnings := HandleLine(states, edges, warnings, lines[i], i + 1, decode);
      i := i + 1;
    }
    assert lines[1..i] == lines[1..];
    return Ok(LegacyEvaluate.V2File(states, edges, warnings));
  }

  /** The body of the parse_v2_file loop for one line. */
  method HandleLine(states: set<string>, edges: seq<LegacyEvaluate.V2Edge>, warnings: seq<LegacyEvaluate.V2Warning>,
                    raw: string, lineNo: nat, decode: string -> Option<seq<byte>>)
    returns (states': set<string>, edges': seq<LegacyEvaluate.V2Edge>, warnings': seq<LegacyEvaluate.V2Warning>)
    ensures LegacyEvaluate.V2Acc(states', edges', warnings') == StepGraph(LegacyEvaluate.V2Acc(states, edges, warnings), raw, lineNo, decode)
  {
    states', edges', warnings' := states, edges, warnings;
    var kind := ReadLine(raw, decode);
    match kind
    case Skipped =>
    case Malformed =>
      warnings' := warnings + [LegacyEvaluate.MalformedLine(lineNo)];
    case Transition(e) =>
      states' := states + {e.from, e.to};
      edges' := edges + [e];
  }

  /** The tests of the loop body on one line, and the edge it converts if it is a transition. */
  method ReadLine(raw: string, decode: string -> Option<seq<byte>>) returns (kind: GraphLine)
    ensures kind == ClassifyLine(raw, decode)
  {
    var line := Strip(raw);
    if line == "" {
      return Skipped;
    }
    if !Contains(line, "->") {
      return Malformed;
    }
    var parts := Split(line, "->");
    if |parts| != 2 {
      return Malformed;
    }
    var e := LegacyEvaluate.SplitRightSide(Strip(parts[0]), parts[1]);
    var fromText := BinaryToState(e.from, decode);
    var toText := BinaryToState(e.to, decode);
    return Transition(LegacyEvaluate.V2Edge(fromText, toText, e.annotation));
  }

  // ---------------------------------------------------------------------------
  // What the parse produces

  /** The edges of some lines as evaluate.py reads them, with both endpoints converted. */
  function ConvertedAll(edges: seq<LegacyEvaluate.V2Edge>, decode: string -> Option<seq<byte>>): (r: seq<LegacyEvaluate.V2Edge>)
    ensures |r| == |edges|
  {
    seq(|edges|, k requires 0 <= k < |edges| => Converted(edges[k], decode))
  }

  lemma StepGraphEffect(acc: LegacyEvaluate.V2Acc, raw: string, lineNo: nat, decode: string -> Option<seq<byte>>)
    ensures StepGraph(acc, raw, lineNo, decode).edges == acc.edges + ConvertedAll(LegacyEvaluate.LineEdges(raw), decode)
    ensures StepGraph(acc, raw, lineNo, decode).states ==
      acc.states + LegacyEvaluate.V2Endpoints(ConvertedAll(LegacyEvaluate.LineEdges(raw), decode))
  {
    ClassifyAgrees(raw, decode);
    var line := LegacyEvaluate.ClassifyV2(raw);
    if line.Transition? {
      var c := Converted(line.edge, decode);
      assert LegacyEvaluate.LineEdges(raw) == [line.edge];
      assert ConvertedAll([line.edge], decode) == [c];
      assert LegacyEvaluate.V2Endpoints([c]) == {c.from, c.to} by {
        assert [c][..0] == [];
      }
    } else {
      assert LegacyEvaluate.LineEdges(raw) == [];
      assert ConvertedAll([], decode) == [];
    }
  }

  /** Each line appends the edges `lineEdges` gives it and adds their endpoints. */
  ghost predicate AppendsEdges(step: (LegacyEvaluate.V2Acc, string, nat) -> LegacyEvaluate.V2Acc, lineEdges: string -> seq<LegacyEvaluate.V2Edge>) {
    forall acc: LegacyEvaluate.V2Acc, raw: string, lineNo: nat {:trigger step(acc, raw, lineNo)} ::
      step(acc, raw, lineNo).edges == acc.edges + lineEdges(raw) &&
      step(acc, raw, lineNo).states == acc.states + LegacyEvaluate.V2Endpoints(lineEdges(raw))
  }

  /** The edges `lineEdges` gives the lines of `body`, in order. */
  function Gather(lineEdges: string -> seq<LegacyEvaluate.V2Edge>, body: seq<string>): seq<LegacyEvaluate.V2Edge>
    decreases |body|
  {
    if body == [] then []
    else Gather(lineEdges, body[..|body| - 1]) + lineEdges(body[|body| - 1])
  }

  lemma FoldEdges(step: (LegacyEvaluate.V2Acc, string, nat) -> LegacyEvaluate.V2Acc, lineEdges: string -> seq<LegacyEvaluate.V2Edge>,
                  acc: LegacyEvaluate.V2Acc, body: seq<string>, first: nat)
    requires AppendsEdges(step, lineEdges)
    ensures Fold(step, acc, body, first).edges == acc.edges + Gather(lineEdges, body)
    ensures Fold(step, acc, body, first).states == acc.states + LegacyEvaluate.V2Endpoints(Gather(lineEdges, body))
  {
    FoldEdgeList(step, lineEdges, acc, body, first);
    FoldStateSet(step, lineEdges, acc, body, first);
  }

  lemma {:induction false} FoldEdgeList(step: (LegacyEvaluate.V2Acc, string, nat) -> LegacyEvaluate.V2Acc, lineEdges: string -> seq<LegacyEvaluate.V2Edge>,
                                        acc: LegacyEvaluate.V2Acc, body: seq<string>, first: nat)
    requires AppendsEdges(step, lineEdges)
    ensures Fold(step, acc, body, first).edges == acc.edges + Gather(lineEdges, body)
    decreases |body|
  {
    if body == [] {
      assert acc.edges + [] == acc.edges;
    } else {
      var init := body[..|body| - 1];
      var last := body[|body| - 1];
      FoldEdgeList(step, lineEdges, acc, init, first);
      var mid := Fold(step, acc, init, first);
      assert Fold(step, acc, body, first) == step(mid, last, first + |body| - 1);
      assert Gather(lineEdges, body) == Gather(lineEdges, init) + lineEdges(last);
      assert (acc.edges + Gather(lineEdges, init)) + lineEdges(last) == acc.edges + (Gather(lineEdges, init) + lineEdges(last));
    }
  }

  lemma {:induction false} FoldStateSet(step: (LegacyEvaluate.V2Acc, string, nat) -> LegacyEvaluate.V2Acc, lineEdges: string -> seq<LegacyEvaluate.V2Edge>,
                                        acc: LegacyEvaluate.V2Acc, body: seq<string>, first: nat)
    requires AppendsEdges(step, lineEdges)
    ensures Fold(step, acc, body, first).states == acc.states + LegacyEvaluate.V2Endpoints(Gather(lineEdges, body))
    decreases |body|
  {
    if body != [] {
      var init := body[..|body| - 1];
      var last := body[|body| - 1];
      FoldStateSet(step, lineEdges, acc, init, first);
      var mid := Fold(step, acc, init, first);
      assert step(mid, last, first + |body| - 1).states == mid.states + LegacyEvaluate.V2Endpoints(lineEdges(last));
      LegacyEvaluate.V2EndpointsAppend(Gather(lineEdges, init), lineEdges(last));
    }
  }

  /** The edges of one line as generate_positions.py records them. */
  function LineGraphEdges(decode: string -> Option<seq<byte>>): string -> seq<LegacyEvaluate.V2Edge> {
    (raw: string) => ConvertedAll(LegacyEvaluate.LineEdges(raw), decode)
  }

  lemma GraphStepAppends(decode: string -> Option<seq<byte>>)
    ensures AppendsEdges(GraphStep(decode), LineGraphEdges(decode))
  {
    forall acc: LegacyEvaluate.V2Acc, raw: string, lineNo: nat {
      StepGraphEffect(acc, raw, lineNo, decode);
    }
  }

  lemma {:induction false} GatherConverted(decode: string -> Option<seq<byte>>, body: seq<string>)
    ensures Gather(LineGraphEdges(decode), body) == ConvertedAll(LegacyEvaluate.EdgesOf(body), decode)
    decreases |body|
  {
    if body != [] {
      var init := body[..|body| - 1];
      GatherConverted(decode, init);
      ConvertedAppend(LegacyEvaluate.EdgesOf(init), LegacyEvaluate.LineEdges(body[|body| - 1]), decode);
    }
  }

  lemma ConvertedAppend(a: seq<LegacyEvaluate.V2Edge>, b: seq<LegacyEvaluate.V2Edge>, decode: string -> Option<seq<byte>>)
    ensures ConvertedAll(a + b, decode) == ConvertedAll(a, decode) + ConvertedAll(b, decode)
  {
    assert forall k :: 0 <= k < |a| ==> (a + b)[k] == a[k];
    assert forall k :: |a| <= k < |a + b| ==> (a + b)[k] == b[k - |a|];
  }

  /**
   * Both tools accept the same files, and generate_positions.py finds the same
   * transitions as evaluate.py, in order, with each endpoint turned into the text
   * form; its states are exactly the endpoints of those edges.
   */
  lemma ParseAgreesWithV2(lines: seq<string>, decode: string -> Option<seq<byte>>)
    ensures ParseGraph(lines, decode).Ok? <==> LegacyEvaluate.ParseV2(lines).Ok?
    ensures ParseGraph(lines, decode).Ok? ==>
      ParseGraph(lines, decode).value.edges == ConvertedAll(LegacyEvaluate.ParseV2(lines).value.edges, decode) &&
      ParseGraph(lines, decode).value.states == LegacyEvaluate.V2Endpoints(ParseGraph(lines, decode).value.edges)
  {
    if ParseGraph(lines, decode).Ok? {
      var acc0 := LegacyEvaluate.V2Acc({}, [], LegacyEvaluate.HeaderWarnings(Strip(lines[0])));
      GraphStepAppends(decode);
      FoldEdges(GraphStep(decode), LineGraphEdges(decode), acc0, lines[1..], 2);
      GatherConverted(decode, lines[1..]);
      LegacyEvaluate.ParsedV2Graph(lines);
    }
  }

  /** A line with no "->", or with more than one, is reported as malformed and changes nothing else. */
  lemma MalformedLineWarns(acc: LegacyEvaluate.V2Acc, raw: string, lineNo: nat, decode: string -> Option<seq<byte>>)
    requires Strip(raw) != ""
    requires !Contains(Strip(raw), "->") || |Split(Strip(raw), "->")| != 2
    ensures StepGraph(acc, raw, lineNo, decode) == acc.(warnings := acc.warnings + [LegacyEvaluate.MalformedLine(lineNo)])
  {
  }
}
