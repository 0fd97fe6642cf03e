/**
 * evaluate.py, the v2.0 tool: text-encoded states decoded to FEN, leaf states,
 * reading a v2.0 file into a graph, and rewriting the file with fresh position
 * lines while keeping its transitions.
 *
 * A v2.0 state is a run-length text followed by "[" and the side to move, e.g.
 * "D5DGA6...[w]": letters A..L stand for the pieces PNBRQK (white) and pnbrqk
 * (black), a digit d for d empty squares, rank 8 first.
 */
module LegacyEvaluate {
  import opened Wrappers
  import opened Text
  import Fen

  // ---------------------------------------------------------------------------
  // state_to_fen

  /** A decoded square: the FEN letter of its piece, or None when empty. */
  type Square = Option<char>

  const WHITE_PIECES: string := "PNBRQK"
  const BLACK_PIECES: string := "pnbrqk"

  /** piece_map.get(c, '?'): the letters A..F and G..L name the white and black pieces. */
  function PieceLetter(c: char): (p: char)
    ensures 'A' <= c <= 'F' ==> p == WHITE_PIECES[c as int - 'A' as int]
    ensures 'G' <= c <= 'L' ==> p == BLACK_PIECES[c as int - 'G' as int]
    ensures !('A' <= c <= 'L') ==> p == '?'
    ensures !IsDigit(p) && p != '/' && p != ' '
  {
    if 'A' <= c <= 'F' then WHITE_PIECES[c as int - 'A' as int]
    else if 'G' <= c <= 'L' then BLACK_PIECES[c as int - 'G' as int]
    else '?'
  }

  /** n empty squares. */
  function Empties(n: nat): (r: seq<Square>)
    ensures |r| == n && forall i :: 0 <= i < n ==> r[i] == None
  {
    seq(n, i => None)
  }

  /** What one character of the encoding contributes to the square list. */
  function SquaresOf(c: char): seq<Square> {
    if IsDigit(c) then Empties(DigitValue(c)) else [Some(PieceLetter(c))]
  }

  /** The square list the decoding loop of state_to_fen builds from an encoding. */
  function Squares(encoding: string): seq<Square> {
    if encoding == [] then []
    else Squares(encoding[..|encoding| - 1]) + SquaresOf(encoding[|encoding| - 1])
  }

  /** Decoding works character by character: the squares of a + b are those of a, then those of b. */
  lemma {:induction false} SquaresAppend(a: string, b: string)
    ensures Squares(a + b) == Squares(a) + Squares(b)
    decreases |b|
  {
    if b == [] {
      assert a + b == a;
    } else {
      var init := b[..|b| - 1];
      assert (a + b)[..|a + b| - 1] == a + init;
      SquaresAppend(a, init);
    }
  }

  /** A digit d is exactly d empty squares; any other character is one square with its piece letter. */
  lemma SquaresOfOne(c: char)
    ensures IsDigit(c) ==> Squares([c]) == Empties(DigitValue(c))
    ensures !IsDigit(c) ==> Squares([c]) == [Some(PieceLetter(c))]
  {
    assert [c][..0] == [];
  }

  /** The decoding loop of state_to_fen, extending `squares` in place. */
  method DecodeSquares(encoding: string) returns (squares: seq<Square>)
    ensures squares == Squares(encoding)
  {
    squares := [];
    var i := 0;
    while i < |encoding|
      invariant 0 <= i <= |encoding|
      invariant squares == Squares(encoding[..i])
    {
      var c := encoding[i];
      assert encoding[..i + 1][..i] == encoding[..i];
      if IsDigit(c) {
        squares := squares + Empties(DigitValue(c));
      } else {
        squares := squares + [Some(PieceLetter(c))];
      }
      i := i + 1;
    }
    assert encoding[..i] == encoding;
  }

  /** The square at an index: squares past the end of the list are empty. */
  function Cell(squares: seq<Square>, index: nat): Square {
    if index < |squares| then squares[index] else None
  }

  /** The eight squares of one rank, 0 being rank 8; squares beyond 64 never appear. */
  function RankCells(squares: seq<Square>, rank: nat): (r: seq<Square>)
    ensures |r| == 8 && forall f :: 0 <= f < 8 ==> r[f] == Cell(squares, rank * 8 + f)
  {
    seq(8, f requires 0 <= f < 8 => Cell(squares, rank * 8 + f))
  }

  /** The digit for a run of empty squares that has been counted, nothing for no run. */
  function RunDigit(count: nat): string
    requires count <= 9
  {
    if count > 0 then [DigitChar(count)] else ""
  }

  /** The rank loop's state (rank_str, empty_count) after the given squares. */
  function RankRun(cells: seq<Square>): (r: (string, nat))
    requires |cells| <= 9
    ensures r.1 <= |cells|
  {
    if cells == [] then ("", 0)
    else
      var prev := RankRun(cells[..|cells| - 1]);
      match cells[|cells| - 1]
      case None => (prev.0, prev.1 + 1)
      case Some(piece) => (prev.0 + RunDigit(prev.1) + [piece], 0)
  }

  /** The FEN text of one rank: the loop's text, then the digit of a trailing run. */
  function RankText(cells: seq<Square>): string
    requires |cells| <= 9
  {
    var run := RankRun(cells);
    run.0 + RunDigit(run.1)
  }

  /** Reading FEN text back: a digit d is d empty squares, any other character one square. */
  function Expand(text: string): seq<Square> {
    if text == [] then []
    else
      var c := text[|text| - 1];
      Expand(text[..|text| - 1]) + (if IsDigit(c) then Empties(DigitValue(c)) else [Some(c)])
  }

  lemma {:induction false} ExpandAppend(a: string, b: string)
    ensures Expand(a + b) == Expand(a) + Expand(b)
    decreases |b|
  {
    if b == [] {
      assert a + b == a;
    } else {
      var init := b[..|b| - 1];
      assert (a + b)[..|a + b| - 1] == a + init;
      ExpandAppend(a, init);
    }
  }

  lemma ExpandOne(c: char)
    ensures Expand([c]) == if IsDigit(c) then Empties(DigitValue(c)) else [Some(c)]
  {
    assert [c][..0] == [];
  }

  lemma ExpandRunDigit(count: nat)
    requires count <= 9
    ensures Expand(RunDigit(count)) == Empties(count)
  {
    if count > 0 {
      ExpandOne(DigitChar(count));
    }
  }

  /** No square holds a digit, so a piece letter is never mistaken for a run. */
  predicate NoDigitPieces(cells: seq<Square>) {
    forall i :: 0 <= i < |cells| && cells[i].Some? ==> !IsDigit(cells[i].value)
  }

  /** The rank loop so far, read back, gives the squares seen except the pending empty run. */
  lemma {:induction false} RankRunReadsBack(cells: seq<Square>)
    requires |cells| <= 9 && NoDigitPieces(cells)
    ensures Expand(RankRun(cells).0) + Empties(RankRun(cells).1) == cells
    decreases |cells|
  {
    if cells != [] {
      var init := cells[..|cells| - 1];
      var last := cells[|cells| - 1];
      assert cells == init + [last];
      RankRunReadsBack(init);
      if last.Some? {
        PieceReadsBack(RankRun(init), last.value);
      } else {
        assert Empties(RankRun(init).1) + [None] == Empties(RankRun(init).1 + 1);
      }
    }
  }

  /** A piece flushes the pending run as its digit and then stands for itself. */
  lemma PieceReadsBack(prev: (string, nat), piece: char)
    requires prev.1 <= 9 && !IsDigit(piece)
    ensures Expand(prev.0 + RunDigit(prev.1) + [piece]) == Expand(prev.0) + Empties(prev.1) + [Some(piece)]
  {
    ExpandAppend(prev.0 + RunDigit(prev.1), [piece]);
    ExpandAppend(prev.0, RunDigit(prev.1));
    ExpandRunDigit(prev.1);
    ExpandOne(piece);
  }

  /** Reading a rank's FEN text back gives exactly its eight squares. */
  lemma RankTextReadsBack(cells: seq<Square>)
    requires |cells| <= 9 && NoDigitPieces(cells)
    ensures Expand(RankText(cells)) == cells
  {
    var run := RankRun(cells);
    RankRunReadsBack(cells);
    ExpandAppend(run.0, RunDigit(run.1));
    ExpandRunDigit(run.1);
  }

  /** FEN text in which no two digits stand next to each other. */
  predicate NoAdjacentDigits(s: string) {
    forall i :: 0 <= i < |s| - 1 ==> !(IsDigit(s[i]) && IsDigit(s[i + 1]))
  }

  /** The shape the rank loop keeps: no adjacent digits, and a run pending only after a piece. */
  lemma {:induction false} RankRunShape(cells: seq<Square>)
    requires |cells| <= 9 && NoDigitPieces(cells)
    ensures NoAdjacentDigits(RankRun(cells).0)
    ensures RankRun(cells).0 == "" || !IsDigit(RankRun(cells).0[|RankRun(cells).0| - 1])
    decreases |cells|
  {
    if cells != [] {
      var init := cells[..|cells| - 1];
      var prev := RankRun(init);
      assert NoDigitPieces(init) by {
        assert forall i :: 0 <= i < |init| ==> init[i] == cells[i];
      }
      RankRunShape(init);
      match cells[|cells| - 1]
      case None =>
      case Some(piece) =>
        assert !IsDigit(piece) by {
          assert cells[|cells| - 1].Some?;
        }
        var t := prev.0 + RunDigit(prev.1) + [piece];
        forall i | 0 <= i < |t| - 1 ensures !(IsDigit(t[i]) && IsDigit(t[i + 1])) {
          if i < |prev.0| - 1 {
            assert t[i] == prev.0[i] && t[i + 1] == prev.0[i + 1];
          } else if i == |prev.0| - 1 {
            assert t[i] == prev.0[i];
          } else {
            assert t[|t| - 1] == piece;
          }
        }
    }
  }

  /** A rank's FEN text has no two adjacent digits; neither '/' nor ' ' occurs in it. */
  lemma RankTextShape(cells: seq<Square>)
    requires |cells| <= 9 && NoDigitPieces(cells)
    requires forall i :: 0 <= i < |cells| && cells[i].Some? ==> cells[i].value != '/' && cells[i].value != ' '
    ensures NoAdjacentDigits(RankText(cells))
    ensures '/' !in RankText(cells) && ' ' !in RankText(cells)
  {
    var run := RankRun(cells);
    RankRunShape(cells);
    var t := RankText(cells);
    forall i | 0 <= i < |t| - 1 ensures !(IsDigit(t[i]) && IsDigit(t[i + 1])) {
      assert t[i] == run.0[i];
      if i < |run.0| - 1 {
        assert t[i + 1] == run.0[i + 1];
      }
    }
    RankRunReadsBack(cells);
    ExpandAppend(run.0, RunDigit(run.1));
    ExpandRunDigit(run.1);
    forall i | 0 <= i < |t| ensures t[i] != '/' && t[i] != ' ' {
      if !IsDigit(t[i]) {
        TextCharIsSquare(t, i);
        RankTextReadsBack(cells);
      }
    }
  }

  /** A character of FEN text that is not a digit appears as a square of its expansion. */
  lemma {:induction false} TextCharIsSquare(t: string, i: nat)
    requires i < |t| && !IsDigit(t[i])
    ensures Some(t[i]) in Expand(t)
    decreases |t|
  {
    var init := t[..|t| - 1];
    ExpandAppend(init, [t[|t| - 1]]);
    assert init + [t[|t| - 1]] == t;
    if i == |t| - 1 {
      ExpandOne(t[i]);
    } else {
      assert t[i] == init[i];
      TextCharIsSquare(init, i);
    }
  }

  /** Squares as the decoder produces them: piece letters that are no digit, '/' or ' '. */
  predicate PlainSquares(squares: seq<Square>) {
    forall i :: 0 <= i < |squares| && squares[i].Some? ==>
      !IsDigit(squares[i].value) && squares[i].value != '/' && squares[i].value != ' '
  }

  lemma {:induction false} DecodedSquaresPlain(encoding: string)
    ensures PlainSquares(Squares(encoding))
    decreases |encoding|
  {
    if encoding != [] {
      var init := encoding[..|encoding| - 1];
      DecodedSquaresPlain(init);
      var head := Squares(init);
      var tail := SquaresOf(encoding[|encoding| - 1]);
      var all := head + tail;
      forall i | 0 <= i < |all| && all[i].Some?
        ensures !IsDigit(all[i].value) && all[i].value != '/' && all[i].value != ' '
      {
        if i < |head| {
          assert all[i] == head[i];
        } else {
          assert all[i] == tail[i - |head|];
        }
      }
    }
  }

  /** The FEN text of the eight ranks, rank 8 first. */
  function Ranks(squares: seq<Square>): (r: seq<string>)
    ensures |r| == 8
  {
    seq(8, rank requires 0 <= rank < 8 => RankText(RankCells(squares, rank)))
  }

  /** The placement field: the ranks joined by '/'. */
  function Board(squares: seq<Square>): string {
    Join("/", Ranks(squares))
  }

  /**
   * The placement field holds exactly eight ranks; each reads back as its eight
   * squares of the square list (empty past its end), with no two digits adjacent.
   */
  lemma BoardReadsBack(squares: seq<Square>)
    requires PlainSquares(squares)
    ensures Split(Board(squares), "/") == Ranks(squares)
    ensures forall rank :: 0 <= rank < 8 ==>
      Expand(Ranks(squares)[rank]) == RankCells(squares, rank) && NoAdjacentDigits(Ranks(squares)[rank])
    ensures ' ' !in Board(squares)
  {
    var ranks := Ranks(squares);
    forall rank | 0 <= rank < 8
      ensures Expand(ranks[rank]) == RankCells(squares, rank) && NoAdjacentDigits(ranks[rank])
      ensures '/' !in ranks[rank] && ' ' !in ranks[rank]
    {
      var cells := RankCells(squares, rank);
      assert NoDigitPieces(cells) && forall i :: 0 <= i < |cells| && cells[i].Some? ==> cells[i].value != '/' && cells[i].value != ' ' by {
        forall i | 0 <= i < |cells| && cells[i].Some?
          ensures !IsDigit(cells[i].value) && cells[i].value != '/' && cells[i].value != ' '
        {
          assert cells[i] == squares[rank * 8 + i];
        }
      }
      RankTextReadsBack(cells);
      RankTextShape(cells);
    }
    SplitJoinChar(ranks, '/');
    JoinAvoids("/", ranks, ' ');
  }

  /** Why state_to_fen raises: no '[' (str.index), or nothing after it (indexing past the end). */
  datatype StateError = NoBracket | NoTurn

  const START_STATE: string := "start[w]"

  /** The FEN built from the encoding and side-to-move character of a state. */
  function FenOf(encoding: string, turn: char): string {
    Board(Squares(encoding)) + " " + (if turn == 'w' then "w" else "b") + " - - 0 1"
  }

  /** evaluate.py state_to_fen. */
  function DecodeState(state: string): (r: Result<string, StateError>)
    ensures state == START_STATE ==> r == Ok(Fen.START_FEN)
    ensures state != START_STATE ==> (r == Err(NoBracket) <==> '[' !in state)
    ensures state != START_STATE ==> (r == Err(NoTurn) <==> '[' in state && FindFrom(state, "[", 0) == |state| - 1)
    ensures state != START_STATE && r.Ok? ==>
      var b := FindFrom(state, "[", 0);
      0 <= b < |state| - 1 && r.value == FenOf(state[..b], state[b + 1])
  {
    if state == START_STATE then Ok(Fen.START_FEN)
    else
      var b := FindFrom(state, "[", 0);
      ContainsChar(state, '[');
      if b < 0 then Err(NoBracket)
      else if b + 1 >= |state| then Err(NoTurn)
      else Ok(FenOf(state[..b], state[b + 1]))
  }

  lemma FenJoin(board: string, turn: string)
    ensures board + " " + turn + " - - 0 1" == Join(" ", [board, turn, "-", "-", "0", "1"])
  {
    var tail := ["-", "-", "0", "1"];
    assert Join(" ", tail) == "- - 0 1" by {
      assert tail[1..] == ["-", "0", "1"];
      assert tail[1..][1..] == ["0", "1"];
      assert tail[1..][1..][1..] == ["1"];
    }
    assert [board, turn, "-", "-", "0", "1"][1..] == [turn] + tail;
    assert ([turn] + tail)[1..] == tail;
  }

  /**
   * A decoded state is a FEN of six fields: the placement, "w" for a 'w' turn
   * character and "b" for any other, then "-", "-", "0", "1".
   */
  lemma DecodedFenFields(encoding: string, turn: char)
    ensures Fen.Fields(FenOf(encoding, turn)) ==
      [Board(Squares(encoding)), if turn == 'w' then "w" else "b", "-", "-", "0", "1"]
  {
    var board := Board(Squares(encoding));
    var t := if turn == 'w' then "w" else "b";
    DecodedSquaresPlain(encoding);
    BoardHasNoSpace(Squares(encoding));
    FenJoin(board, t);
    var parts := [board, t, "-", "-", "0", "1"];
    assert forall k :: 0 <= k < |parts| ==> ' ' !in parts[k] by {
      assert ' ' !in t;
    }
    Fen.FieldsOfJoin(parts);
  }

  lemma BoardHasNoSpace(squares: seq<Square>)
    requires PlainSquares(squares)
    ensures ' ' !in Board(squares)
  {
    BoardReadsBack(squares);
  }

  /** state_to_fen: the decoding loop, then the nested rank and file loops. */
  method StateToFen(state: string) returns (r: Result<string, StateError>)
    ensures r == DecodeState(state)
  {
    if state == START_STATE {
      return Ok(Fen.START_FEN);
    }
    var b := FindFrom(state, "[", 0);
    if b < 0 {
      return Err(NoBracket);
    }
    if b + 1 >= |state| {
      return Err(NoTurn);
    }
    var encoding := state[..b];
    var turn := state[b + 1];
    var squares := DecodeSquares(encoding);
    var fenParts: seq<string> := [];
    var rank := 0;
    while rank < 8
      invariant 0 <= rank <= 8
      invariant fenParts == Ranks(squares)[..rank]
    {
      var rankStr := BuildRank(squares, rank);
      fenParts := fenParts + [rankStr];
      rank := rank + 1;
    }
    assert fenParts == Ranks(squares);
    var fenTurn := if turn == 'w' then "w" else "b";
    return Ok(Join("/", fenParts) + " " + fenTurn + " - - 0 1");
  }

  /** The file loop of state_to_fen for one rank, updating rank_str and empty_count. */
  method BuildRank(squares: seq<Square>, rank: nat) returns (rankStr: string)
    ensures rankStr == RankText(RankCells(squares, rank))
  {
    ghost var cells := RankCells(squares, rank);
    rankStr := "";
    var emptyCount := 0;
    var file := 0;
    while file < 8
      invariant 0 <= file <= 8
      invariant (rankStr, emptyCount) == RankRun(cells[..file])
    {
      assert cells[..file + 1][..file] == cells[..file] && cells[..file + 1][file] == cells[file];
      var squareIndex := rank * 8 + file;
      var piece := if squareIndex < |squares| then squares[squareIndex] else None;
      assert piece == cells[file];
      if piece.None? {
        assert RankRun(cells[..file + 1]) == (rankStr, emptyCount + 1);
        emptyCount := emptyCount + 1;
      } else {
        ghost var flushed := rankStr + RunDigit(emptyCount);
        assert RankRun(cells[..file + 1]) == (flushed + [piece.value], 0);
        if emptyCount > 0 {
          rankStr := rankStr + [DigitChar(emptyCount)];
          emptyCount := 0;
        } else {
          assert rankStr + "" == rankStr;
        }
        assert rankStr == flushed;
        rankStr := rankStr + [piece.value];
      }
      file := file + 1;
    }
    assert cells[..file] == cells;
    if emptyCount > 0 {
      rankStr := rankStr + [DigitChar(emptyCount)];
    } else {
      assert rankStr + "" == rankStr;
    }
  }

  // ---------------------------------------------------------------------------
  // parse_v2_file

  /** One transition: source and target state as written, and the annotation after the first ':'. */
  datatype V2Edge = V2Edge(from: string, to: string, annotation: string)

  /**
   * The failures that end the program: a missing version header, and, in
   * update_file_with_positions, max() over an empty set of positions.
   */
  datatype V2Error = NoVersionHeader | NoPositions

  /** What parse_v2_file prints and carries on after; line numbers are 1-based. */
  datatype V2Warning = VersionMismatch(found: string) | MalformedLine(line: nat)

  datatype V2File = V2File(states: set<string>, edges: seq<V2Edge>, warnings: seq<V2Warning>)

  /** How a line after the header is treated. */
  datatype V2Line = Blank | PositionDef | Malformed | Transition(edge: V2Edge)

  /** The right-hand side of a transition split at its first ':' into target and annotation. */
  function SplitTarget(from: string, right: string): V2Edge {
    var colon := FindFrom(right, ":", 0);
    if colon >= 0 then V2Edge(from, Strip(right[..colon]), Strip(right[colon + 1..]))
    else V2Edge(from, Strip(right), "")
  }

  function ClassifyV2(raw: string): V2Line {
    var line := Strip(raw);
    if line == "" then Blank
    else if !Contains(line, "->") then
      if Contains(line, ":") && Contains(line, "[") && Contains(line, "]") then PositionDef else Malformed
    else
      var parts := Split(line, "->");
      if |parts| != 2 then Malformed else Transition(SplitTarget(Strip(parts[0]), parts[1]))
  }

  /** The parser's running state: nodes, edges in file order, warnings. */
  datatype V2Acc = V2Acc(states: set<string>, edges: seq<V2Edge>, warnings: seq<V2Warning>)

  /** The effect of line number lineNo. */
  function StepV2(acc: V2Acc, raw: string, lineNo: nat): V2Acc {
    match ClassifyV2(raw)
    case Transition(e) => acc.(states := acc.states + {e.from, e.to}, edges := acc.edges + [e])
    case Malformed => acc.(warnings := acc.warnings + [MalformedLine(lineNo)])
    case _ => acc
  }

  /** The state after the lines `body`, the first of which is line number `first`. */
  function RunV2(acc: V2Acc, body: seq<string>, first: nat): V2Acc
    decreases |body|
  {
    if body == [] then acc
    else StepV2(RunV2(acc, body[..|body| - 1], first), body[|body| - 1], first + |body| - 1)
  }

  /** The warnings before any line is read: a version other than v2.0 is only reported. */
  function HeaderWarnings(version: string): seq<V2Warning> {
    if version != "v2.0" then [VersionMismatch(version)] else []
  }

  /** evaluate.py parse_v2_file on the lines of a file. */
  function ParseV2(lines: seq<string>): (r: Result<V2File, V2Error>)
    ensures r.Err? <==> |lines| == 0 || !StartsWith(Strip(lines[0]), "v")
  {
    if |lines| == 0 || !StartsWith(Strip(lines[0]), "v") then Err(NoVersionHeader)
    else
      var acc := RunV2(V2Acc({}, [], HeaderWarnings(Strip(lines[0]))), lines[1..], 2);
      Ok(V2File(acc.states, acc.edges, acc.warnings))
  }

  /** parse_v2_file: the line loop, appending to `edges` and adding to `states`. */
  method LoadV2(lines: seq<string>) returns (r: Result<V2File, V2Error>)
    ensures r == ParseV2(lines)
  {
    if |lines| == 0 || !StartsWith(Strip(lines[0]), "v") {
      return Err(NoVersionHeader);
    }
    var version := Strip(lines[0]);
    var warnings: seq<V2Warning> := [];
    if version != "v2.0" {
      warnings := [VersionMismatch(version)];
    }
    ghost var start := V2Acc({}, [], warnings);
    var edges: seq<V2Edge> := [];
    var states: set<string> := {};
    var i := 1;
    while i < |lines|
      invariant 1 <= i <= |lines|
      invariant V2Acc(states, edges, warnings) == RunV2(start, lines[1..i], 2)
    {
      RunV2Next(start, lines, i);
      states, edges, warnings := HandleV2Line(states, edges, warnings, lines[i], i + 1);
      i := i + 1;
    }
    assert lines[1..i] == lines[1..];
    return Ok(V2File(states, edges, warnings));
  }

  /** Line number i + 1 of the file is the next line the loop of parse_v2_file handles. */
  lemma RunV2Next(start: V2Acc, lines: seq<string>, i: nat)
    requires 1 <= i < |lines|
    ensures RunV2(start, lines[1..i + 1], 2) == StepV2(RunV2(start, lines[1..i], 2), lines[i], i + 1)
  {
    assert lines[1..i + 1][..i - 1] == lines[1..i] && lines[1..i + 1][i - 1] == lines[i];
  }

  /** The body of the parse_v2_file loop for one line. */
  method HandleV2Line(states: set<string>, edges: seq<V2Edge>, warnings: seq<V2Warning>, raw: string, lineNo: nat)
    returns (states': set<string>, edges': seq<V2Edge>, warnings': seq<V2Warning>)
    ensures V2Acc(states', edges', warnings') == StepV2(V2Acc(states, edges, warnings), raw, lineNo)
  {
    states', edges', warnings' := states, edges, warnings;
    var kind := ReadV2Line(raw);
    match kind
    case Blank =>
    case PositionDef =>
    case Malformed =>
      warnings' := warnings + [MalformedLine(lineNo)];
    case Transition(e) =>
      states' := states + {e.from, e.to};
      edges' := edges + [e];
  }

  /** The tests of the loop body on one line, and the edge it splits off if it is a transition. */
  method ReadV2Line(raw: string) returns (kind: V2Line)
    ensures kind == ClassifyV2(raw)
  {
    var line := Strip(raw);
    if line == "" {
      return Blank;
    }
    if !Contains(line, "->") {
      if Contains(line, ":") && Contains(line, "[") && Contains(line, "]") {
        return PositionDef;
      }
      return Malformed;
    }
    var parts := Split(line, "->");
    if |parts| != 2 {
      return Malformed;
    }
    var e := SplitRightSide(Strip(parts[0]), parts[1]);
    return Transition(e);
  }

  /** The right-hand side of a transition cut at its first ':' into target and annotation. */
  method SplitRightSide(fromState: string, rightSide: string) returns (e: V2Edge)
    ensures e == SplitTarget(fromState, rightSide)
  {
    var toState, annotation;
    if Contains(rightSide, ":") {
      var colonIdx := FindFrom(rightSide, ":", 0);
      toState := Strip(rightSide[..colonIdx]);
      annotation := Strip(rightSide[colonIdx + 1..]);
    } else {
      toState := Strip(rightSide);
      annotation := "";
    }
    return V2Edge(fromState, toState, annotation);
  }

  // ---------------------------------------------------------------------------
  // What a parse produces

  /** The edge a line adds, if any. */
  function LineEdges(raw: string): seq<V2Edge> {
    match ClassifyV2(raw)
    case Transition(e) => [e]
    case _ => []
  }

  /** The edges of some lines, in file order. */
  function EdgesOf(body: seq<string>): seq<V2Edge> {
    if body == [] then []
    else EdgesOf(body[..|body| - 1]) + LineEdges(body[|body| - 1])
  }

  lemma {:induction false} EdgesOfAppend(a: seq<string>, b: seq<string>)
    ensures EdgesOf(a + b) == EdgesOf(a) + EdgesOf(b)
    decreases |b|
  {
    if b == [] {
      assert a + b == a;
    } else {
      var init := b[..|b| - 1];
      assert (a + b)[..|a + b| - 1] == a + init;
      EdgesOfAppend(a, init);
    }
  }

  /** Every state an edge list mentions, at either end. */
  function V2Endpoints(edges: seq<V2Edge>): set<string> {
    if edges == [] then {}
    else V2Endpoints(edges[..|edges| - 1]) + {edges[|edges| - 1].from, edges[|edges| - 1].to}
  }

  /** Every state with an outgoing edge. */
  function V2Sources(edges: seq<V2Edge>): set<string> {
    if edges == [] then {}
    else V2Sources(edges[..|edges| - 1]) + {edges[|edges| - 1].from}
  }

  lemma {:induction false} InV2Endpoints(edges: seq<V2Edge>, x: string)
    ensures x in V2Endpoints(edges) <==> exists k :: 0 <= k < |edges| && (edges[k].from == x || edges[k].to == x)
    decreases |edges|
  {
    if edges != [] {
      var init := edges[..|edges| - 1];
      InV2Endpoints(init, x);
      assert forall k :: 0 <= k < |init| ==> init[k] == edges[k];
    }
  }

  lemma {:induction false} InV2Sources(edges: seq<V2Edge>, x: string)
    ensures x in V2Sources(edges) <==> exists k :: 0 <= k < |edges| && edges[k].from == x
    decreases |edges|
  {
    if edges != [] {
      var init := edges[..|edges| - 1];
      InV2Sources(init, x);
      assert forall k :: 0 <= k < |init| ==> init[k] == edges[k];
    }
  }

  lemma {:induction false} V2EndpointsAppend(a: seq<V2Edge>, b: seq<V2Edge>)
    ensures V2Endpoints(a + b) == V2Endpoints(a) + V2Endpoints(b)
    decreases |b|
  {
    if b == [] {
      assert a + b == a;
    } else {
      assert (a + b)[..|a + b| - 1] == a + b[..|b| - 1];
      V2EndpointsAppend(a, b[..|b| - 1]);
    }
  }

  /** One line appends its edge, if any, adds that edge's endpoints, and keeps earlier warnings. */
  lemma StepV2Effect(acc: V2Acc, raw: string, lineNo: nat)
    ensures StepV2(acc, raw, lineNo).edges == acc.edges + LineEdges(raw)
    ensures StepV2(acc, raw, lineNo).states == acc.states + V2Endpoints(LineEdges(raw))
    ensures |acc.warnings| <= |StepV2(acc, raw, lineNo).warnings|
    ensures StepV2(acc, raw, lineNo).warnings[..|acc.warnings|] == acc.warnings
  {
    match ClassifyV2(raw)
    case Transition(e) =>
      assert [e][..0] == [];
    case Malformed =>
      assert (acc.warnings + [MalformedLine(lineNo)])[..|acc.warnings|] == acc.warnings;
    case _ =>
  }

  /**
   * The loop only ever appends: the edges are those of the transition lines in
   * file order, the states exactly their endpoints, and earlier warnings stay.
   */
  lemma RunV2Effect(acc: V2Acc, body: seq<string>, first: nat)
    ensures RunV2(acc, body, first).edges == acc.edges + EdgesOf(body)
    ensures RunV2(acc, body, first).states == acc.states + V2Endpoints(EdgesOf(body))
    ensures |acc.warnings| <= |RunV2(acc, body, first).warnings|
    ensures RunV2(acc, body, first).warnings[..|acc.warnings|] == acc.warnings
  {
    RunV2Edges(acc, body, first);
    RunV2States(acc, body, first);
    RunV2Warnings(acc, body, first);
  }

  lemma {:induction false} RunV2Edges(acc: V2Acc, body: seq<string>, first: nat)
    ensures RunV2(acc, body, first).edges == acc.edges + EdgesOf(body)
    decreases |body|
  {
    if body == [] {
      assert acc.edges + [] == acc.edges;
    } else {
      var init := body[..|body| - 1];
      RunV2Edges(acc, init, first);
      StepV2Effect(RunV2(acc, init, first), body[|body| - 1], first + |body| - 1);
    }
  }

  lemma {:induction false} RunV2States(acc: V2Acc, body: seq<string>, first: nat)
    ensures RunV2(acc, body, first).states == acc.states + V2Endpoints(EdgesOf(body))
    decreases |body|
  {
    if body != [] {
      var init := body[..|body| - 1];
      var last := body[|body| - 1];
      RunV2States(acc, init, first);
      StepV2Effect(RunV2(acc, init, first), last, first + |body| - 1);
      V2EndpointsAppend(EdgesOf(init), LineEdges(last));
    }
  }

  lemma {:induction false} RunV2Warnings(acc: V2Acc, body: seq<string>, first: nat)
    ensures |acc.warnings| <= |RunV2(acc, body, first).warnings|
    ensures RunV2(acc, body, first).warnings[..|acc.warnings|] == acc.warnings
    decreases |body|
  {
    if body == [] {
      assert acc.warnings[..|acc.warnings|] == acc.warnings;
    } else {
      var init := body[..|body| - 1];
      var mid := RunV2(acc, init, first);
      RunV2Warnings(acc, init, first);
      StepV2Effect(mid, body[|body| - 1], first + |body| - 1);
      assert RunV2(acc, body, first).warnings[..|mid.warnings|] == mid.warnings;
      assert RunV2(acc, body, first).warnings[..|acc.warnings|] == mid.warnings[..|acc.warnings|];
    }
  }

  /** A loaded v2.0 file: its states are exactly the endpoints of its edges, which come from its transition lines. */
  lemma ParsedV2Graph(lines: seq<string>)
    requires ParseV2(lines).Ok?
    ensures ParseV2(lines).value.edges == EdgesOf(lines[1..])
    ensures ParseV2(lines).value.states == V2Endpoints(ParseV2(lines).value.edges)
  {
    RunV2Effect(V2Acc({}, [], HeaderWarnings(Strip(lines[0]))), lines[1..], 2);
  }

  /** A version other than v2.0 does not stop the load; it is the first warning. */
  lemma VersionOnlyWarns(lines: seq<string>)
    requires |lines| > 0 && StartsWith(Strip(lines[0]), "v") && Strip(lines[0]) != "v2.0"
    ensures ParseV2(lines).Ok?
    ensures |ParseV2(lines).value.warnings| >= 1 && ParseV2(lines).value.warnings[0] == VersionMismatch(Strip(lines[0]))
  {
    var acc0 := V2Acc({}, [], [VersionMismatch(Strip(lines[0]))]);
    RunKeepsFirstWarning(acc0, lines[1..], 2);
  }

  lemma RunKeepsFirstWarning(acc: V2Acc, body: seq<string>, first: nat)
    requires |acc.warnings| >= 1
    ensures |RunV2(acc, body, first).warnings| >= 1 && RunV2(acc, body, first).warnings[0] == acc.warnings[0]
  {
    RunV2Effect(acc, body, first);
    var w := RunV2(acc, body, first).warnings;
    assert w[..|acc.warnings|][0] == w[0];
  }

  /**
   * A line that has no "->" but holds ':', '[' and ']' is passed over without a
   * word; any other line without "->" is reported as malformed and changes nothing else.
   */
  lemma NonTransitionLines(acc: V2Acc, raw: string, lineNo: nat)
    requires Strip(raw) != "" && !Contains(Strip(raw), "->")
    ensures var line := Strip(raw);
      if Contains(line, ":") && Contains(line, "[") && Contains(line, "]") then StepV2(acc, raw, lineNo) == acc
      else StepV2(acc, raw, lineNo) == acc.(warnings := acc.warnings + [MalformedLine(lineNo)])
  {
  }

  /** A line "a -> b : note" reads as the edge (a, b, note); the note may itself hold ':'. */
  lemma AnnotatedTransitionReads(from: string, to: string, note: string)
    requires PlainToken(from) && PlainToken(to) && ':' !in to
    requires note != "" && IsStripped(note) && !Contains(note, "->")
    ensures ClassifyV2(from + " -> " + to + " : " + note) == Transition(V2Edge(from, to, note))
  {
    var right := to + " : " + note;
    NotedTargetPlain(to, note);
    AppendAssoc3(from + " -> ", to, " : ", note);
    ClassifyArrowLine(from, right);
    AppendAssoc3(" ", to, " : ", note);
    NotedTargetSplits(from, to, note);
  }

  /** A line made of two plain tokens around " -> " is a transition, split at the arrow. */
  lemma ClassifyArrowLine(from: string, right: string)
    requires PlainToken(from) && PlainToken(right)
    ensures ClassifyV2(from + " -> " + right) == Transition(SplitTarget(from, " " + right))
  {
    ArrowLineSplits(from, right);
  }

  lemma NotedTargetPlain(to: string, note: string)
    requires PlainToken(to)
    requires note != "" && IsStripped(note) && !Contains(note, "->")
    ensures PlainToken(to + " : " + note)
  {
    var right := to + " : " + note;
    assert right[0] == to[0] && right[|right| - 1] == note[|note| - 1];
    assert right[..1] == to[..1];
    NoArrowInSpaced(note);
    NoArrowConcat(to, " : " + note);
    assert right == to + (" : " + note);
  }

  lemma NoArrowInSpaced(note: string)
    requires !Contains(note, "->")
    ensures !Contains(" : " + note, "->")
  {
    assert " " + note == [' '] + note;
    NoArrowAfter(' ', note);
    assert ": " + note == [':'] + (" " + note);
    NoArrowAfter(':', " " + note);
    assert " : " + note == [' '] + (": " + note);
    NoArrowAfter(' ', ": " + note);
  }

  lemma NotedTargetSplits(from: string, to: string, note: string)
    requires PlainToken(to) && ':' !in to && IsStripped(note)
    ensures SplitTarget(from, " " + to + " : " + note) == V2Edge(from, to, note)
  {
    var head := " " + to + " ";
    var tail := " " + note;
    assert " " + to + " : " + note == head + [':'] + tail;
    assert ':' !in head;
    ColonSplits(from, head, tail);
    StripSpaced(to);
    StripLeadingSpace(note);
  }

  /** A right-hand side is cut at its first ':'. */
  lemma ColonSplits(from: string, head: string, tail: string)
    requires ':' !in head
    ensures SplitTarget(from, head + [':'] + tail) == V2Edge(from, Strip(head), Strip(tail))
  {
    var side := head + [':'] + tail;
    FindChar(head, ':', tail);
    assert side[..|head|] == head;
    assert side[|head| + 1..] == tail;
  }

  /** A line "a -> b" without ':' reads as the edge (a, b) with no annotation. */
  lemma PlainTransitionReads(from: string, to: string)
    requires PlainToken(from) && PlainToken(to) && ':' !in to
    ensures ClassifyV2(from + " -> " + to) == Transition(V2Edge(from, to, ""))
  {
    ArrowLineSplits(from, to);
    NotContainsChar(" " + to, ':');
  }

  // ---------------------------------------------------------------------------
  // find_leaf_nodes

  /** evaluate.py find_leaf_nodes: the endpoints with no outgoing edge. */
  method FindLeafNodes(edges: seq<V2Edge>) returns (leaves: set<string>)
    ensures leaves == V2Endpoints(edges) - V2Sources(edges)
  {
    var withChildren: set<string> := {};
    var all: set<string> := {};
    var i := 0;
    while i < |edges|
      invariant 0 <= i <= |edges|
      invariant withChildren == V2Sources(edges[..i])
      invariant all == V2Endpoints(edges[..i])
    {
      assert edges[..i + 1][..i] == edges[..i];
      withChildren := withChildren + {edges[i].from};
      all := all + {edges[i].from, edges[i].to};
      i := i + 1;
    }
    assert edges[..i] == edges;
    leaves := all - withChildren;
  }

  /** A leaf is the target of some edge and the source of none. */
  lemma LeavesAreDeadEnds(edges: seq<V2Edge>, x: string)
    ensures x in V2Endpoints(edges) - V2Sources(edges) <==>
      (exists k :: 0 <= k < |edges| && edges[k].to == x) && forall k :: 0 <= k < |edges| ==> edges[k].from != x
  {
    InV2Endpoints(edges, x);
    InV2Sources(edges, x);
  }

  // ---------------------------------------------------------------------------
  // update_file_with_positions

  /** An arrow line, stripped, as update_file_with_positions keeps it. */
  predicate IsArrowLine(raw: string) {
    Contains(Strip(raw), "->")
  }

  /** The transition lines kept, stripped, in their original order. */
  function Retained(body: seq<string>): seq<string> {
    if body == [] then []
    else
      var last := body[|body| - 1];
      Retained(body[..|body| - 1]) + (if IsArrowLine(last) then [Strip(last)] else [])
  }

  /** Retention works line by line: exactly the arrow lines, in order, each stripped. */
  lemma {:induction false} RetainedAppend(a: seq<string>, b: seq<string>)
    ensures Retained(a + b) == Retained(a) + Retained(b)
    decreases |b|
  {
    if b == [] {
      assert a + b == a;
    } else {
      var init := b[..|b| - 1];
      assert (a + b)[..|a + b| - 1] == a + init;
      RetainedAppend(a, init);
    }
  }

  lemma RetainedOne(raw: string)
    ensures Retained([raw]) == if IsArrowLine(raw) then [Strip(raw)] else []
  {
    assert [raw][..0] == [];
  }

  /**
   * The rewritten file: the version line, the new position lines (computed by the
   * layout, a parameter here, one line per position), then the kept transition lines.
   * With no positions at all the Y flip takes max() of an empty list and the
   * program stops.
   */
  function UpdatedFile(lines: seq<string>, positionLines: seq<string>): (r: Result<seq<string>, V2Error>)
    ensures r == Err(NoVersionHeader) <==> |lines| == 0 || !StartsWith(Strip(lines[0]), "v")
    ensures r == Err(NoPositions) <==> |lines| > 0 && StartsWith(Strip(lines[0]), "v") && positionLines == []
  {
    if |lines| == 0 || !StartsWith(Strip(lines[0]), "v") then Err(NoVersionHeader)
    else if positionLines == [] then Err(NoPositions)
    else Ok([Strip(lines[0])] + positionLines + Retained(lines[1..]))
  }

  /** update_file_with_positions: collecting the transition lines in place, then writing the file. */
  method UpdateFile(lines: seq<string>, positionLines: seq<string>) returns (r: Result<seq<string>, V2Error>)
    ensures r == UpdatedFile(lines, positionLines)
  {
    if |lines| == 0 || !StartsWith(Strip(lines[0]), "v") {
      return Err(NoVersionHeader);
    }
    var version := Strip(lines[0]);
    if positionLines == [] {
      return Err(NoPositions);
    }
    var transitions: seq<string> := [];
    var i := 1;
    while i < |lines|
      invariant 1 <= i <= |lines|
      invariant transitions == Retained(lines[1..i])
    {
      RetainedNext(lines, i);
      var lineStripped := Strip(lines[i]);
      if lineStripped != "" && Contains(lineStripped, "->") {
        transitions := transitions + [lineStripped];
      }
      i := i + 1;
    }
    assert lines[1..i] == lines[1..];
    return Ok([version] + positionLines + transitions);
  }

  /** Line number i + 1 of the file is the next line the loop of update_file looks at. */
  lemma RetainedNext(lines: seq<string>, i: nat)
    requires 1 <= i < |lines|
    ensures Retained(lines[1..i + 1]) == Retained(lines[1..i]) + (if IsArrowLine(lines[i]) then [Strip(lines[i])] else [])
  {
    assert lines[1..i + 1][..i - 1] == lines[1..i] && lines[1..i + 1][i - 1] == lines[i];
  }

  /** A stripped arrow line is read as the line itself. */
  lemma RetainedLineSameEdges(raw: string)
    ensures EdgesOf(Retained([raw])) == LineEdges(raw)
  {
    RetainedOne(raw);
    StripIdempotent(raw);
    assert [raw][..0] == [];
    if IsArrowLine(raw) {
      assert [Strip(raw)][..0] == [];
    }
  }

  lemma {:induction false} RetainedSameEdges(body: seq<string>)
    ensures EdgesOf(Retained(body)) == EdgesOf(body)
    decreases |body|
  {
    if body != [] {
      var init := body[..|body| - 1];
      var last := body[|body| - 1];
      assert body == init + [last];
      RetainedSameEdges(init);
      RetainedAppend(init, [last]);
      EdgesOfAppend(Retained(init), Retained([last]));
      RetainedLineSameEdges(last);
    }
  }

  lemma {:induction false} NoArrowLinesNoEdges(body: seq<string>)
    requires forall k :: 0 <= k < |body| ==> !IsArrowLine(body[k])
    ensures EdgesOf(body) == []
    decreases |body|
  {
    if body != [] {
      NoArrowLinesNoEdges(body[..|body| - 1]);
    }
  }

  /**
   * Rewriting a loadable file succeeds exactly when there are positions to write.
   * With fresh position lines (none of which holds "->") the rewrite keeps the
   * transition graph: reading the new file gives the same edges, in the same order,
   * and the same states.
   */
  lemma UpdateKeepsGraph(lines: seq<string>, positionLines: seq<string>)
    requires ParseV2(lines).Ok?
    requires forall k :: 0 <= k < |positionLines| ==> !IsArrowLine(positionLines[k])
    ensures UpdatedFile(lines, positionLines).Ok? <==> positionLines != []
    ensures UpdatedFile(lines, positionLines).Ok? ==>
      var out := UpdatedFile(lines, positionLines).value;
      ParseV2(out).Ok? && ParseV2(out).value.edges == ParseV2(lines).value.edges &&
      ParseV2(out).value.states == ParseV2(lines).value.states
  {
    if positionLines == [] {
      return;
    }
    var out := UpdatedFile(lines, positionLines).value;
    assert out[0] == Strip(lines[0]);
    StripIdempotent(lines[0]);
    assert ParseV2(out).Ok?;
    AfterVersion(Strip(lines[0]), positionLines, Retained(lines[1..]));
    UpdatedBodyEdges(positionLines, lines[1..]);
    ParsedV2Graph(lines);
    ParsedV2Graph(out);
  }

  lemma AfterVersion(version: string, positionLines: seq<string>, kept: seq<string>)
    ensures ([version] + positionLines + kept)[1..] == positionLines + kept
  {
  }

  /** Position lines in front of the kept transition lines add no edge and drop none. */
  lemma UpdatedBodyEdges(positionLines: seq<string>, body: seq<string>)
    requires forall k :: 0 <= k < |positionLines| ==> !IsArrowLine(positionLines[k])
    ensures EdgesOf(positionLines + Retained(body)) == EdgesOf(body)
  {
    EdgesOfAppend(positionLines, Retained(body));
    NoArrowLinesNoEdges(positionLines);
    RetainedSameEdges(body);
  }
}
