/**
 * The v4.0 opening-file logic of bin/evaluate.py: reading a file into a graph of
 * normalised positions, finding its leaf positions, and writing the transitions
 * back with moves recovered by search over the legal moves.
 *
 * python-chess is not modelled; it appears as two parameters:
 *   applySan(fen, san)  the FEN after playing `san` in `fen`, or None when the FEN
 *                       cannot be loaded or the move cannot be parsed or played;
 *   legalMoves(fen)     the legal moves of `fen` in generation order, each with its
 *                       SAN and the FEN it leads to (empty when the FEN is invalid).
 */
module EvaluateV4 {
  import opened Wrappers
  import opened Text
  import opened Fen

  /** One transition: normalised endpoints, its annotation, and the source FEN as written. */
  datatype Edge = Edge(from: string, to: string, annotation: string, fullFrom: string)

  /** The header failures that end the program. */
  datatype LoadError = NoVersionHeader | UnsupportedVersion(found: string) | MissingTitle

  /** Why update_file_with_positions stops: max() over an empty set of positions. */
  datatype ExportError = NoPositions

  /** The per-line warnings the parser prints; the number is the 1-based line. */
  datatype Warning = MalformedLine(line: nat) | MoveNotApplied(line: nat)

  datatype Opening = Opening(states: set<string>, edges: seq<Edge>, title: string, warnings: seq<Warning>)

  /** How a line after the header is treated. */
  datatype LineKind =
    | Blank
    | Comment(text: string)
    | PositionDef
    | Malformed
    | Transition(fromState: string, toPart: string)

  function ClassifyLine(raw: string): (kind: LineKind)
    ensures kind.Blank? <==> Strip(raw) == ""
    ensures kind.Transition? ==>
      IsStripped(kind.fromState) && !Contains(kind.fromState, "->") &&
      IsStripped(kind.toPart) && !Contains(kind.toPart, "->")
  {
    var line := Strip(raw);
    if line == "" then Blank
    else if StartsWith(line, "#") then Comment(Strip(line[1..]))
    else if !Contains(line, "->") then
      if Contains(line, ":") then
        var coords := Strip(SplitOnce(line, ":")[1]);
        if coords != "" && IsDigit(coords[0]) then PositionDef else Malformed
      else Malformed
    else
      var parts := Split(line, "->");
      if |parts| != 2 then Malformed
      else
        StripKeepsArrows(parts[0]);
        StripKeepsArrows(parts[1]);
        Transition(Strip(parts[0]), Strip(parts[1]))
  }

  /** A right-hand side holding a FEN (or "start") marks a transition of the legacy form. */
  predicate IsLegacyTarget(toPart: string) {
    Contains(toPart, "/") || toPart == "start"
  }

  /**
   * The node a transition leads to: the normalised right-hand side in the legacy
   * form; otherwise the position after the move, as "start" when it is literally
   * the initial FEN and normalised when not; None when the move cannot be applied.
   */
  function TransitionTarget(fromState: string, toPart: string, applySan: (string, string) -> Option<string>): Option<string> {
    if IsLegacyTarget(toPart) then Some(NormalizeFen(toPart))
    else
      match applySan(StateToFen(fromState), toPart)
      case None => None
      case Some(toFen) => Some(if toFen == START_FEN then "start" else NormalizeFen(toFen))
  }

  /** The parser's running state: nodes, edges, comments not yet attached, warnings. */
  datatype Acc = Acc(states: set<string>, edges: seq<Edge>, pending: seq<string>, warnings: seq<Warning>)

  const EMPTY: Acc := Acc({}, [], [], [])

  /** The effect of one line, numbered lineNo, on the parser state. */
  function Step(acc: Acc, raw: string, lineNo: nat, applySan: (string, string) -> Option<string>): Acc {
    StepKind(acc, ClassifyLine(raw), lineNo, applySan)
  }

  /** The effect of a line of kind `kind`, numbered lineNo, on the parser state. */
  function StepKind(acc: Acc, kind: LineKind, lineNo: nat, applySan: (string, string) -> Option<string>): (next: Acc)
    ensures acc.states <= next.states && acc.edges <= next.edges && acc.warnings <= next.warnings
    ensures |next.edges| <= |acc.edges| + 1 && |next.warnings| <= |acc.warnings| + 1
    ensures !kind.Blank? && !kind.Comment? ==> next.pending == []
  {
    match kind
    case Blank => acc
    case Comment(text) => if text == "" then acc else acc.(pending := acc.pending + [text])
    case PositionDef => acc.(pending := [])
    case Malformed => acc.(pending := [], warnings := acc.warnings + [MalformedLine(lineNo)])
    case Transition(fromState, toPart) =>
      match TransitionTarget(fromState, toPart, applySan)
      case None => acc.(pending := [], warnings := acc.warnings + [MoveNotApplied(lineNo)])
      case Some(toState) =>
        var from := NormalizeFen(fromState);
        Acc(acc.states + {from, toState},
            acc.edges + [Edge(from, toState, Join(" ", acc.pending), fromState)],
            [], acc.warnings)
  }

  /** Step with the move oracle fixed: the function folded over the lines of a file. */
  function ParseStep(applySan: (string, string) -> Option<string>): (Acc, string, nat) -> Acc {
    (acc: Acc, raw: string, lineNo: nat) => Step(acc, raw, lineNo, applySan)
  }

  /** The state after folding `step` over the lines `body`, the first of which is line number `first`. */
  function Run(step: (Acc, string, nat) -> Acc, acc: Acc, body: seq<string>, first: nat): Acc
    decreases |body|
  {
    if body == [] then acc
    else step(Run(step, acc, body[..|body| - 1], first), body[|body| - 1], first + |body| - 1)
  }

  /** bin/evaluate.py parse_v4_file on the lines of a file. */
  function ParseV4(lines: seq<string>, applySan: (string, string) -> Option<string>): (r: Result<Opening, LoadError>)
    ensures r.Ok? ==> IsStripped(r.value.title)
  {
    if |lines| == 0 || !StartsWith(Strip(lines[0]), "v") then Err(NoVersionHeader)
    else if Strip(lines[0]) != "v4.0" then Err(UnsupportedVersion(Strip(lines[0])))
    else if |lines| < 2 || !StartsWith(Strip(lines[1]), "=") then Err(MissingTitle)
    else
      var acc := Run(ParseStep(applySan), EMPTY, lines[2..], 3);
      Ok(Opening(acc.states, acc.edges, Strip(Strip(lines[1])[1..]), acc.warnings))
  }

  /** Running one more line is one more step. */
  lemma RunSnoc(step: (Acc, string, nat) -> Acc, acc: Acc, body: seq<string>, raw: string, first: nat)
    ensures Run(step, acc, body + [raw], first) == step(Run(step, acc, body, first), raw, first + |body|)
  {
    assert (body + [raw])[..|body|] == body;
  }

  /** bin/evaluate.py parse_v4_file: the line loop, filling the edge list and node set in place. */
  method LoadV4(lines: seq<string>, applySan: (string, string) -> Option<string>) returns (r: Result<Opening, LoadError>)
    ensures r == ParseV4(lines, applySan)
  {
    if |lines| == 0 || !StartsWith(Strip(lines[0]), "v") {
      return Err(NoVersionHeader);
    }
    var version := Strip(lines[0]);
    if version != "v4.0" {
      return Err(UnsupportedVersion(version));
    }
    if |lines| < 2 || !StartsWith(Strip(lines[1]), "=") {
      return Err(MissingTitle);
    }
    var title := Strip(Strip(lines[1])[1..]);
    var edges: seq<Edge> := [];
    var states: set<string> := {};
    var pending: seq<string> := [];
    var warnings: seq<Warning> := [];
    var i := 2;
    while i < |lines|
      invariant 2 <= i <= |lines|
      invariant Acc(states, edges, pending, warnings) == Run(ParseStep(applySan), EMPTY, lines[2..i], 3)
    {
      RunNextLine(ParseStep(applySan), lines, i);
      states, edges, pending, warnings := HandleLine(states, edges, pending, warnings, lines[i], i + 1, applySan);
      i := i + 1;
    }
    assert lines[2..i] == lines[2..];
    return Ok(Opening(states, edges, title, warnings));
  }

  /** The fold over lines[2..i + 1] is one more step after the fold over lines[2..i]. */
  lemma RunNextLine(step: (Acc, string, nat) -> Acc, lines: seq<string>, i: nat)
    requires 2 <= i < |lines|
    ensures Run(step, EMPTY, lines[2..i + 1], 3) == step(Run(step, EMPTY, lines[2..i], 3), lines[i], i + 1)
  {
    RunSnoc(step, EMPTY, lines[2..i], lines[i], 3);
    assert lines[2..i] + [lines[i]] == lines[2..i + 1];
  }

  /** The body of the parse_v4_file loop for one line: classify it, then act on it. */
  method HandleLine(states: set<string>, edges: seq<Edge>, pending: seq<string>, warnings: seq<Warning>,
                    raw: string, lineNo: nat, applySan: (string, string) -> Option<string>)
    returns (states': set<string>, edges': seq<Edge>, pending': seq<string>, warnings': seq<Warning>)
    ensures Acc(states', edges', pending', warnings') == Step(Acc(states, edges, pending, warnings), raw, lineNo, applySan)
  {
    var kind := ReadLine(raw);
    states', edges', pending', warnings' := HandleKind(states, edges, pending, warnings, kind, lineNo, applySan);
  }

  /** The tests of the parse_v4_file loop body that decide what kind of line it read. */
  method ReadLine(raw: string) returns (kind: LineKind)
    ensures kind == ClassifyLine(raw)
  {
    var line := Strip(raw);
    if line == "" {
      return Blank;
    }
    if StartsWith(line, "#") {
      return Comment(Strip(line[1..]));
    }
    if !Contains(line, "->") {
      var looksLikePosition := false;
      if Contains(line, ":") {
        var parts := SplitOnce(line, ":");
        var coords := Strip(parts[1]);
        looksLikePosition := coords != "" && IsDigit(coords[0]);
      }
      if !looksLikePosition {
        return Malformed;
      }
      return PositionDef;
    }
    var parts := Split(line, "->");
    if |parts| != 2 {
      return Malformed;
    }
    return Transition(Strip(parts[0]), Strip(parts[1]));
  }

  /** What the parse_v4_file loop body does with a line of kind `kind`. */
  method HandleKind(states: set<string>, edges: seq<Edge>, pending: seq<string>, warnings: seq<Warning>,
                    kind: LineKind, lineNo: nat, applySan: (string, string) -> Option<string>)
    returns (states': set<string>, edges': seq<Edge>, pending': seq<string>, warnings': seq<Warning>)
    ensures Acc(states', edges', pending', warnings') == StepKind(Acc(states, edges, pending, warnings), kind, lineNo, applySan)
  {
    states', edges', pending', warnings' := states, edges, pending, warnings;
    match kind {
      case Blank =>
      case Comment(comment) =>
        if comment != "" {
          pending' := pending + [comment];
        }
      case PositionDef =>
        pending' := [];
      case Malformed =>
        warnings' := warnings + [MalformedLine(lineNo)];
        pending' := [];
      case Transition(fromState, toPart) =>
        var annotation := Join(" ", pending);
        pending' := [];
        if Contains(toPart, "/") || toPart == "start" {
          var normalizedFrom := NormalizeFen(fromState);
          var normalizedTo := NormalizeFen(toPart);
          states' := states + {normalizedFrom, normalizedTo};
          edges' := edges + [Edge(normalizedFrom, normalizedTo, annotation, fromState)];
        } else {
          var moved := applySan(StateToFen(fromState), toPart);
          if moved.None? {
            warnings' := warnings + [MoveNotApplied(lineNo)];
          } else {
            var toFen := moved.value;
            var toState := if toFen == START_FEN then "start" else NormalizeFen(toFen);
            var normalizedFrom := NormalizeFen(fromState);
            states' := states + {normalizedFrom, toState};
            edges' := edges + [Edge(normalizedFrom, toState, annotation, fromState)];
          }
        }
    }
  }

  // ---------------------------------------------------------------------------
  // What a parse produces

  /** Every position an edge list mentions, at either end. */
  function Endpoints(edges: seq<Edge>): (r: set<string>)
    ensures forall x :: x in r <==> exists k :: 0 <= k < |edges| && (edges[k].from == x || edges[k].to == x)
  {
    if edges == [] then {}
    else
      var init := edges[..|edges| - 1];
      var r := Endpoints(init) + {edges[|edges| - 1].from, edges[|edges| - 1].to};
      assert forall k :: 0 <= k < |init| ==> init[k] == edges[k];
      r
  }

  /** The positions an edge list leaves from. */
  function Sources(edges: seq<Edge>): (r: set<string>)
    ensures forall x :: x in r <==> exists k :: 0 <= k < |edges| && edges[k].from == x
  {
    if edges == [] then {}
    else
      var init := edges[..|edges| - 1];
      var r := Sources(init) + {edges[|edges| - 1].from};
      assert forall k :: 0 <= k < |init| ==> init[k] == edges[k];
      r
  }

  /** Both ends are normalised keys, and the source as written normalises to the from key. */
  predicate EdgeNormalized(e: Edge) {
    e.from == NormalizeFen(e.fullFrom) && NormalizeFen(e.from) == e.from && NormalizeFen(e.to) == e.to
  }

  /** The node set is exactly the edge endpoints. */
  predicate NodesAreEndpoints(acc: Acc) {
    acc.states == Endpoints(acc.edges)
  }

  /** Every edge is normalised. */
  predicate EdgesNormalized(acc: Acc) {
    forall k :: 0 <= k < |acc.edges| ==> EdgeNormalized(acc.edges[k])
  }

  lemma EndpointsSnoc(edges: seq<Edge>, e: Edge)
    ensures Endpoints(edges + [e]) == Endpoints(edges) + {e.from, e.to}
  {
    assert (edges + [e])[..|edges|] == edges;
  }

  /** The edge a transition line adds, if any. */
  lemma TransitionEdgeNormalized(fromState: string, toPart: string, applySan: (string, string) -> Option<string>)
    requires TransitionTarget(fromState, toPart, applySan).Some?
    ensures EdgeNormalized(Edge(NormalizeFen(fromState), TransitionTarget(fromState, toPart, applySan).value, "", fromState))
  {
    NormalizeIdempotent(fromState);
    if IsLegacyTarget(toPart) {
      NormalizeIdempotent(toPart);
    } else {
      var toFen := applySan(StateToFen(fromState), toPart).value;
      NormalizeIdempotent(toFen);
      assert NormalizeFen("start") == "start";
    }
  }

  lemma StepKeepsNodesAreEndpoints(acc: Acc, raw: string, lineNo: nat, applySan: (string, string) -> Option<string>)
    requires NodesAreEndpoints(acc)
    ensures NodesAreEndpoints(Step(acc, raw, lineNo, applySan))
  {
    KindKeepsNodesAreEndpoints(acc, ClassifyLine(raw), lineNo, applySan);
  }

  lemma KindKeepsNodesAreEndpoints(acc: Acc, kind: LineKind, lineNo: nat, applySan: (string, string) -> Option<string>)
    requires NodesAreEndpoints(acc)
    ensures NodesAreEndpoints(StepKind(acc, kind, lineNo, applySan))
  {
    if kind.Transition? {
      var target := TransitionTarget(kind.fromState, kind.toPart, applySan);
      if target.Some? {
        EndpointsSnoc(acc.edges, Edge(NormalizeFen(kind.fromState), target.value, Join(" ", acc.pending), kind.fromState));
      }
    }
  }

  lemma StepKeepsEdgesNormalized(acc: Acc, raw: string, lineNo: nat, applySan: (string, string) -> Option<string>)
    requires EdgesNormalized(acc)
    ensures EdgesNormalized(Step(acc, raw, lineNo, applySan))
  {
    KindKeepsEdgesNormalized(acc, ClassifyLine(raw), lineNo, applySan);
  }

  lemma KindKeepsEdgesNormalized(acc: Acc, kind: LineKind, lineNo: nat, applySan: (string, string) -> Option<string>)
    requires EdgesNormalized(acc)
    ensures EdgesNormalized(StepKind(acc, kind, lineNo, applySan))
  {
    if kind.Transition? && TransitionTarget(kind.fromState, kind.toPart, applySan).Some? {
      TransitionEdgeNormalized(kind.fromState, kind.toPart, applySan);
    }
  }

  lemma {:induction false} RunKeepsNodesAreEndpoints(acc: Acc, body: seq<string>, first: nat, applySan: (string, string) -> Option<string>)
    requires NodesAreEndpoints(acc)
    ensures NodesAreEndpoints(Run(ParseStep(applySan), acc, body, first))
    decreases |body|
  {
    if body != [] {
      var init := body[..|body| - 1];
      RunKeepsNodesAreEndpoints(acc, init, first, applySan);
      StepKeepsNodesAreEndpoints(Run(ParseStep(applySan), acc, init, first), body[|body| - 1], first + |body| - 1, applySan);
    }
  }

  lemma {:induction false} RunKeepsEdgesNormalized(acc: Acc, body: seq<string>, first: nat, applySan: (string, string) -> Option<string>)
    requires EdgesNormalized(acc)
    ensures EdgesNormalized(Run(ParseStep(applySan), acc, body, first))
    decreases |body|
  {
    if body != [] {
      var init := body[..|body| - 1];
      RunKeepsEdgesNormalized(acc, init, first, applySan);
      StepKeepsEdgesNormalized(Run(ParseStep(applySan), acc, init, first), body[|body| - 1], first + |body| - 1, applySan);
    }
  }

  /**
   * A loaded opening is a graph over normalised keys: its nodes are exactly the
   * endpoints of its edges, every edge's ends are fixed points of normalisation,
   * and its from key is the normalisation of the FEN kept for export.
   */
  lemma LoadedGraphWellFormed(lines: seq<string>, applySan: (string, string) -> Option<string>)
    requires ParseV4(lines, applySan).Ok?
    ensures var o := ParseV4(lines, applySan).value;
      o.states == Endpoints(o.edges) && forall k :: 0 <= k < |o.edges| ==> EdgeNormalized(o.edges[k])
  {
    RunKeepsNodesAreEndpoints(EMPTY, lines[2..], 3, applySan);
    RunKeepsEdgesNormalized(EMPTY, lines[2..], 3, applySan);
  }

  /** The header decides whether a file loads at all; the lines after it never cause an error. */
  lemma LoadHeader(lines: seq<string>, applySan: (string, string) -> Option<string>)
    ensures ParseV4(lines, applySan).Ok? <==>
      |lines| >= 2 && Strip(lines[0]) == "v4.0" && StartsWith(Strip(lines[1]), "=")
    ensures ParseV4(lines, applySan) == Err(NoVersionHeader) <==> |lines| == 0 || !StartsWith(Strip(lines[0]), "v")
    ensures ParseV4(lines, applySan).Ok? ==> ParseV4(lines, applySan).value.title == Strip(Strip(lines[1])[1..])
  {
  }

  // ---------------------------------------------------------------------------
  // Comments become annotations

  /** A line that keeps the pending comments: a blank line or a comment, "#" alone included. */
  predicate IsQuietLine(raw: string) {
    ClassifyLine(raw).Blank? || ClassifyLine(raw).Comment?
  }

  /** What a quiet line adds to the pending comments: a comment's text, unless that is empty. */
  function Added(raw: string): seq<string> {
    if ClassifyLine(raw).Comment? && ClassifyLine(raw).text != "" then [ClassifyLine(raw).text] else []
  }

  /** The non-empty comment texts of the lines `comments`, in order. */
  function CommentTexts(comments: seq<string>): (texts: seq<string>)
    ensures forall j :: 0 <= j < |texts| ==> texts[j] != ""
    decreases |comments|
  {
    if comments == [] then [] else CommentTexts(comments[..|comments| - 1]) + Added(comments[|comments| - 1])
  }

  /** Blank and comment lines only collect the comments' texts; they add no nodes, edges or warnings. */
  lemma {:induction false} CommentsAccumulate(acc: Acc, comments: seq<string>, first: nat, applySan: (string, string) -> Option<string>)
    requires forall k :: 0 <= k < |comments| ==> IsQuietLine(comments[k])
    ensures Run(ParseStep(applySan), acc, comments, first) == acc.(pending := acc.pending + CommentTexts(comments))
    decreases |comments|
  {
    if comments == [] {
      assert acc.pending + [] == acc.pending;
    } else {
      var init := comments[..|comments| - 1];
      var last := comments[|comments| - 1];
      assert forall k :: 0 <= k < |init| ==> init[k] == comments[k];
      CommentsAccumulate(acc, init, first, applySan);
      var mid := acc.(pending := acc.pending + CommentTexts(init));
      ParseStepIs(mid, last, first + |init|, applySan);
      QuietKindEffect(mid, ClassifyLine(last), first + |init|, applySan);
      AppendAssoc(acc.pending, CommentTexts(init), Added(last));
    }
  }

  /** A blank line changes nothing; a comment adds its text, if it has one, to the pending comments. */
  lemma QuietKindEffect(a: Acc, kind: LineKind, n: nat, applySan: (string, string) -> Option<string>)
    requires kind.Blank? || kind.Comment?
    ensures StepKind(a, kind, n, applySan) ==
      a.(pending := a.pending + (if kind.Comment? && kind.text != "" then [kind.text] else []))
  {
    assert a.pending + [] == a.pending;
  }

  /**
   * The comments collected since the last transition, joined by single spaces,
   * become the annotation of the next transition, whatever blank lines come between
   * them, and are then forgotten.
   */
  lemma CommentsAnnotateNextTransition(acc: Acc, comments: seq<string>, raw: string, first: nat,
                                        applySan: (string, string) -> Option<string>)
    requires forall k :: 0 <= k < |comments| ==> IsQuietLine(comments[k])
    requires ClassifyLine(raw).Transition?
    ensures var r := Run(ParseStep(applySan), acc, comments + [raw], first);
      r.pending == [] &&
      (|r.edges| == |acc.edges| + 1 <==>
         TransitionTarget(ClassifyLine(raw).fromState, ClassifyLine(raw).toPart, applySan).Some?) &&
      (|r.edges| == |acc.edges| + 1 ==>
         (r.edges[..|acc.edges|] == acc.edges &&
          r.edges[|acc.edges|].annotation == Join(" ", acc.pending + CommentTexts(comments)) &&
          r.edges[|acc.edges|].fullFrom == ClassifyLine(raw).fromState)) &&
      (|r.edges| != |acc.edges| + 1 ==> r.edges == acc.edges)
  {
    var texts := CommentTexts(comments);
    CommentsAccumulate(acc, comments, first, applySan);
    ParseStepIs(acc.(pending := acc.pending + texts), raw, first + |comments|, applySan);
    TransitionAfterTexts(ParseStep(applySan), acc, comments, texts, raw, ClassifyLine(raw), first, applySan);
  }

  /** A transition of kind `kind` after lines that add `texts` to the pending comments. */
  lemma TransitionAfterTexts(step: (Acc, string, nat) -> Acc, acc: Acc, comments: seq<string>, texts: seq<string>,
                             raw: string, kind: LineKind, first: nat, applySan: (string, string) -> Option<string>)
    requires Run(step, acc, comments, first) == acc.(pending := acc.pending + texts)
    requires step(acc.(pending := acc.pending + texts), raw, first + |comments|) ==
      StepKind(acc.(pending := acc.pending + texts), kind, first + |comments|, applySan)
    requires kind.Transition?
    ensures var r := Run(step, acc, comments + [raw], first);
      r.pending == [] &&
      (|r.edges| == |acc.edges| + 1 <==> TransitionTarget(kind.fromState, kind.toPart, applySan).Some?) &&
      (|r.edges| == |acc.edges| + 1 ==>
         (r.edges[..|acc.edges|] == acc.edges &&
          r.edges[|acc.edges|].annotation == Join(" ", acc.pending + texts) &&
          r.edges[|acc.edges|].fullFrom == kind.fromState)) &&
      (|r.edges| != |acc.edges| + 1 ==> r.edges == acc.edges)
  {
    RunSnoc(step, acc, comments, raw, first);
    TransitionKindEffect(acc, acc.pending + texts, kind, first + |comments|, applySan);
  }

  /** The parser's step on a line is the step for the line's kind. */
  lemma ParseStepIs(a: Acc, raw: string, n: nat, applySan: (string, string) -> Option<string>)
    ensures ParseStep(applySan)(a, raw, n) == StepKind(a, ClassifyLine(raw), n, applySan)
  {
  }

  /** A transition line consumes the pending comments `texts` as the annotation of the edge it adds, if any. */
  lemma TransitionKindEffect(acc: Acc, texts: seq<string>, kind: LineKind, n: nat, applySan: (string, string) -> Option<string>)
    requires kind.Transition?
    ensures var r := StepKind(acc.(pending := texts), kind, n, applySan);
      r.pending == [] &&
      (|r.edges| == |acc.edges| + 1 <==> TransitionTarget(kind.fromState, kind.toPart, applySan).Some?) &&
      (|r.edges| == |acc.edges| + 1 ==>
         (r.edges[..|acc.edges|] == acc.edges &&
          r.edges[|acc.edges|].annotation == Join(" ", texts) &&
          r.edges[|acc.edges|].fullFrom == kind.fromState)) &&
      (|r.edges| != |acc.edges| + 1 ==> r.edges == acc.edges)
  {
    var r := StepKind(acc.(pending := texts), kind, n, applySan);
    if TransitionTarget(kind.fromState, kind.toPart, applySan).Some? {
      assert r.edges[..|acc.edges|] == acc.edges;
    }
  }

  /** Position definitions and malformed lines discard pending comments without adding edges. */
  lemma OtherLinesDropComments(acc: Acc, raw: string, lineNo: nat, applySan: (string, string) -> Option<string>)
    requires ClassifyLine(raw) == PositionDef || ClassifyLine(raw) == Malformed
    ensures Step(acc, raw, lineNo, applySan).pending == []
    ensures Step(acc, raw, lineNo, applySan).edges == acc.edges
    ensures Step(acc, raw, lineNo, applySan).warnings ==
      acc.warnings + (if ClassifyLine(raw) == Malformed then [MalformedLine(lineNo)] else [])
  {
  }

  // ---------------------------------------------------------------------------
  // Transpositions

  /**
   * Two legacy transitions to six-field FENs reach the same node exactly when the
   * FENs agree on placement, side to move and castling rights.
   */
  lemma LegacyTranspositionsMerge(from1: string, to1: string, from2: string, to2: string,
                                  applySan: (string, string) -> Option<string>)
    requires IsLegacyTarget(to1) && IsLegacyTarget(to2)
    requires |Fields(to1)| == 6 && |Fields(to2)| == 6
    ensures TransitionTarget(from1, to1, applySan) == TransitionTarget(from2, to2, applySan) <==>
      Fields(to1)[..3] == Fields(to2)[..3]
  {
    NormalizeSamePosition(to1, to2);
  }

  /**
   * Two moves whose resulting FENs are not literally the initial FEN reach the same
   * node exactly when the resulting FENs agree on their first three fields.
   */
  lemma MoveTranspositionsMerge(from1: string, san1: string, from2: string, san2: string,
                                applySan: (string, string) -> Option<string>)
    requires !IsLegacyTarget(san1) && !IsLegacyTarget(san2)
    requires applySan(StateToFen(from1), san1).Some? && applySan(StateToFen(from2), san2).Some?
    requires var a := applySan(StateToFen(from1), san1).value; |Fields(a)| == 6 && a != START_FEN
    requires var b := applySan(StateToFen(from2), san2).value; |Fields(b)| == 6 && b != START_FEN
    ensures TransitionTarget(from1, san1, applySan) == TransitionTarget(from2, san2, applySan) <==>
      Fields(applySan(StateToFen(from1), san1).value)[..3] == Fields(applySan(StateToFen(from2), san2).value)[..3]
  {
    NormalizeSamePosition(applySan(StateToFen(from1), san1).value, applySan(StateToFen(from2), san2).value);
  }

  /**
   * The node "start" is reached only by the literal token in the legacy form, or by
   * a move whose resulting FEN is character for character the initial FEN; the
   * initial position reached with other counters is a different node.
   */
  lemma StartNodeRecognisedVerbatim(fromState: string, toPart: string, applySan: (string, string) -> Option<string>)
    ensures IsLegacyTarget(toPart) ==> (TransitionTarget(fromState, toPart, applySan) == Some("start") <==> toPart == "start")
    ensures (!IsLegacyTarget(toPart) && applySan(StateToFen(fromState), toPart).Some? &&
             |Fields(applySan(StateToFen(fromState), toPart).value)| == 6) ==>
      (TransitionTarget(fromState, toPart, applySan) == Some("start") <==>
       applySan(StateToFen(fromState), toPart).value == START_FEN)
  {
    StartTokenHasOneField();
    if IsLegacyTarget(toPart) && toPart != "start" && |Fields(toPart)| == 6 {
      assert |Fields(NormalizeFen(toPart))| == 6;
    }
    if !IsLegacyTarget(toPart) && applySan(StateToFen(fromState), toPart).Some? {
      var toFen := applySan(StateToFen(fromState), toPart).value;
      if |Fields(toFen)| == 6 && toFen != START_FEN {
        assert |Fields(NormalizeFen(toFen))| == 6;
      }
    }
  }

  // ---------------------------------------------------------------------------
  // Leaf positions

  /** bin/evaluate.py find_leaf_nodes: the endpoints with no outgoing edge. */
  method FindLeafNodes(edges: seq<Edge>) returns (leaves: set<string>)
    ensures leaves == Endpoints(edges) - Sources(edges)
  {
    var withChildren: set<string> := {};
    var all: set<string> := {};
    var i := 0;
    while i < |edges|
      invariant 0 <= i <= |edges|
      invariant withChildren == Sources(edges[..i])
      invariant all == Endpoints(edges[..i])
    {
      assert edges[..i + 1][..i] == edges[..i];
      withChildren := withChildren + {edges[i].from};
      all := all + {edges[i].from, edges[i].to};
      i := i + 1;
    }
    assert edges[..i] == edges;
    leaves := all - withChildren;
  }

  /** A leaf is the target of some edge and the source of none. */
  lemma LeavesAreDeadEnds(edges: seq<Edge>, x: string)
    ensures x in Endpoints(edges) - Sources(edges) <==>
      (exists k :: 0 <= k < |edges| && edges[k].to == x) && forall k :: 0 <= k < |edges| ==> edges[k].from != x
  {
  }

  // ---------------------------------------------------------------------------
  // Writing the transitions back

  /**
   * The SAN of the first move, in generation order, whose resulting FEN has the key
   * `key`; None when no legal move reaches it.
   */
  function FirstMatch(moves: seq<(string, string)>, key: string): Option<string> {
    FirstMatchFrom(moves, key, 0, FenKey)
  }

  /** FirstMatch finds a move exactly when one reaches the key, and then the first such. */
  lemma FirstMatchMeaning(moves: seq<(string, string)>, key: string)
    ensures FirstMatch(moves, key).None? <==> forall i :: 0 <= i < |moves| ==> FenKey(moves[i].1) != key
    ensures FirstMatch(moves, key).Some? ==>
      exists i :: 0 <= i < |moves| && moves[i].0 == FirstMatch(moves, key).value && FenKey(moves[i].1) == key &&
        forall j :: 0 <= j < i ==> FenKey(moves[j].1) != key
  {
    var r := FirstMatchFrom(moves, key, 0, FenKey);
    if r.Some? {
      var i :| 0 <= i < |moves| && moves[i].0 == r.value && FenKey(moves[i].1) == key &&
        forall j :: 0 <= j < i ==> FenKey(moves[j].1) != key;
    }
  }

  /** The first move at index `from` or later whose target has the key, under the key function `keyOf`. */
  function FirstMatchFrom(moves: seq<(string, string)>, key: string, from: nat, keyOf: string -> string): (r: Option<string>)
    requires from <= |moves|
    ensures r.None? <==> forall i :: from <= i < |moves| ==> keyOf(moves[i].1) != key
    ensures r.Some? ==> exists i :: from <= i < |moves| && moves[i].0 == r.value && keyOf(moves[i].1) == key &&
                                   forall j :: from <= j < i ==> keyOf(moves[j].1) != key
    decreases |moves| - from
  {
    if from == |moves| then None
    else if keyOf(moves[from].1) == key then Some(moves[from].0)
    else FirstMatchFrom(moves, key, from + 1, keyOf)
  }

  /** The move search of update_file_with_positions: stop at the first legal move that reaches the target key. */
  method FindMove(fromFen: string, toFen: string, legalMoves: string -> seq<(string, string)>) returns (move: Option<string>)
    ensures move == FirstMatch(legalMoves(fromFen), FenKey(toFen))
  {
    var moves := legalMoves(fromFen);
    var toKey := FenKey(toFen);
    var i := 0;
    while i < |moves|
      invariant 0 <= i <= |moves|
      invariant FirstMatchFrom(moves, toKey, 0, FenKey) == FirstMatchFrom(moves, toKey, i, FenKey)
    {
      if FenKey(moves[i].1) == toKey {
        return Some(moves[i].0);
      }
      i := i + 1;
    }
    return None;
  }

  /**
   * The transition line written for an edge: the FEN as it was read followed by
   * the move when one is found (and is not empty), otherwise the two normalised
   * endpoints in the legacy form.
   */
  function TransitionLine(e: Edge, legalMoves: string -> seq<(string, string)>): string {
    match FirstMatch(legalMoves(StateToFen(e.fullFrom)), FenKey(StateToFen(e.to)))
    case Some(move) => if move != "" then e.fullFrom + " -> " + move else e.from + " -> " + e.to
    case None => e.from + " -> " + e.to
  }

  /** The comment line written for an annotation. */
  function CommentLine(text: string): string {
    "# " + text
  }

  /** The lines written for one edge: its annotation as a comment, if it has one, then its transition. */
  function EdgeLines(e: Edge, legalMoves: string -> seq<(string, string)>): seq<string> {
    (if e.annotation != "" then [CommentLine(e.annotation)] else []) + [TransitionLine(e, legalMoves)]
  }

  /** The transition section of the rewritten file. */
  function TransitionLines(edges: seq<Edge>, legalMoves: string -> seq<(string, string)>): seq<string> {
    if edges == [] then []
    else TransitionLines(edges[..|edges| - 1], legalMoves) + EdgeLines(edges[|edges| - 1], legalMoves)
  }

  /** update_file_with_positions: the loop that builds the transition lines. */
  method WriteTransitions(edges: seq<Edge>, legalMoves: string -> seq<(string, string)>) returns (lines: seq<string>)
    ensures lines == TransitionLines(edges, legalMoves)
  {
    lines := [];
    var i := 0;
    while i < |edges|
      invariant 0 <= i <= |edges|
      invariant lines == TransitionLines(edges[..i], legalMoves)
    {
      assert edges[..i + 1][..i] == edges[..i];
      var written := WriteEdge(edges[i], legalMoves);
      lines := lines + written;
      i := i + 1;
    }
    assert edges[..i] == edges;
  }

  /** The body of that loop for one edge. */
  method WriteEdge(e: Edge, legalMoves: string -> seq<(string, string)>) returns (lines: seq<string>)
    ensures lines == EdgeLines(e, legalMoves)
  {
    lines := [];
    if e.annotation != "" {
      lines := lines + [CommentLine(e.annotation)];
    }
    var transition := WriteTransitionLine(e, legalMoves);
    lines := lines + [transition];
  }

  /** The transition line of an edge, searching the legal moves of its source. */
  method WriteTransitionLine(e: Edge, legalMoves: string -> seq<(string, string)>) returns (line: string)
    ensures line == TransitionLine(e, legalMoves)
  {
    var move := FindMove(StateToFen(e.fullFrom), StateToFen(e.to), legalMoves);
    if move.Some? && move.value != "" {
      line := e.fullFrom + " -> " + move.value;
    } else {
      line := e.from + " -> " + e.to;
    }
  }

  /**
   * The header update_file_with_positions writes: the version, and the title line
   * only when the title is not empty.
   */
  function HeaderAsWritten(title: string): seq<string> {
    ["v4.0"] + (if title != "" then ["= " + title] else [])
  }

  /**
   * The file update_file_with_positions writes: the header as written, then the
   * position lines (one per position of the layout), then the transition lines.
   * With a title it is the corrected file; with the empty title the title line is
   * missing.  Without positions the Y flip takes max() of an empty list and the
   * program stops.
   */
  function ExportFileAsWritten(title: string, positionLines: seq<string>, edges: seq<Edge>,
                               legalMoves: string -> seq<(string, string)>): (r: Result<seq<string>, ExportError>)
    ensures r.Err? <==> positionLines == []
    ensures r.Ok? ==> |r.value| >= 1 && r.value[0] == "v4.0"
    ensures r.Ok? && title != "" ==> r.value == ExportFile(title, positionLines, edges, legalMoves)
    ensures r.Ok? && title == "" ==> r.value[1..] == positionLines + TransitionLines(edges, legalMoves)
  {
    if positionLines == [] then Err(NoPositions)
    else
      var body := positionLines + TransitionLines(edges, legalMoves);
      HeaderAsWrittenShape(title, body);
      Ok(HeaderAsWritten(title) + body)
  }

  lemma HeaderAsWrittenShape(title: string, body: seq<string>)
    ensures |HeaderAsWritten(title) + body| >= 1 && (HeaderAsWritten(title) + body)[0] == "v4.0"
    ensures title != "" ==> HeaderAsWritten(title) + body == Header(title) + body
    ensures title == "" ==> (HeaderAsWritten(title) + body)[1..] == body
  {
  }

  /**
   * With the empty title the second line written is the first position line, which
   * does not start with "=", so the rewritten file no longer loads.
   */
  lemma EmptyTitleExportRejected(positionLines: seq<string>, edges: seq<Edge>,
                                 legalMoves: string -> seq<(string, string)>, applySan: (string, string) -> Option<string>)
    requires positionLines != [] && !StartsWith(Strip(positionLines[0]), "=")
    ensures var out := ExportFileAsWritten("", positionLines, edges, legalMoves);
      out.Ok? && ParseV4(out.value, applySan) == Err(MissingTitle)
  {
    var r := ExportFileAsWritten("", positionLines, edges, legalMoves).value;
    StripIsIdentity("v4.0");
    assert r[1] == positionLines[0];
  }

  /**
   * A file "v4.0", "=", "a -> b" whose one transition can be followed loads with
   * the empty title and one edge, so main lays out its positions and rewrites it.
   * The rewrite puts a position line where the title line was, and the result no
   * longer loads.  "v4.0", "=", "start -> e4" is such a file (StartE4Tokens).
   */
  lemma EmptyTitleRewriteRejected(a: string, b: string, position: string, legalMoves: string -> seq<(string, string)>,
                                  applySan: (string, string) -> Option<string>)
    requires PlainToken(a) && PlainToken(b) && TransitionTarget(a, b, applySan).Some?
    requires !StartsWith(Strip(position), "=")
    ensures var loaded := ParseV4(["v4.0", "=", a + " -> " + b], applySan);
      loaded.Ok? && loaded.value.title == "" && |loaded.value.edges| == 1 &&
      var out := ExportFileAsWritten("", [position], loaded.value.edges, legalMoves);
      out.Ok? && ParseV4(out.value, applySan) == Err(MissingTitle)
  {
    EmptyTitleFileLoads(a, b, applySan);
    EmptyTitleExportRejected([position], ParseV4(["v4.0", "=", a + " -> " + b], applySan).value.edges, legalMoves, applySan);
  }

  /** "v4.0", "=", "a -> b" loads with the empty title and the one transition. */
  lemma EmptyTitleFileLoads(a: string, b: string, applySan: (string, string) -> Option<string>)
    requires PlainToken(a) && PlainToken(b) && TransitionTarget(a, b, applySan).Some?
    ensures var loaded := ParseV4(["v4.0", "=", a + " -> " + b], applySan);
      loaded.Ok? && loaded.value.title == "" && |loaded.value.edges| == 1
  {
    var line := a + " -> " + b;
    assert ["v4.0", "=", line] == ["v4.0", "="] + [line];
    BareTitleLoads([line], applySan);
    OneTransitionRun(a, b, applySan);
  }

  /** A bare "=" title line loads as the empty title, whatever follows it. */
  lemma BareTitleLoads(body: seq<string>, applySan: (string, string) -> Option<string>)
    ensures var acc := Run(ParseStep(applySan), EMPTY, body, 3);
      ParseV4(["v4.0", "="] + body, applySan) == Ok(Opening(acc.states, acc.edges, "", acc.warnings))
  {
    var lines := ["v4.0", "="] + body;
    StripIsIdentity("v4.0");
    StripIsIdentity("=");
    assert Strip("=")[1..] == "";
    assert lines[0] == "v4.0" && lines[1] == "=";
    assert lines[2..] == body;
  }

  /** One transition line that can be followed adds one edge. */
  lemma OneTransitionRun(a: string, b: string, applySan: (string, string) -> Option<string>)
    requires PlainToken(a) && PlainToken(b) && TransitionTarget(a, b, applySan).Some?
    ensures |Run(ParseStep(applySan), EMPTY, [a + " -> " + b], 3).edges| == 1
  {
    var line := a + " -> " + b;
    ArrowLineReads(a, b);
    RunSnoc(ParseStep(applySan), EMPTY, [], line, 3);
    assert [] + [line] == [line];
    FollowedTransitionAddsEdge(EMPTY, a, b, 3, applySan);
  }

  /** A transition whose target can be found adds exactly one edge. */
  lemma FollowedTransitionAddsEdge(acc: Acc, fromState: string, toPart: string, lineNo: nat,
                                   applySan: (string, string) -> Option<string>)
    requires TransitionTarget(fromState, toPart, applySan).Some?
    ensures |StepKind(acc, Transition(fromState, toPart), lineNo, applySan).edges| == |acc.edges| + 1
  {
  }

  /**
   * The file "v4.0", "=", "start -> e4" meets the conditions above when e4 can be
   * played from the initial position, and the position line written for "start"
   * does not start with "=".
   */
  lemma StartE4Tokens(coords: string, applySan: (string, string) -> Option<string>)
    requires applySan(START_FEN, "e4").Some?
    ensures PlainToken("start") && PlainToken("e4") && TransitionTarget("start", "e4", applySan).Some?
    ensures !StartsWith(Strip("start : " + coords), "=")
  {
    PlainWord("start");
    PlainWord("e4");
    MoveTarget("start", "e4", applySan);
    StartPositionLine(coords);
  }

  /** The position line written for "start" is not a title line. */
  lemma StartPositionLine(coords: string)
    ensures !StartsWith(Strip("start : " + coords), "=")
  {
    var position := "start : " + coords;
    assert position[0] == 's';
    StripKeepsFirst(position);
  }

  /** A move written without '/' and other than "start" is followed with applySan. */
  lemma MoveTarget(fromState: string, move: string, applySan: (string, string) -> Option<string>)
    requires '/' !in move && move != "start"
    requires applySan(StateToFen(fromState), move).Some?
    ensures TransitionTarget(fromState, move, applySan).Some?
  {
    ContainsChar(move, '/');
  }

  /** A word of letters and digits is a plain token. */
  lemma PlainWord(w: string)
    requires w != "" && forall i :: 0 <= i < |w| ==> 'a' <= w[i] <= 'z' || '0' <= w[i] <= '9'
    ensures PlainToken(w)
  {
    StripIsIdentity(w);
    NoDashNoArrow(w);
    assert w[..1][0] == w[0];
  }

  /** The header with the title line the format requires, written for every title. */
  function Header(title: string): seq<string> {
    ["v4.0", "= " + title]
  }

  /** Whatever follows it, the corrected header loads and gives back a stripped title. */
  lemma HeaderRoundTrip(title: string, body: seq<string>, applySan: (string, string) -> Option<string>)
    requires IsStripped(title)
    ensures var acc := Run(ParseStep(applySan), EMPTY, body, 3);
      ParseV4(Header(title) + body, applySan) == Ok(Opening(acc.states, acc.edges, title, acc.warnings))
  {
    var lines := Header(title) + body;
    StripIsIdentity("v4.0");
    TitleLineReads(title);
    assert lines[0] == "v4.0" && lines[1] == "= " + title;
    assert lines[2..] == body;
  }

  /**
   * The rewritten file with the corrected header: its title line always starts
   * with "=" and reads back as a stripped title.
   */
  function ExportFile(title: string, positionLines: seq<string>, edges: seq<Edge>,
                      legalMoves: string -> seq<(string, string)>): (r: seq<string>)
    ensures |r| >= 2 && r[0] == "v4.0"
    ensures IsStripped(title) ==> StartsWith(Strip(r[1]), "=") && Strip(Strip(r[1])[1..]) == title
  {
    TitleLineReadsIf(title);
    Header(title) + (positionLines + TransitionLines(edges, legalMoves))
  }

  lemma TitleLineReadsIf(title: string)
    ensures IsStripped(title) ==> StartsWith(Strip("= " + title), "=") && Strip(Strip("= " + title)[1..]) == title
  {
    if IsStripped(title) {
      TitleLineReads(title);
    }
  }

  // ---------------------------------------------------------------------------
  // Reading the rewritten file back

  /** A written comment line reads back as its text. */
  lemma CommentLineReads(text: string)
    requires IsStripped(text) && text != ""
    ensures ClassifyLine("# " + text) == Comment(text)
  {
    var line := "# " + text;
    assert line[0] == '#' && line[|line| - 1] == text[|text| - 1];
    StripIsIdentity(line);
    assert line[1..] == " " + text;
    StripLeadingSpace(text);
  }

  /** A written transition line reads back as the two tokens it joins. */
  lemma ArrowLineReads(a: string, b: string)
    requires PlainToken(a) && PlainToken(b)
    ensures ClassifyLine(a + " -> " + b) == Transition(a, b)
  {
    ArrowLineSplits(a, b);
  }

  /**
   * The oracles agree: playing the SAN of a legal move gives the FEN listed with it,
   * and every such FEN has six fields.
   */
  ghost predicate MovesAgree(applySan: (string, string) -> Option<string>, legalMoves: string -> seq<(string, string)>) {
    forall fen: string, k: int :: 0 <= k < |legalMoves(fen)| ==>
      applySan(fen, legalMoves(fen)[k].0) == Some(legalMoves(fen)[k].1) && |Fields(legalMoves(fen)[k].1)| == 6
  }

  /** A move was found for the edge (and it is not empty). */
  predicate MoveFound(e: Edge, legalMoves: string -> seq<(string, string)>) {
    var found := FirstMatch(legalMoves(StateToFen(e.fullFrom)), FenKey(StateToFen(e.to)));
    found.Some? && found.value != ""
  }

  /**
   * What the writer needs of an edge for its lines to read back: a normalised edge
   * with a stripped annotation; with a move found, a plain source FEN and move and a
   * six-field target other than the initial position; otherwise plain endpoints
   * whose target is in the legacy form.
   */
  predicate Exportable(e: Edge, legalMoves: string -> seq<(string, string)>) {
    EdgeNormalized(e) && IsStripped(e.annotation) &&
    if MoveFound(e, legalMoves) then
      var move := FirstMatch(legalMoves(StateToFen(e.fullFrom)), FenKey(StateToFen(e.to))).value;
      PlainToken(e.fullFrom) && PlainToken(move) && !IsLegacyTarget(move) &&
      |Fields(e.to)| == 6 && FenKey(e.to) != START_FEN
    else
      PlainToken(e.from) && PlainToken(e.to) && IsLegacyTarget(e.to)
  }

  /**
   * The edge that reading an edge's lines gives back: the same edge when a move was
   * found; otherwise the FEN kept for export is the normalised from key, so an
   * en-passant target is lost.
   */
  function ReadBack(e: Edge, legalMoves: string -> seq<(string, string)>): (r: Edge)
    ensures r.from == e.from && r.to == e.to && r.annotation == e.annotation
    ensures MoveFound(e, legalMoves) ==> r == e
    ensures !MoveFound(e, legalMoves) ==> r.fullFrom == e.from
  {
    if MoveFound(e, legalMoves) then e else e.(fullFrom := e.from)
  }

  function ReadBackAll(edges: seq<Edge>, legalMoves: string -> seq<(string, string)>): (r: seq<Edge>)
    ensures |r| == |edges|
  {
    if edges == [] then []
    else ReadBackAll(edges[..|edges| - 1], legalMoves) + [ReadBack(edges[|edges| - 1], legalMoves)]
  }

  /** Where the written transition line of an exportable edge leads when read back. */
  lemma WrittenTransitionReads(e: Edge, legalMoves: string -> seq<(string, string)>, applySan: (string, string) -> Option<string>)
    requires MovesAgree(applySan, legalMoves) && Exportable(e, legalMoves)
    ensures ClassifyLine(TransitionLine(e, legalMoves)).Transition?
    ensures ClassifyLine(TransitionLine(e, legalMoves)).fromState == ReadBack(e, legalMoves).fullFrom
    ensures NormalizeFen(ReadBack(e, legalMoves).fullFrom) == e.from
    ensures TransitionTarget(ClassifyLine(TransitionLine(e, legalMoves)).fromState,
                             ClassifyLine(TransitionLine(e, legalMoves)).toPart, applySan) == Some(e.to)
  {
    if MoveFound(e, legalMoves) {
      var move := FirstMatch(legalMoves(StateToFen(e.fullFrom)), FenKey(StateToFen(e.to))).value;
      assert TransitionLine(e, legalMoves) == e.fullFrom + " -> " + move;
      ArrowLineReads(e.fullFrom, move);
      FoundMoveReaches(e, legalMoves, applySan);
    } else {
      ArrowLineReads(e.from, e.to);
    }
  }

  /** Replaying the move found for an exportable edge leads back to the edge's target. */
  lemma FoundMoveReaches(e: Edge, legalMoves: string -> seq<(string, string)>, applySan: (string, string) -> Option<string>)
    requires MovesAgree(applySan, legalMoves) && Exportable(e, legalMoves) && MoveFound(e, legalMoves)
    ensures var move := FirstMatch(legalMoves(StateToFen(e.fullFrom)), FenKey(StateToFen(e.to))).value;
      TransitionTarget(e.fullFrom, move, applySan) == Some(e.to) && NormalizeFen(e.fullFrom) == e.from
  {
    var fromFen := StateToFen(e.fullFrom);
    var moves := legalMoves(fromFen);
    var key := FenKey(StateToFen(e.to));
    var move := FirstMatch(moves, key).value;
    FirstMatchMeaning(moves, key);
    var i :| 0 <= i < |moves| && moves[i].0 == move && FenKey(moves[i].1) == key &&
             forall j :: 0 <= j < i ==> FenKey(moves[j].1) != key;
    var res := moves[i].1;
    assert applySan(fromFen, move) == Some(res) && |Fields(res)| == 6;
    FenKeyOfStateToFen(e.to);
    FenKeyOfStart();
    assert res != START_FEN;
    FenKeyAgreesWithNormalize(res);
    FenKeyAgreesWithNormalize(e.to);
  }

  /** The parser reads each of the position definitions `positionLines` as dropping the pending comments. */
  lemma ParseStepSkipsPositions(positionLines: seq<string>, applySan: (string, string) -> Option<string>)
    requires forall k :: 0 <= k < |positionLines| ==> ClassifyLine(positionLines[k]) == PositionDef
    ensures forall a: Acc, k: int, n: nat :: 0 <= k < |positionLines| ==>
      ParseStep(applySan)(a, positionLines[k], n) == a.(pending := [])
  {
    forall a: Acc, k: int, n: nat | 0 <= k < |positionLines|
      ensures ParseStep(applySan)(a, positionLines[k], n) == a.(pending := [])
    {
      ParseStepIs(a, positionLines[k], n, applySan);
    }
  }

  /** The lines written for one exportable edge read back as that edge's read-back form. */
  lemma EdgeLinesReadBack(step: (Acc, string, nat) -> Acc, acc: Acc, e: Edge, legalMoves: string -> seq<(string, string)>,
                          first: nat)
    requires ReadsWrittenLines(step, legalMoves)
    requires acc.pending == []
    requires Exportable(e, legalMoves)
    ensures Run(step, acc, EdgeLines(e, legalMoves), first) ==
      Acc(acc.states + {e.from, e.to}, acc.edges + [ReadBack(e, legalMoves)], [], acc.warnings)
  {
    var t := TransitionLine(e, legalMoves);
    if e.annotation != "" {
      var c := CommentLine(e.annotation);
      assert EdgeLines(e, legalMoves) == [c] + [t];
      RunSnoc(step, acc, [], c, first);
      assert [] + [c] == [c];
      RunSnoc(step, acc, [c], t, first);
      assert IsStripped(e.annotation);
      assert step(acc, c, first) == acc.(pending := [e.annotation]);
    } else {
      assert EdgeLines(e, legalMoves) == [] + [t];
      RunSnoc(step, acc, [], t, first);
    }
  }

  /** The parser reads a written comment line as its text added to the pending comments. */
  lemma CommentStep(acc: Acc, text: string, n: nat, applySan: (string, string) -> Option<string>)
    requires IsStripped(text) && text != ""
    ensures ParseStep(applySan)(acc, CommentLine(text), n) == acc.(pending := acc.pending + [text])
  {
    CommentLineReads(text);
    assert ParseStep(applySan)(acc, CommentLine(text), n) == StepKind(acc, Comment(text), n, applySan);
  }

  /** The parser reads a written transition line, with its annotation pending, as the edge's read-back form. */
  lemma WrittenTransitionStep(acc: Acc, e: Edge, legalMoves: string -> seq<(string, string)>,
                              applySan: (string, string) -> Option<string>, n: nat)
    requires acc.pending == (if e.annotation != "" then [e.annotation] else [])
    requires MovesAgree(applySan, legalMoves) && Exportable(e, legalMoves)
    ensures ParseStep(applySan)(acc, TransitionLine(e, legalMoves), n) ==
      Acc(acc.states + {e.from, e.to}, acc.edges + [ReadBack(e, legalMoves)], [], acc.warnings)
  {
    WrittenTransitionReads(e, legalMoves, applySan);
    var t := TransitionLine(e, legalMoves);
    ParseStepIs(acc, t, n, applySan);
    TransitionKindReads(acc, ClassifyLine(t), e, legalMoves, applySan, n);
  }

  /** A transition whose source reads back and whose target is the edge's adds the read-back edge. */
  lemma TransitionKindReads(acc: Acc, kind: LineKind, e: Edge, legalMoves: string -> seq<(string, string)>,
                            applySan: (string, string) -> Option<string>, n: nat)
    requires acc.pending == (if e.annotation != "" then [e.annotation] else [])
    requires kind.Transition? && kind.fromState == ReadBack(e, legalMoves).fullFrom
    requires NormalizeFen(ReadBack(e, legalMoves).fullFrom) == e.from
    requires TransitionTarget(kind.fromState, kind.toPart, applySan) == Some(e.to)
    ensures StepKind(acc, kind, n, applySan) ==
      Acc(acc.states + {e.from, e.to}, acc.edges + [ReadBack(e, legalMoves)], [], acc.warnings)
  {
    assert Join(" ", acc.pending) == e.annotation;
  }

  lemma LastSplit<T>(s: seq<T>)
    requires s != []
    ensures s == s[..|s| - 1] + [s[|s| - 1]]
  {
  }

  /** Running two blocks of lines one after the other. */
  lemma {:induction false} RunAppend(step: (Acc, string, nat) -> Acc, acc: Acc, a: seq<string>, b: seq<string>, first: nat)
    ensures Run(step, acc, a + b, first) == Run(step, Run(step, acc, a, first), b, first + |a|)
    decreases |b|
  {
    if b == [] {
      assert a + b == a;
    } else {
      var init := b[..|b| - 1];
      assert (a + b)[..|a + b| - 1] == a + init;
      RunAppend(step, acc, a, init, first);
    }
  }

  /** `step` reads the lines of every exportable edge back as EdgeLinesReadBack says. */
  ghost predicate ReadsEdgesBack(step: (Acc, string, nat) -> Acc, legalMoves: string -> seq<(string, string)>) {
    forall acc: Acc, e: Edge, first: nat {:trigger Run(step, acc, EdgeLines(e, legalMoves), first)} ::
      acc.pending == [] && Exportable(e, legalMoves) ==>
      Run(step, acc, EdgeLines(e, legalMoves), first) ==
        Acc(acc.states + {e.from, e.to}, acc.edges + [ReadBack(e, legalMoves)], [], acc.warnings)
  }

  lemma ParseStepReadsEdgesBack(legalMoves: string -> seq<(string, string)>, applySan: (string, string) -> Option<string>)
    requires MovesAgree(applySan, legalMoves)
    ensures ReadsEdgesBack(ParseStep(applySan), legalMoves)
  {
    ParseStepReadsWrittenLines(legalMoves, applySan);
    forall acc: Acc, e: Edge, first: nat | acc.pending == [] && Exportable(e, legalMoves)
      ensures Run(ParseStep(applySan), acc, EdgeLines(e, legalMoves), first) ==
        Acc(acc.states + {e.from, e.to}, acc.edges + [ReadBack(e, legalMoves)], [], acc.warnings)
    {
      EdgeLinesReadBack(ParseStep(applySan), acc, e, legalMoves, first);
    }
  }

  /**
   * `step` reads a written comment line as its text added to the pending comments,
   * and a written transition line, with its annotation pending, as the edge's
   * read-back form.
   */
  ghost predicate ReadsWrittenLines(step: (Acc, string, nat) -> Acc, legalMoves: string -> seq<(string, string)>) {
    (forall acc: Acc, text: string, n: nat {:trigger step(acc, CommentLine(text), n)} ::
       IsStripped(text) && text != "" ==> step(acc, CommentLine(text), n) == acc.(pending := acc.pending + [text])) &&
    (forall acc: Acc, e: Edge, n: nat {:trigger step(acc, TransitionLine(e, legalMoves), n)} ::
       acc.pending == (if e.annotation != "" then [e.annotation] else []) && Exportable(e, legalMoves) ==>
       step(acc, TransitionLine(e, legalMoves), n) ==
         Acc(acc.states + {e.from, e.to}, acc.edges + [ReadBack(e, legalMoves)], [], acc.warnings))
  }

  lemma ParseStepReadsWrittenLines(legalMoves: string -> seq<(string, string)>, applySan: (string, string) -> Option<string>)
    requires MovesAgree(applySan, legalMoves)
    ensures ReadsWrittenLines(ParseStep(applySan), legalMoves)
  {
    forall acc: Acc, text: string, n: nat | IsStripped(text) && text != ""
      ensures ParseStep(applySan)(acc, CommentLine(text), n) == acc.(pending := acc.pending + [text])
    {
      CommentStep(acc, text, n, applySan);
    }
    forall acc: Acc, e: Edge, n: nat |
      acc.pending == (if e.annotation != "" then [e.annotation] else []) && Exportable(e, legalMoves)
      ensures ParseStep(applySan)(acc, TransitionLine(e, legalMoves), n) ==
         Acc(acc.states + {e.from, e.to}, acc.edges + [ReadBack(e, legalMoves)], [], acc.warnings)
    {
      WrittenTransitionStep(acc, e, legalMoves, applySan, n);
    }
  }

  /** The transition section of the rewritten file reads back edge by edge. */
  lemma {:induction false} TransitionLinesReadBack(step: (Acc, string, nat) -> Acc, acc: Acc, edges: seq<Edge>,
                                                   legalMoves: string -> seq<(string, string)>, first: nat)
    requires ReadsEdgesBack(step, legalMoves)
    requires acc.pending == []
    requires forall k :: 0 <= k < |edges| ==> Exportable(edges[k], legalMoves)
    ensures Run(step, acc, TransitionLines(edges, legalMoves), first) ==
      Acc(acc.states + Endpoints(edges), acc.edges + ReadBackAll(edges, legalMoves), [], acc.warnings)
    decreases |edges|
  {
    if edges == [] {
      assert acc.states + {} == acc.states && acc.edges + [] == acc.edges;
    } else {
      var init := edges[..|edges| - 1];
      var last := edges[|edges| - 1];
      assert forall k :: 0 <= k < |init| ==> init[k] == edges[k];
      TransitionLinesReadBack(step, acc, init, legalMoves, first);
      TransitionLinesSnocReadBack(step, acc, init, last, legalMoves, first);
      LastSplit(edges);
    }
  }

  /** One more exportable edge adds its read-back form to what the earlier ones gave. */
  lemma TransitionLinesSnocReadBack(step: (Acc, string, nat) -> Acc, acc: Acc, init: seq<Edge>, last: Edge,
                                    legalMoves: string -> seq<(string, string)>, first: nat)
    requires ReadsEdgesBack(step, legalMoves)
    requires acc.pending == [] && Exportable(last, legalMoves)
    requires Run(step, acc, TransitionLines(init, legalMoves), first) ==
      Acc(acc.states + Endpoints(init), acc.edges + ReadBackAll(init, legalMoves), [], acc.warnings)
    ensures Run(step, acc, TransitionLines(init + [last], legalMoves), first) ==
      Acc(acc.states + Endpoints(init + [last]), acc.edges + ReadBackAll(init + [last], legalMoves), [], acc.warnings)
  {
    var head := TransitionLines(init, legalMoves);
    var mid := Run(step, acc, head, first);
    var r := Run(step, mid, EdgeLines(last, legalMoves), first + |head|);
    assert Run(step, acc, TransitionLines(init + [last], legalMoves), first) == r by {
      EdgeListSnoc(init, last, legalMoves);
      RunAppend(step, acc, head, EdgeLines(last, legalMoves), first);
    }
    assert r == Acc(mid.states + {last.from, last.to}, mid.edges + [ReadBack(last, legalMoves)], [], mid.warnings);
    assert mid.states + {last.from, last.to} == acc.states + Endpoints(init + [last]) &&
           mid.edges + [ReadBack(last, legalMoves)] == acc.edges + ReadBackAll(init + [last], legalMoves) by {
      EdgeListSnoc(init, last, legalMoves);
      AppendAssoc(acc.edges, ReadBackAll(init, legalMoves), [ReadBack(last, legalMoves)]);
    }
  }

  /** The snoc equations of the edge-list folds. */
  lemma EdgeListSnoc(init: seq<Edge>, last: Edge, legalMoves: string -> seq<(string, string)>)
    ensures TransitionLines(init + [last], legalMoves) == TransitionLines(init, legalMoves) + EdgeLines(last, legalMoves)
    ensures ReadBackAll(init + [last], legalMoves) == ReadBackAll(init, legalMoves) + [ReadBack(last, legalMoves)]
    ensures Endpoints(init + [last]) == Endpoints(init) + {last.from, last.to}
  {
    assert (init + [last])[..|init|] == init;
  }

  /** Lines that each drop the pending comments leave a parser with none unchanged. */
  lemma {:induction false} PositionLinesIgnored(step: (Acc, string, nat) -> Acc, acc: Acc, positionLines: seq<string>, first: nat)
    requires forall a: Acc, k: int, n: nat :: 0 <= k < |positionLines| ==> step(a, positionLines[k], n) == a.(pending := [])
    requires acc.pending == []
    ensures Run(step, acc, positionLines, first) == acc
    decreases |positionLines|
  {
    if positionLines != [] {
      var init := positionLines[..|positionLines| - 1];
      assert forall k :: 0 <= k < |init| ==> init[k] == positionLines[k];
      PositionLinesIgnored(step, acc, init, first);
      assert step(acc, positionLines[|positionLines| - 1], first + |positionLines| - 1) == acc.(pending := []);
    }
  }

  /**
   * Writing an opening and loading the result gives back its title, its graph over
   * the same nodes and edges (up to the export FEN of edges written in the legacy
   * form), and no warnings.
   */
  lemma ExportedFileReloads(title: string, positionLines: seq<string>, edges: seq<Edge>,
                            legalMoves: string -> seq<(string, string)>, applySan: (string, string) -> Option<string>)
    requires IsStripped(title)
    requires forall k :: 0 <= k < |positionLines| ==> ClassifyLine(positionLines[k]) == PositionDef
    requires MovesAgree(applySan, legalMoves)
    requires forall k :: 0 <= k < |edges| ==> Exportable(edges[k], legalMoves)
    ensures ParseV4(ExportFile(title, positionLines, edges, legalMoves), applySan) ==
      Ok(Opening(Endpoints(edges), ReadBackAll(edges, legalMoves), title, []))
  {
    var body := positionLines + TransitionLines(edges, legalMoves);
    var acc := Run(ParseStep(applySan), EMPTY, body, 3);
    assert acc == Acc(Endpoints(edges), ReadBackAll(edges, legalMoves), [], []) by {
      ParseStepSkipsPositions(positionLines, applySan);
      ParseStepReadsEdgesBack(legalMoves, applySan);
      BodyReadsBack(ParseStep(applySan), positionLines, edges, legalMoves);
    }
    assert ParseV4(Header(title) + body, applySan) == Ok(Opening(acc.states, acc.edges, title, acc.warnings)) by {
      HeaderRoundTrip(title, body, applySan);
    }
  }

  /** After the header, lines that drop the pending comments and then the transition section read back as the edges. */
  lemma BodyReadsBack(step: (Acc, string, nat) -> Acc, positionLines: seq<string>, edges: seq<Edge>,
                      legalMoves: string -> seq<(string, string)>)
    requires forall a: Acc, k: int, n: nat :: 0 <= k < |positionLines| ==> step(a, positionLines[k], n) == a.(pending := [])
    requires ReadsEdgesBack(step, legalMoves)
    requires forall k :: 0 <= k < |edges| ==> Exportable(edges[k], legalMoves)
    ensures Run(step, EMPTY, positionLines + TransitionLines(edges, legalMoves), 3) ==
      Acc(Endpoints(edges), ReadBackAll(edges, legalMoves), [], [])
  {
    SkipPositionLines(step, positionLines, TransitionLines(edges, legalMoves));
    TransitionsFromEmpty(step, edges, legalMoves, 3 + |positionLines|);
  }

  /** Leading lines that each drop the pending comments do not change what the lines after them give. */
  lemma SkipPositionLines(step: (Acc, string, nat) -> Acc, positionLines: seq<string>, rest: seq<string>)
    requires forall a: Acc, k: int, n: nat :: 0 <= k < |positionLines| ==> step(a, positionLines[k], n) == a.(pending := [])
    ensures Run(step, EMPTY, positionLines + rest, 3) == Run(step, EMPTY, rest, 3 + |positionLines|)
  {
    RunAppend(step, EMPTY, positionLines, rest, 3);
    PositionLinesIgnored(step, EMPTY, positionLines, 3);
  }

  /** The transition section read from scratch gives exactly the read-back graph. */
  lemma TransitionsFromEmpty(step: (Acc, string, nat) -> Acc, edges: seq<Edge>,
                             legalMoves: string -> seq<(string, string)>, first: nat)
    requires ReadsEdgesBack(step, legalMoves)
    requires forall k :: 0 <= k < |edges| ==> Exportable(edges[k], legalMoves)
    ensures Run(step, EMPTY, TransitionLines(edges, legalMoves), first) ==
      Acc(Endpoints(edges), ReadBackAll(edges, legalMoves), [], [])
  {
    TransitionLinesReadBack(step, EMPTY, edges, legalMoves, first);
    assert {} + Endpoints(edges) == Endpoints(edges);
    assert [] + ReadBackAll(edges, legalMoves) == ReadBackAll(edges, legalMoves);
  }
}
