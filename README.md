# Chess-openings file tools, modelled in Dafny

This project models the file-format and position-key logic of five Python tools of
the chess-openings repository:

- `bin/merge.py` reads several v4.0 opening files into maps from
  `(from_state, move)` to an annotation. It unites the maps, combining the
  annotations of a repeated transition, and writes one merged file in a fixed order.
- `bin/evaluate.py` handles v4.0 files and the position keys used to detect
  transpositions:
  - FEN normalisation (`normalize_fen`) and the looser `fen_key`;
  - reading a v4.0 file into a graph of normalised positions;
  - finding the leaf positions;
  - the rewrite that searches the legal moves for the move behind each transition.
- `evaluate.py` is the older v2.0 tool. It decodes the run-length board text of a
  state into a FEN. It also reads a v2.0 file into a graph and rewrites it with
  fresh position lines, keeping the transition lines.
- `generate_positions.py` turns a nibble-packed binary state into the run-length text
  form, and reads a v2.0 file whose states are binary.
- `bin/rebuild_openings_list.py` does four things:
  - takes the title of each opening file;
  - scans the openings directory, refusing a repeated title;
  - builds the `<option>` list of the dropdown;
  - splices that list into an HTML page.

Files are `seq<string>`, one string per line. The HTML page is one string, and the
openings directory is a map from each `.txt` file name to that file's lines.

Each loop of the Python code is a Dafny `method` with a `while` loop. Each method is
proved equal to a specification function: a fold of one-line steps over the lines,
or a snoc-recursive function over the collection. The properties are lemmas about
those functions.

python-chess is not modelled; it appears as two function parameters:
- `applySan(fen, san)` is the FEN after the move, or None when the FEN cannot be
  loaded or the move cannot be parsed or played;
- `legalMoves(fen)` lists the legal moves in generation order, each with its SAN and
  resulting FEN.

Base64 decoding is a parameter `decode: string -> Option<seq<byte>>`.

Modules, one per file:
- `Wrappers` holds Option and Result.
- `Text` models the Python string operations the tools use:
  - `strip`;
  - `find`;
  - `in`;
  - `split`, `split(sep, 1)`;
  - `join`;
  - code-point `<`;
  - `sorted` on a set of names.
- `Fen` models the FEN helpers of `bin/evaluate.py`.
- `EvaluateV4`, `Merge`, `LegacyEvaluate`, `GeneratePositions` and `OpeningsList`
  each model one tool.

Two places where the model follows the code rather than what a reader might expect:

- In `bin/merge.py` the test for a position definition, "holds ':' but no '->'",
  comes before the comment test. A comment such as `# Najdorf: main line` is
  therefore dropped, not collected (`Merge.ColonCommentDropped`).
- In `bin/evaluate.py` a bare `=` title line loads as the empty title. The rewrite
  then omits the title line, so the rewritten file no longer loads
  (`EvaluateV4.ExportFileAsWritten`). This is listed under Findings; the rest of the
  model uses the corrected writer `EvaluateV4.ExportFile`.

## Model

| member | source | states |
|---|---|---|
| Fen.NormalizeFen | bin/evaluate.py:76-86 | "start" is kept. A six-field FEN keeps its first three fields and gets "-", "0", "1" as fields 4-6. Any other string is returned unchanged. |
| Fen.NormalizeIdempotent | bin/evaluate.py:76-86 | Normalising twice is normalising once. |
| Fen.NormalizeSamePosition | bin/evaluate.py:80-86 | Two six-field FENs normalise equal exactly when they agree on placement, side to move and castling; en passant and the counters do not matter. |
| Fen.FenKey | bin/evaluate.py:97-106 | "start" maps to the standard initial FEN. A string of at least three fields maps to those three fields plus "- 0 1". Anything else is unchanged. |
| Fen.FenKeyAgreesWithNormalize | bin/evaluate.py:76-106 | On six-field FENs fen_key and normalize_fen coincide. |
| Fen.FenKeyOfStart | bin/evaluate.py:97-100 | "start" and the initial FEN have the same key, the initial FEN itself. |
| Fen.FenKeyIdempotent | bin/evaluate.py:97-106 | The key of a key is the key. |
| Fen.FenKeySamePosition | bin/evaluate.py:102-105 | Two non-"start" strings of at least three fields share a key exactly when their first three fields agree. |
| Fen.FenKeyOfStateToFen | bin/evaluate.py:89-106 | Expanding "start" with state_to_fen does not change the key of a state. |
| Fen.FieldsOfJoin | bin/evaluate.py:80-85 | Splitting a space-join of space-free fields at ' ' gives those fields back. |
| EvaluateV4.LoadV4 | bin/evaluate.py:235-336 | The line loop, filling edges, states, pending comments and warnings in place, returns exactly ParseV4. |
| EvaluateV4.HandleLine | bin/evaluate.py:256-336 | One pass of the loop body equals the line step. |
| EvaluateV4.ReadLine | bin/evaluate.py:257-295 | The tests of the loop body classify a line as blank, comment, position definition, malformed or transition. |
| EvaluateV4.HandleKind | bin/evaluate.py:262-336 | What the loop body does with a line of each kind, as the line step says. |
| EvaluateV4.LoadHeader | bin/evaluate.py:235-249 | A file loads exactly when line 1 strips to "v4.0" and line 2 starts with "=". "No version header" means no line at all, or line 1 not starting with "v". The title is line 2 after "=", trimmed. |
| EvaluateV4.LoadedGraphWellFormed | bin/evaluate.py:252-336 | The nodes of a loaded file are exactly the endpoints of its edges. Every edge's ends are fixed points of normalize_fen, and its source is the normalised fourth field. |
| EvaluateV4.RunKeepsNodesAreEndpoints | bin/evaluate.py:256-336 | The line loop keeps "nodes are the edge endpoints". |
| EvaluateV4.RunKeepsEdgesNormalized | bin/evaluate.py:256-336 | The line loop keeps every edge normalised. |
| EvaluateV4.ClassifyLine | bin/evaluate.py:257-295 | A line is blank exactly when it strips to nothing. A transition's two sides are stripped and hold no "->", because a line with more than one arrow is malformed. |
| EvaluateV4.StepKind | bin/evaluate.py:256-336 | One line never removes a node, an edge or a warning. It adds at most one edge and one warning. Any line other than a blank or a comment clears the pending comments. |
| EvaluateV4.ParseV4 | bin/evaluate.py:235-336 | A loaded title is stripped. |
| EvaluateV4.CommentsAccumulate | bin/evaluate.py:257-266 | A run of blank and comment lines only appends its non-empty comment texts to whatever comments are already pending. |
| EvaluateV4.CommentsAnnotateNextTransition | bin/evaluate.py:257-310 | After any blank and comment lines, a transition is annotated with the comments already pending followed by the new comment texts, joined by single spaces. The pending list is then empty. The transition adds an edge exactly when its target can be found; otherwise the edges are unchanged. The new edge keeps the from_state as written. |
| EvaluateV4.OtherLinesDropComments | bin/evaluate.py:270-292 | Position definitions and malformed lines clear the pending comments and add no edge. Only a malformed line adds a warning, with its line number. |
| EvaluateV4.LegacyTranspositionsMerge | bin/evaluate.py:302-310 | Two legacy transitions into six-field FENs reach the same node exactly when the FENs agree on their first three fields. |
| EvaluateV4.MoveTranspositionsMerge | bin/evaluate.py:312-333 | Two moves reach the same node exactly when their resulting FENs agree on the first three fields. This holds when the resulting FENs have six fields and neither is the initial FEN. |
| EvaluateV4.StartNodeRecognisedVerbatim | bin/evaluate.py:302-324 | The node "start" is reached only by the literal legacy token, or by a move whose result is character for character the initial FEN. |
| EvaluateV4.FindLeafNodes | bin/evaluate.py:109-128 | The loop returns the edge endpoints minus the edge sources. |
| EvaluateV4.LeavesAreDeadEnds | bin/evaluate.py:124-126 | A leaf is the target of some edge and the source of none, and every such position is a leaf. |
| EvaluateV4.FirstMatchMeaning | bin/evaluate.py:517-527 | The search finds nothing exactly when no legal move reaches the target key. Otherwise it returns the SAN of the first legal move, in generation order, that reaches it. |
| EvaluateV4.FirstMatchFrom | bin/evaluate.py:520-527 | The same, for the moves from a given index on. |
| EvaluateV4.FindMove | bin/evaluate.py:515-527 | The loop over the legal moves returns the first match. |
| EvaluateV4.WriteTransitions | bin/evaluate.py:497-539 | The transition-line loop writes, per edge in order, "# a" for a non-empty annotation and then the transition line. |
| EvaluateV4.WriteEdge | bin/evaluate.py:506-539 | The lines of one edge. |
| EvaluateV4.WriteTransitionLine | bin/evaluate.py:510-539 | The line is "full_from -> SAN" when a non-empty move is found; otherwise it is the legacy "from -> to". |
| EvaluateV4.ExportFileAsWritten | bin/evaluate.py:470-551 | The file as update_file_with_positions writes it. It fails exactly when there are no positions, because max() of an empty list stops the program. Otherwise it starts with "v4.0". With a title it is the corrected file; with the empty title the position and transition lines follow "v4.0" directly. |
| EvaluateV4.EmptyTitleExportRejected | bin/evaluate.py:543-545 | With the empty title and at least one position line, which does not start with "=", the file is written but fails to load with the missing-title error. |
| EvaluateV4.EmptyTitleRewriteRejected | bin/evaluate.py:245-249 | "v4.0", "=", "a -> b" with a followable transition loads with the empty title and one edge. Its as-written rewrite, with one position line, is written but then fails to load with the missing-title error. |
| EvaluateV4.StartE4Tokens | bin/evaluate.py:245-249 | "v4.0", "=", "start -> e4" meets the conditions of the rewrite failure whenever e4 can be played from the initial position. |
| EvaluateV4.ExportFile | bin/evaluate.py:541-551 | The corrected file starts with "v4.0". For a stripped title, its second line is a title line that reads back as that title. |
| EvaluateV4.HeaderRoundTrip | bin/evaluate.py:543-545 | The corrected header, always with "= title", loads with the same stripped title whatever body follows it. |
| EvaluateV4.CommentLineReads | bin/evaluate.py:262-266 | A written comment line "# a" reads back as the comment a. |
| EvaluateV4.ArrowLineReads | bin/evaluate.py:288-295 | A written line "a -> b" of plain tokens reads back as the transition (a, b). |
| EvaluateV4.ReadBack | bin/evaluate.py:529-535 | The edge a written edge reads back as. A found move gives the same edge. The legacy line keeps endpoints and annotation, with the normalised source as fourth field. |
| EvaluateV4.WrittenTransitionReads | bin/evaluate.py:507-535 | A written transition line is a transition. Its source is the read-back fourth field, which normalises to the edge's source, and it leads to the edge's target. |
| EvaluateV4.FoundMoveReaches | bin/evaluate.py:517-531 | Replaying the move the search found leads back to the edge's target node. |
| EvaluateV4.EdgeLinesReadBack | bin/evaluate.py:506-539 | The lines written for one edge read back as that edge. |
| EvaluateV4.TransitionLinesReadBack | bin/evaluate.py:497-539 | The whole transition section reads back edge by edge, in order. |
| EvaluateV4.ExportedFileReloads | bin/evaluate.py:541-551 | The round trip of the rewrite: the file with a corrected header, position lines and transition section reloads with the same title, the same nodes, the read-back edges and no warnings. |
| EvaluateV4.BodyReadsBack | bin/evaluate.py:546-551 | Position lines followed by the transition section read back as the edges. |
| Merge.ParseOpeningFile | bin/merge.py:18-80 | A warning exactly when the file is empty or line 1 does not start with "v4.". Then there is no title and no transitions. Any title is stripped. |
| Merge.TitleOf | bin/merge.py:40-42 | Any title found is stripped, so it can be written back as it is. |
| Merge.LoadOpeningFile | bin/merge.py:26-80 | The method with its line loop returns exactly ParseOpeningFile. |
| Merge.ReadBody | bin/merge.py:45-78 | The loop from line 3 on fills the transitions map as the fold of the line step. |
| Merge.HandleLine | bin/merge.py:49-78 | One pass of the loop body equals the line step. |
| Merge.ColonCommentDropped | bin/merge.py:55-62 | A comment holding ':' but no "->" is taken for a position definition and changes nothing. |
| Merge.CommentTextsNonEmpty | bin/merge.py:60-62 | Only non-empty comment texts are collected. |
| Merge.CommentsAccumulate | bin/merge.py:49-62 | A run of lines other than transitions only appends its non-empty comment texts to whatever annotation is already pending. |
| Merge.CommentsAnnotateNextArrow | bin/merge.py:49-78 | After any lines other than transitions, the pending annotation followed by the new comment texts, joined with single spaces, becomes the annotation of the next transition. The buffer is then reset. |
| Merge.StepKeepsOtherKeys | bin/merge.py:65-78 | A line that is not a transition of a key leaves that key's entry alone. |
| Merge.ReadKeys | bin/merge.py:65-75 | A key is read exactly when some transition line has it, split at the first "->" and trimmed. |
| Merge.LastTransitionWins | bin/merge.py:74-75 | A key written more than once keeps the annotation of its last transition line. |
| Merge.CombineKeepsBoth | bin/merge.py:97-108 | Both annotations survive a merge, and the four cases of the rule hold. |
| Merge.CombineAbsorbs | bin/merge.py:102-104 | Combining the same annotation again changes nothing. |
| Merge.MergeInto | bin/merge.py:96-111 | The keys after one file are the old keys plus the file's keys. |
| Merge.MergeAll | bin/merge.py:93-113 | The merged key set is exactly the union of the inputs' key sets. |
| Merge.MergeIntoSelf | bin/merge.py:97-108 | Merging a map into itself changes nothing. |
| Merge.MergeIntoTwice | bin/merge.py:95-111 | Merging the same file a second time changes nothing. |
| Merge.MergeIntoKeepsText | bin/merge.py:97-111 | Each input annotation occurs in the merged one. |
| Merge.MergeTransitions | bin/merge.py:83-113 | The nested loop filling `merged` returns MergeAll. |
| Merge.MergeFile | bin/merge.py:96-111 | The inner loop over one file returns MergeInto. |
| Merge.MergeKey | bin/merge.py:97-111 | One key taken in: combined when already present, inserted when not. |
| Merge.StateOrder | bin/merge.py:138-139 | The sorted states are exactly the source states, "start" first and the others in ascending order. |
| Merge.WriteOrderCovers | bin/merge.py:134-151 | Every merged transition is written, and nothing else. |
| Merge.WriteOrderSorted | bin/merge.py:138-145 | Each transition is written once: "start" first, then states ascending, then moves ascending within a state. |
| Merge.EntriesOrdered | bin/merge.py:142-145 | The transitions of the listed states come out in write order. |
| Merge.GroupByState | bin/merge.py:134-136 | by_state maps each source state to the set of its moves. |
| Merge.WriteMergedFile | bin/merge.py:116-151 | The file is "v4.0", "= title", then every transition in write order, each preceded by "# a" when its annotation is non-empty. |
| Merge.WriteStates | bin/merge.py:142-151 | The outer loop writes the lines of the listed transitions state by state. |
| Merge.WriteState | bin/merge.py:143-151 | The inner loop appends one state's lines for its sorted moves. |
| Merge.StatesLinesAreBody | bin/merge.py:142-151 | Writing state by state gives the lines of the transitions in listed order. |
| Merge.BlockLines | bin/merge.py:145-151 | The lines of one state's block follow those already written. |
| Merge.EntryAppended | bin/merge.py:147-151 | One entry is the optional comment line followed by the transition line. |
| Merge.EntryReads | bin/merge.py:59-78 | The lines written for a transition read back as that transition with its annotation, leaving nothing pending. |
| Merge.ArrowLineReads | bin/merge.py:65-78 | A written transition line sets its key to the pending annotation. |
| Merge.BodyLinesRead | bin/merge.py:48-78 | Reading the lines of some written transitions gives back exactly those transitions. |
| Merge.HeaderReads | bin/merge.py:34-42 | The written header reads back as its title. The reader then folds over the body. |
| Merge.MergedFileReads | bin/merge.py:116-151 | The round trip: the written file has the title and reads back as exactly the merged transitions, annotations included. |
| Merge.ParsedWritable | bin/merge.py:45-80 | Every transition a file yields can be written and read back: its state is stripped, holds no "->" and does not start with "#"; its move is stripped; its annotation is stripped and, if it holds ':', also holds "->". |
| Merge.CommentTextReadable | bin/merge.py:55-62 | A comment text the reader keeps never holds ':' without "->", since such a line is skipped as a position definition. |
| Merge.ArrowKeyRead | bin/merge.py:64-69 | A key read from a transition line has a stripped state without "->" and without a leading "#", and a stripped move. |
| Merge.JoinReadable | bin/merge.py:72 | Joining kept comment texts with spaces gives a readable annotation. |
| Merge.CombineReadable | bin/merge.py:101-108 | Combining two readable annotations gives a readable annotation. |
| Merge.MergeAllWritable | bin/merge.py:93-113 | Merging writable maps gives a writable map. |
| Merge.MergedWritable | bin/merge.py:184-208 | Whatever files are merged, the merged transitions can be written and read back. |
| Merge.MergedBodyReads | bin/merge.py:141-151 | The transition section of a merged file reads back as the merged map. |
| Merge.ParseAll | bin/merge.py:184-186 | Each input file parsed, in order. |
| Merge.Titles | bin/merge.py:188-189 | The collected titles are the non-empty ones. |
| Merge.FoundTransitions | bin/merge.py:191-192 | The collected maps are the non-empty ones; none is collected exactly when every file has none. |
| Merge.FoundTransitionsKeys | bin/merge.py:184-192 | A key is among the collected maps exactly when some file has it. |
| Merge.CollectNext | bin/merge.py:184-192 | One more file adds its title and its map when they are non-empty. |
| Merge.MergedTitleNamesEach | bin/merge.py:200-203 | Every collected title occurs in the merged title, and no titles give "Merged Opening". The result is stripped, so it is written back unchanged. |
| Merge.MergeFiles | bin/merge.py:174-212 | main fails with "too few files" exactly for fewer than two files. It fails with "no transitions" exactly when no file has any. |
| Merge.MergeFilesOutput | bin/merge.py:199-212 | On success the output is the merged file of the joined title and the merged transitions. |
| Merge.MergeFilesReads | bin/merge.py:199-212 | For any input files for which main succeeds, the output reads back with the merged title and exactly the merged transitions, annotations included. |
| Merge.MergedKeysOfFiles | bin/merge.py:184-208 | The merged transitions are exactly those of the input files. |
| Merge.MergeMain | bin/merge.py:174-212 | The main loop over the files returns MergeFiles. |
| LegacyEvaluate.PieceLetter | evaluate.py:53-56 | A..F give PNBRQK, G..L give pnbrqk, and anything else gives '?'. |
| LegacyEvaluate.SquaresOfOne | evaluate.py:63-69 | A digit d is exactly d empty squares; any other character is one square with its piece letter. |
| LegacyEvaluate.SquaresAppend | evaluate.py:59-70 | Decoding is character by character. |
| LegacyEvaluate.DecodeSquares | evaluate.py:59-70 | The while loop over the encoding returns Squares. |
| LegacyEvaluate.RankCells | evaluate.py:78-80 | Each rank has eight squares; squares past the end of the list are empty. |
| LegacyEvaluate.RankTextReadsBack | evaluate.py:75-91 | Reading a rank's text back, a digit d as d empties, gives exactly its eight squares. |
| LegacyEvaluate.RankTextShape | evaluate.py:75-91 | A rank's text has no two adjacent digits and holds neither '/' nor ' '. |
| LegacyEvaluate.BuildRank | evaluate.py:74-93 | The file loop with rank_str and empty_count returns the rank text. |
| LegacyEvaluate.BoardReadsBack | evaluate.py:72-95 | The placement field is eight ranks joined by '/'. Each rank reads back as its eight squares, empty past the list's end, and has no adjacent digits. |
| LegacyEvaluate.DecodeState | evaluate.py:42-99 | "start[w]" gives the initial FEN. Any other state fails with NoBracket exactly when it holds no '['. It fails with NoTurn exactly when its first '[' is its last character. Otherwise the board before the first '[' and the character after it give the FEN. |
| LegacyEvaluate.DecodedFenFields | evaluate.py:95-99 | A decoded state has six fields: the placement, "w" for 'w' and "b" for any other character, then "- - 0 1". |
| LegacyEvaluate.StateToFen | evaluate.py:42-99 | The method with its decoding loop and nested rank and file loops returns DecodeState. |
| LegacyEvaluate.ParseV2 | evaluate.py:216-264 | The load fails exactly when the file is empty or line 1 does not start with "v". |
| LegacyEvaluate.LoadV2 | evaluate.py:216-264 | The line loop returns exactly ParseV2. |
| LegacyEvaluate.HandleV2Line | evaluate.py:227-264 | One pass of the loop body equals the line step. |
| LegacyEvaluate.ReadV2Line | evaluate.py:228-259 | The tests of the loop body classify a line. |
| LegacyEvaluate.SplitRightSide | evaluate.py:253-259 | The right-hand side is cut at its first ':' into stripped target and annotation. |
| LegacyEvaluate.ColonSplits | evaluate.py:253-256 | A right-hand side whose first ':' follows a given head splits into the stripped head and the stripped rest. |
| LegacyEvaluate.VersionOnlyWarns | evaluate.py:220-222 | A version other than v2.0 does not stop the load; it is the first warning. |
| LegacyEvaluate.RunV2Effect | evaluate.py:227-264 | The loop only appends. Its edges are those of the transition lines in file order, its states exactly their endpoints, and earlier warnings stay. |
| LegacyEvaluate.ParsedV2Graph | evaluate.py:224-264 | The states of a loaded file are exactly the endpoints of its edges, which come from its transition lines. |
| LegacyEvaluate.NonTransitionLines | evaluate.py:234-242 | A line without "->" that holds ':', '[' and ']' is skipped silently. Any other such line adds a malformed-line warning. |
| LegacyEvaluate.AnnotatedTransitionReads | evaluate.py:244-264 | "a -> b : note" reads as the edge (a, b, note), and the note may itself hold ':'. |
| LegacyEvaluate.PlainTransitionReads | evaluate.py:244-264 | "a -> b" without ':' reads as (a, b) with no annotation. |
| LegacyEvaluate.FindLeafNodes | evaluate.py:102-117 | The loop returns the edge endpoints minus the sources. |
| LegacyEvaluate.LeavesAreDeadEnds | evaluate.py:113-115 | A leaf is the target of some edge and the source of none. |
| LegacyEvaluate.RetainedAppend | evaluate.py:357-364 | Retention goes line by line: the kept lines of two joined parts are those of the first part, then those of the second. |
| LegacyEvaluate.UpdatedFile | evaluate.py:343-386 | The rewrite fails with NoVersionHeader exactly when the file is empty or its first line does not start with "v". After a good header it fails with NoPositions exactly when there are no positions, because max() of an empty list stops the program before anything is written. |
| LegacyEvaluate.UpdateFile | evaluate.py:340-386 | The method with its retention loop returns UpdatedFile. |
| LegacyEvaluate.RetainedSameEdges | evaluate.py:357-364 | The kept lines carry the same edges as the whole file body. |
| LegacyEvaluate.UpdateKeepsGraph | evaluate.py:337-386 | Rewriting a loadable file succeeds exactly when there are position lines. With position lines that hold no "->", it keeps the graph: the same edges in order and the same states. |
| GeneratePositions.NibblesShape | generate_positions.py:56-61 | Each byte becomes two squares in 0..15, high nibble first, which pack back to the byte. |
| GeneratePositions.Unpack | generate_positions.py:56-61 | The byte loop returns the nibble list. |
| GeneratePositions.NibbleLetter | generate_positions.py:64-67 | 1..12 give A..L and anything else gives '?'. |
| GeneratePositions.FlushReadsBack | generate_positions.py:78-95 | A flushed run is digits 1..9 only and reads back as exactly that many empty squares. |
| GeneratePositions.FlushEmpties | generate_positions.py:89-95 | The draining while loop appends the flushed run. |
| GeneratePositions.EncodeSquares | generate_positions.py:70-95 | The square loop with its run counter, then the final flush, returns the run-length body. |
| GeneratePositions.EncodeBodyReadsBack | generate_positions.py:57-97 | Reading the body back gives exactly the unpacked squares, with '?' for 13..15. |
| GeneratePositions.DecodedStateMeaning | generate_positions.py:70-97 | A decoded state is the body, twice as many squares as bytes, then "[" + turn + "]". |
| GeneratePositions.StateTextMeaning | generate_positions.py:32-97 | "start[w]", a state with no "[w]"/"[b]" suffix, and one whose base64 does not decode come back unchanged. Otherwise the result keeps the suffix and its body reads back as the unpacked squares. |
| GeneratePositions.BinaryToState | generate_positions.py:32-97 | The method with the byte and square loops returns StateText. |
| GeneratePositions.ClassifyAgrees | generate_positions.py:116-149 | A line is classified as evaluate.py classifies it, endpoints converted, except that position definitions are malformed here. |
| GeneratePositions.MalformedLineWarns | generate_positions.py:122-129 | A line with no "->", or whose split does not give two parts, adds a malformed-line warning and nothing else. |
| GeneratePositions.ParseGraph | generate_positions.py:105-111 | The load fails exactly when the file is empty or line 1 does not start with "v". |
| GeneratePositions.LoadGraph | generate_positions.py:100-152 | The line loop returns ParseGraph. |
| GeneratePositions.HandleLine | generate_positions.py:116-149 | One pass of the loop body equals the line step. |
| GeneratePositions.ReadLine | generate_positions.py:117-145 | The tests of the loop body classify a line and convert its endpoints. |
| GeneratePositions.StepGraphEffect | generate_positions.py:144-149 | One line appends the converted edges it carries and adds their endpoints. |
| GeneratePositions.ParseAgreesWithV2 | generate_positions.py:100-152 | This tool accepts the same files as evaluate.py and finds the same transitions in order, each endpoint converted. Its states are exactly their endpoints. |
| OpeningsList.ParseTitle | bin/rebuild_openings_list.py:19-45 | A title is never empty and always stripped. |
| OpeningsList.TitleOfHeader | bin/rebuild_openings_list.py:30-40 | A file starting "v4.0", "= title" is listed under that title. |
| OpeningsList.ListsMergedFile | bin/rebuild_openings_list.py:30-40 | Every file bin/merge.py writes with a non-empty title is listed under that title. |
| OpeningsList.OptionLines | bin/rebuild_openings_list.py:114-117 | The placeholder first, then one option per opening in order. |
| OpeningsList.GenerateHtmlOptions | bin/rebuild_openings_list.py:101-119 | The append loop and join return HtmlOptions. |
| OpeningsList.HtmlOptionsLines | bin/rebuild_openings_list.py:111-119 | Split at newlines, no openings is the single "-- No Openings Available --" line. n openings are n + 1 lines: the placeholder, then the options in order. |
| OpeningsList.ScanDirectory | bin/rebuild_openings_list.py:48-98 | The method sorts the .txt names and scans them in order: it fails on the first repeated title, and otherwise lists every titled file. |
| OpeningsList.ScanInOrder | bin/rebuild_openings_list.py:75-98 | The loop filling openings and title_to_file returns the scan. |
| OpeningsList.ErrorEndsScan | bin/rebuild_openings_list.py:86-90 | Once a title repeats, the rest of the files change nothing. |
| OpeningsList.ScanMeaning | bin/rebuild_openings_list.py:78-96 | The scan succeeds exactly when no two files share a title. It then lists every titled file in order. |
| OpeningsList.ScanErrorMeaning | bin/rebuild_openings_list.py:86-90 | On a repeated title the scan names that title and two files carrying it, the earlier one first. |
| OpeningsList.ScanDirectoryOrdered | bin/rebuild_openings_list.py:69-96 | A successful scan lists its entries in increasing path order, with no title twice. |
| OpeningsList.ScanDirectorySound | bin/rebuild_openings_list.py:78-96 | Each entry is "openings/" + a file of the directory, under that file's title. |
| OpeningsList.ScanDirectoryComplete | bin/rebuild_openings_list.py:78-96 | Every titled file of the directory is listed. |
| OpeningsList.ScanDirectoryDuplicate | bin/rebuild_openings_list.py:86-90 | A failed scan names two different files of the directory with the same title. |
| OpeningsList.UpdateReportsDropdown | bin/rebuild_openings_list.py:141-154 | The page is rewritten exactly when the start marker, a later '>' and a later "</select>" are all present. Otherwise it is left unchanged and False is reported. |
| OpeningsList.UpdateKeepsSurroundings | bin/rebuild_openings_list.py:141-160 | A rewrite keeps everything up to the '>' closing the start tag, and everything from "</select>" on. Only the middle becomes "\n" + options + "\n" + indent. |
| OpeningsList.UpdateIdempotent | bin/rebuild_openings_list.py:141-160 | Rebuilding twice gives what rebuilding once gave, provided the options hold no "</select>". |
| OpeningsList.RewriteIsFixed | bin/rebuild_openings_list.py:141-160 | A rewritten page keeps the same start marker and '>', and its first "</select>" comes just after the new options. |
| Text.Strip | bin/merge.py:34 | str.strip(): at most as long as the input, with no white space at either end. |
| Text.StripIsIdentity | bin/merge.py:49 | Stripping leaves a string alone exactly when it has no white space at its ends. |
| Text.StripIdempotent | bin/merge.py:42 | Stripping twice is stripping once. |
| Text.FindFrom | bin/rebuild_openings_list.py:141-152 | str.find: -1 or an occurrence at or after the start, with no earlier occurrence from there on. |
| Text.Split | evaluate.py:244 | str.split(sep): the pieces join back to the string, and none holds the separator. |
| Text.SplitOnce | bin/merge.py:66 | str.split(sep, 1): one piece exactly when the separator is absent; otherwise the two pieces around the first occurrence. |
| Text.SplitJoinChar | evaluate.py:95 | Splitting at a character undoes joining with it, when no piece holds that character. |
| Text.JoinStripped | bin/merge.py:200-201 | Joining non-empty stripped parts gives a non-empty stripped string. |
| Text.Sorted | bin/merge.py:139-143 | sorted() on a set of names: the same elements in strictly ascending code-point order. |
| Text.LexLessTotal | bin/merge.py:139 | Code-point order on strings is total. |
| Text.LexLessTransitive | bin/merge.py:139 | Code-point order on strings is transitive. |
| Text.TitleLineReads | bin/merge.py:41-42 | A line "= " + title of a stripped title starts with "=" and reads back as that title. |
| Text.ArrowLineSplits | bin/merge.py:65-69 | A line "a -> b" of plain tokens is already stripped. It splits at its one arrow into "a " and " b", which strip to a and b. |

## Left out

- The chess rules: python-chess is the two parameters `applySan` and `legalMoves`. `EvaluateV4.MovesAgree` states what the export round trip assumes of them: every listed move replays to its listed six-field FEN.
- base64 decoding is the parameter `decode`, following RFC 4648 section 4; the model starts from the decoded bytes.
- Stockfish evaluation (`evaluate_positions`) is left out: it uses an external engine, process spawning and float formatting.
- Graph layout (`compute_layout`, networkx, pygraphviz, pydot), the float coordinates and the Y flip are left out. The position lines the rewrites write are therefore a parameter `positionLines`, one line per laid-out position, so an empty layout is `positionLines == []`. Both rewrites model the failure of max() on an empty layout as an error result (`LegacyEvaluate.UpdatedFile`, `EvaluateV4.ExportFileAsWritten`); that layout is empty exactly when the file has no transitions is not modelled, since the layout is a parameter. The v4.0 round trip requires them to be position definitions; the v2.0 one requires them to hold no "->".
- `build_graph` is not modelled; the graph is the node set and edge list it is built from.
- File, directory and JSON I/O, `argparse` and printing are left out.
  - Files are line sequences; the directory is a map from .txt file name to lines, standing in for `glob('*.txt')`. Whether the directory exists is not modelled.
  - Printed warnings become warning lists in the results when the program carries on. Each `sys.exit` becomes an error result.
- Exceptions while reading a file (`parse_title_from_file`, `update_html_file`) are not modelled; a file is always readable. Raising in `state_to_fen` is the error result `StateError`.
- The main functions of `bin/evaluate.py`, `evaluate.py`, `generate_positions.py` and `bin/rebuild_openings_list.py` chain modelled operations with I/O, layout and engine calls, and are not modelled as wholes. The "no valid opening files" exit of `bin/rebuild_openings_list.py` is not modelled. The `main` of `bin/merge.py` is modelled (`Merge.MergeFiles`).
- Python's `str.isdigit()` also accepts non-ASCII digits; the model takes '0'..'9' only (`Text.IsDigit`).
- Merge.GroupByState: `by_state` is a defaultdict of lists whose order is then sorted away; the model keeps a set of moves per state, so the insertion order of the list is not modelled.
- Merge.MergeTransitions: Python iterates over a dict in insertion order, while the model takes in a file's keys in an unspecified order. Taking in one file's keys commutes, so the result is the same.
- Merge.MergedFileReads: proved for `Writable` maps. The state of each key must be stripped, hold no "->" and not start with '#'. The move must be stripped. The annotation must be stripped and hold "->" whenever it holds ':', because bin/merge.py:55-56 skips a comment line with ':' but no "->". Every map parse_opening_file returns has this form (`Merge.ParsedWritable`), so `Merge.MergeFilesReads` holds for all inputs.
- EvaluateV4.ExportedFileReloads: proved for the corrected header (`EvaluateV4.Header`) and for edges that satisfy `Exportable`, meaning plain tokens with a normalised, six-field, non-initial target when a move is found. An edge whose move is not found reads back with `fullFrom` set to its normalised source, so the en-passant field written for it is lost (`EvaluateV4.ReadBack`).
- EvaluateV4.ExportFile: the corrected writer always writes the file. It does not repeat the failure on an empty layout, which `EvaluateV4.ExportFileAsWritten` models.
- LegacyEvaluate.UpdateKeepsGraph: the warnings of the rewritten file are not compared, since its position lines replace whatever malformed lines the original had.
- OpeningsList.UpdateIdempotent: requires the options to hold no "</select>", which the generated options never do unless a title holds it.

## Findings

| source | as written | input that shows it | evidently intended | confidence | as-written member | corrected member |
|---|---|---|---|---|---|---|
| bin/evaluate.py:543-545 | update_file_with_positions writes the "= title" line only when the title is non-empty, yet parse_v4_file (bin/evaluate.py:245-249) accepts a bare "=" line and returns the empty title | the file "v4.0", "=", "start -> e4": it loads with title "" and one edge. The rewrite writes "v4.0" and then the position line for "start", which parse_v4_file rejects as a missing title line. (A file with no transition, such as "v4.0", "=", stops earlier: `max` of an empty list at bin/evaluate.py:478-479, which `EvaluateV4.ExportFileAsWritten` reports as `NoPositions`.) | always write "= " + title, so every file the tool loads is still loadable after its own rewrite | not executed | EvaluateV4.EmptyTitleRewriteRejected | EvaluateV4.HeaderRoundTrip |
