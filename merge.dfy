/**
 * bin/merge.py: merging several v4.0 opening files.  Each file is read into a map
 * from (source state, move) to the annotation written before that transition; the
 * maps are united, annotations of a repeated transition combined; the result is
 * written back in a fixed order.  Position coordinates are dropped on the way.
 */
module Merge {
  import opened Wrappers
  import opened Text

  /** A transition as merge.py keys it: (from_state, move), both as written. */
  type Key = (string, string)

  /** What parse_opening_file keeps while it reads: the transitions so far and the pending comments. */
  datatype ReadState = ReadState(transitions: map<Key, string>, pending: seq<string>)

  const FRESH: ReadState := ReadState(map[], [])

  /** Why a file contributes nothing (parse_opening_file prints these as warnings). */
  datatype FileWarning = EmptyFile | UnsupportedVersion(found: string)

  datatype ParsedFile = ParsedFile(title: Option<string>, transitions: map<Key, string>, warning: Option<FileWarning>)

  /** How the line loop of parse_opening_file sees a line, in the order of its tests. */
  datatype LineKind = Blank | PositionLike | Comment(text: string) | Arrow(key: Key) | Other

  function ClassifyLine(raw: string): (kind: LineKind) {
    var line := Strip(raw);
    if line == "" then Blank
    else if Contains(line, ":") && !Contains(line, "->") then PositionLike
    else if StartsWith(line, "#") then Comment(Strip(line[1..]))
    else if Contains(line, "->") then
      var parts := SplitOnce(line, "->");
      Arrow((Strip(parts[0]), Strip(parts[1])))
    else Other
  }

  /** One pass of the line loop. */
  function Step(st: ReadState, raw: string): ReadState {
    StepKind(st, ClassifyLine(raw))
  }

  /** One pass of the line loop on a line of kind `kind`. */
  function StepKind(st: ReadState, kind: LineKind): (next: ReadState) {
    match kind
    case Comment(text) => if text != "" then st.(pending := st.pending + [text]) else st
    case Arrow(key) => ReadState(st.transitions[key := Join(" ", st.pending)], [])
    case _ => st
  }

  function ReadStep(): (ReadState, string) -> ReadState {
    (st: ReadState, raw: string) => Step(st, raw)
  }

  /** The state after folding `step` over `body`. */
  function Run(step: (ReadState, string) -> ReadState, st: ReadState, body: seq<string>): ReadState
    decreases |body|
  {
    if body == [] then st
    else step(Run(step, st, body[..|body| - 1]), body[|body| - 1])
  }

  lemma RunSnoc(step: (ReadState, string) -> ReadState, st: ReadState, body: seq<string>, raw: string)
    ensures Run(step, st, body + [raw]) == step(Run(step, st, body), raw)
  {
    assert (body + [raw])[..|body|] == body;
  }

  lemma {:induction false} RunAppend(step: (ReadState, string) -> ReadState, st: ReadState, a: seq<string>, b: seq<string>)
    ensures Run(step, st, a + b) == Run(step, Run(step, st, a), b)
    decreases |b|
  {
    if b == [] {
      assert a + b == a;
    } else {
      var init := b[..|b| - 1];
      assert (a + b)[..|a + b| - 1] == a + init;
      RunAppend(step, st, a, init);
    }
  }

  /** The title parse_opening_file takes from the second line, if that line starts with "=". */
  function TitleOf(lines: seq<string>): (r: Option<string>)
    ensures r.Some? ==> IsStripped(r.value)
  {
    if |lines| > 1 && StartsWith(Strip(lines[1]), "=") then Some(Strip(Strip(lines[1])[1..])) else None
  }

  /** parse_opening_file on the lines of a file. */
  function ParseOpeningFile(lines: seq<string>): (r: ParsedFile)
    ensures r.warning.Some? <==> |lines| == 0 || !StartsWith(Strip(lines[0]), "v4.")
    ensures r.warning.Some? ==> r.title == None && r.transitions == map[]
    ensures |lines| == 0 ==> r.warning == Some(EmptyFile)
    ensures r.title.Some? ==> IsStripped(r.title.value)
  {
    if |lines| == 0 then ParsedFile(None, map[], Some(EmptyFile))
    else if !StartsWith(Strip(lines[0]), "v4.") then ParsedFile(None, map[], Some(UnsupportedVersion(Strip(lines[0]))))
    else
      var body := if |lines| >= 2 then lines[2..] else [];
      ParsedFile(TitleOf(lines), Run(ReadStep(), FRESH, body).transitions, None)
  }

  /** parse_opening_file: the line loop, filling `transitions` and `current_annotation` in place. */
  method LoadOpeningFile(lines: seq<string>) returns (r: ParsedFile)
    ensures r == ParseOpeningFile(lines)
  {
    if |lines| == 0 {
      return ParsedFile(None, map[], Some(EmptyFile));
    }
    var version := Strip(lines[0]);
    if !StartsWith(version, "v4.") {
      return ParsedFile(None, map[], Some(UnsupportedVersion(version)));
    }
    var title: Option<string> := None;
    if |lines| > 1 && StartsWith(Strip(lines[1]), "=") {
      title := Some(Strip(Strip(lines[1])[1..]));
    }
    if |lines| < 2 {
      return ParsedFile(title, map[], None);
    }
    var transitions := ReadBody(lines);
    return ParsedFile(title, transitions, None);
  }

  /** The line loop of parse_opening_file, from the third line on. */
  method ReadBody(lines: seq<string>) returns (transitions: map<Key, string>)
    requires |lines| >= 2
    ensures transitions == Run(ReadStep(), FRESH, lines[2..]).transitions
  {
    transitions := map[];
    var pending: seq<string> := [];
    var i := 2;
    while i < |lines|
      invariant 2 <= i <= |lines|
      invariant ReadState(transitions, pending) == Run(ReadStep(), FRESH, lines[2..i])
    {
      RunNextLine(ReadStep(), lines, i);
      transitions, pending := HandleLine(transitions, pending, lines[i]);
      i := i + 1;
    }
    assert lines[2..i] == lines[2..];
  }

  lemma RunNextLine(step: (ReadState, string) -> ReadState, lines: seq<string>, i: nat)
    requires 2 <= i < |lines|
    ensures Run(step, FRESH, lines[2..i + 1]) == step(Run(step, FRESH, lines[2..i]), lines[i])
  {
    RunSnoc(step, FRESH, lines[2..i], lines[i]);
    assert lines[2..i] + [lines[i]] == lines[2..i + 1];
  }

  /** The body of the parse_opening_file loop for one line. */
  method HandleLine(transitions: map<Key, string>, pending: seq<string>, raw: string)
    returns (transitions': map<Key, string>, pending': seq<string>)
    ensures ReadState(transitions', pending') == Step(ReadState(transitions, pending), raw)
  {
    transitions', pending' := transitions, pending;
    var line := Strip(raw);
    if line == "" {
      assert ClassifyLine(raw) == Blank;
      return;
    }
    if Contains(line, ":") && !Contains(line, "->") {
      assert ClassifyLine(raw) == PositionLike;
      return;
    }
    if StartsWith(line, "#") {
      var text := Strip(line[1..]);
      assert ClassifyLine(raw) == Comment(text);
      if text != "" {
        pending' := pending + [text];
      }
    } else if Contains(line, "->") {
      var parts := SplitOnce(line, "->");
      if |parts| == 2 {
        var fromState := Strip(parts[0]);
        var move := Strip(parts[1]);
        assert ClassifyLine(raw) == Arrow((fromState, move));
        var annotation := if pending != [] then Join(" ", pending) else "";
        transitions' := transitions[(fromState, move) := annotation];
        pending' := [];
      }
    } else {
      assert ClassifyLine(raw) == Other;
    }
  }

  // ---------------------------------------------------------------------------
  // What the parse keeps

  /**
   * A line holding ":" but no "->" is passed over as a position definition before
   * the comment test, so a "#" line of that shape never joins an annotation.
   */
  lemma ColonCommentDropped(st: ReadState, text: string)
    requires IsStripped(text) && text != ""
    requires ':' in text && !Contains(text, "->")
    ensures ClassifyLine("# " + text) == PositionLike
    ensures Step(st, "# " + text) == st
  {
    var line := "# " + text;
    assert line == ['#'] + (" " + text);
    assert line[0] == '#' && line[|line| - 1] == text[|text| - 1];
    StripIsIdentity(line);
    ContainsChar(line, ':');
    NoArrowAfter(' ', text);
    NoArrowAfter('#', " " + text);
  }

  /**
   * A line that is not a transition: blank lines, position definitions, other text
   * and comments all leave the pending annotation in place.
   */
  predicate IsQuietLine(raw: string) {
    !ClassifyLine(raw).Arrow?
  }

  /** What a line that is not a transition adds to the pending annotation: a comment's text, unless that is empty. */
  function Added(raw: string): seq<string> {
    if ClassifyLine(raw).Comment? && ClassifyLine(raw).text != "" then [ClassifyLine(raw).text] else []
  }

  /** The pieces `parts` one after the other. */
  function Concat(parts: seq<seq<string>>): seq<string> {
    if parts == [] then [] else Concat(parts[..|parts| - 1]) + parts[|parts| - 1]
  }

  /** The non-empty comment texts of a run of lines. */
  function CommentTexts(comments: seq<string>): seq<string> {
    Concat(seq(|comments|, k requires 0 <= k < |comments| => Added(comments[k])))
  }

  /** The texts collected from a run of lines are never empty. */
  lemma CommentTextsNonEmpty(comments: seq<string>)
    ensures forall j :: 0 <= j < |CommentTexts(comments)| ==> CommentTexts(comments)[j] != ""
  {
    var parts := seq(|comments|, k requires 0 <= k < |comments| => Added(comments[k]));
    ConcatNonEmpty(parts);
  }

  lemma {:induction false} ConcatNonEmpty(parts: seq<seq<string>>)
    requires forall k, j :: 0 <= k < |parts| && 0 <= j < |parts[k]| ==> parts[k][j] != ""
    ensures forall j :: 0 <= j < |Concat(parts)| ==> Concat(parts)[j] != ""
    decreases |parts|
  {
    if parts != [] {
      var init := parts[..|parts| - 1];
      assert forall k :: 0 <= k < |init| ==> init[k] == parts[k];
      ConcatNonEmpty(init);
    }
  }

  /** Lines other than transitions only add their non-empty comment texts to the pending annotation. */
  lemma CommentsAccumulate(st: ReadState, comments: seq<string>)
    requires forall k :: 0 <= k < |comments| ==> IsQuietLine(comments[k])
    ensures Run(ReadStep(), st, comments) == st.(pending := st.pending + CommentTexts(comments))
  {
    var parts := seq(|comments|, k requires 0 <= k < |comments| => Added(comments[k]));
    ReadStepAdds(comments);
    PartsAccumulate(ReadStep(), st, comments, parts);
  }

  /** The parser reads each of the lines `comments`, none a transition, as adding its comment text, if any. */
  lemma ReadStepAdds(comments: seq<string>)
    requires forall k :: 0 <= k < |comments| ==> IsQuietLine(comments[k])
    ensures forall s: ReadState, k: int :: 0 <= k < |comments| ==>
      ReadStep()(s, comments[k]) == s.(pending := s.pending + Added(comments[k]))
  {
    forall s: ReadState, k: int | 0 <= k < |comments|
      ensures ReadStep()(s, comments[k]) == s.(pending := s.pending + Added(comments[k]))
    {
      ReadStepIs(s, comments[k]);
      CommentKindAdds(s, ClassifyLine(comments[k]));
    }
  }

  /** The parser's step on a line is the step for the line's kind. */
  lemma ReadStepIs(st: ReadState, raw: string)
    ensures ReadStep()(st, raw) == StepKind(st, ClassifyLine(raw))
  {
  }

  lemma CommentKindAdds(st: ReadState, kind: LineKind)
    requires !kind.Arrow?
    ensures StepKind(st, kind) == st.(pending := st.pending + (if kind.Comment? && kind.text != "" then [kind.text] else []))
  {
    if !kind.Comment? || kind.text == "" {
      assert st.pending + [] == st.pending;
    }
  }

  /** Lines that each add a piece to the pending annotation add all the pieces, in order. */
  lemma {:induction false} PartsAccumulate(step: (ReadState, string) -> ReadState, st: ReadState, lines: seq<string>,
                                           parts: seq<seq<string>>)
    requires |parts| == |lines|
    requires forall s: ReadState, k: int :: 0 <= k < |lines| ==> step(s, lines[k]) == s.(pending := s.pending + parts[k])
    ensures Run(step, st, lines) == st.(pending := st.pending + Concat(parts))
    decreases |lines|
  {
    if lines == [] {
      assert st.pending + [] == st.pending;
    } else {
      var init := lines[..|lines| - 1];
      var initParts := parts[..|parts| - 1];
      var mid := st.(pending := st.pending + Concat(initParts));
      assert Run(step, st, init) == mid by {
        assert forall k :: 0 <= k < |init| ==> init[k] == lines[k] && initParts[k] == parts[k];
        PartsAccumulate(step, st, init, initParts);
      }
      assert step(mid, lines[|lines| - 1]) == mid.(pending := mid.pending + parts[|parts| - 1]);
      assert mid.pending + parts[|parts| - 1] == st.pending + Concat(parts) by {
        assert Concat(parts) == Concat(initParts) + parts[|parts| - 1];
        AppendAssoc(st.pending, Concat(initParts), parts[|parts| - 1]);
      }
    }
  }

  /**
   * The comments since the last transition become the annotation of the next one,
   * joined with single spaces, whatever blank or other lines come between them; the
   * transition replaces any earlier annotation of its key, and the buffer is empty
   * again afterwards.
   */
  lemma CommentsAnnotateNextArrow(st: ReadState, comments: seq<string>, raw: string, key: Key)
    requires forall k :: 0 <= k < |comments| ==> IsQuietLine(comments[k])
    requires ClassifyLine(raw) == Arrow(key)
    ensures Run(ReadStep(), st, comments + [raw]) ==
      ReadState(st.transitions[key := Join(" ", st.pending + CommentTexts(comments))], [])
  {
    var texts := CommentTexts(comments);
    CommentsAccumulate(st, comments);
    ReadStepIs(st.(pending := st.pending + texts), raw);
    ArrowAfterTexts(ReadStep(), st, comments, texts, raw, key);
  }

  /** A transition of `key` after lines that add `texts` to the pending annotation. */
  lemma ArrowAfterTexts(step: (ReadState, string) -> ReadState, st: ReadState, comments: seq<string>, texts: seq<string>,
                        raw: string, key: Key)
    requires Run(step, st, comments) == st.(pending := st.pending + texts)
    requires step(st.(pending := st.pending + texts), raw) == StepKind(st.(pending := st.pending + texts), Arrow(key))
    ensures Run(step, st, comments + [raw]) == ReadState(st.transitions[key := Join(" ", st.pending + texts)], [])
  {
    RunSnoc(step, st, comments, raw);
  }

  /** A line that is not a transition of `key` leaves that key's entry alone. */
  lemma StepKeepsOtherKeys(st: ReadState, raw: string, key: Key)
    requires ClassifyLine(raw) != Arrow(key)
    ensures key in Step(st, raw).transitions <==> key in st.transitions
    ensures key in st.transitions ==> Step(st, raw).transitions[key] == st.transitions[key]
  {
  }

  /** Some line of `body` is a transition of `key`. */
  predicate HasArrow(body: seq<string>, key: Key) {
    exists j :: 0 <= j < |body| && ClassifyLine(body[j]) == Arrow(key)
  }

  lemma HasArrowSnoc(init: seq<string>, last: string, key: Key)
    ensures HasArrow(init + [last], key) <==> HasArrow(init, key) || ClassifyLine(last) == Arrow(key)
  {
    var body := init + [last];
    if HasArrow(body, key) && ClassifyLine(last) != Arrow(key) {
      var j :| 0 <= j < |body| && ClassifyLine(body[j]) == Arrow(key);
      assert j < |init| && body[j] == init[j];
    }
    if HasArrow(init, key) {
      var j :| 0 <= j < |init| && ClassifyLine(init[j]) == Arrow(key);
      assert body[j] == init[j];
    }
    if ClassifyLine(last) == Arrow(key) {
      assert body[|init|] == last;
    }
  }

  /** The keys read are those of the transition lines, on top of the ones already there. */
  lemma {:induction false} ReadKeys(st: ReadState, body: seq<string>, key: Key)
    ensures key in Run(ReadStep(), st, body).transitions <==> key in st.transitions || HasArrow(body, key)
    decreases |body|
  {
    if body != [] {
      var init := body[..|body| - 1];
      var last := body[|body| - 1];
      assert body == init + [last];
      var mid := Run(ReadStep(), st, init);
      assert Run(ReadStep(), st, body) == Step(mid, last) by {
        RunSnoc(ReadStep(), st, init, last);
      }
      ReadKeys(st, init, key);
      HasArrowSnoc(init, last, key);
      if ClassifyLine(last) != Arrow(key) {
        StepKeepsOtherKeys(mid, last, key);
      }
    }
  }

  /**
   * A key written more than once keeps the annotation of its last transition line:
   * the comments pending just before that line.
   */
  lemma {:induction false} LastTransitionWins(st: ReadState, body: seq<string>, j: nat, key: Key)
    requires j < |body| && ClassifyLine(body[j]) == Arrow(key)
    requires forall l :: j < l < |body| ==> ClassifyLine(body[l]) != Arrow(key)
    ensures key in Run(ReadStep(), st, body).transitions
    ensures Run(ReadStep(), st, body).transitions[key] == Join(" ", Run(ReadStep(), st, body[..j]).pending)
    decreases |body|
  {
    var init := body[..|body| - 1];
    var last := body[|body| - 1];
    if j == |body| - 1 {
      assert body[..j] == init;
    } else {
      assert forall l :: 0 <= l < |init| ==> init[l] == body[l];
      LastTransitionWins(st, init, j, key);
      assert init[..j] == body[..j];
      StepKeepsOtherKeys(Run(ReadStep(), st, init), last, key);
    }
  }

  // ---------------------------------------------------------------------------
  // merge_transitions

  lemma ContainsParts(a: string, mid: string, b: string)
    ensures Contains(a + mid + b, a) && Contains(a + mid + b, b)
    ensures Contains(a, a) && Contains(a, "")
  {
    var s := a + mid + b;
    assert s[..|a|] == a && s[|a + mid|..] == b;
    ContainsAt(s, a, 0);
    ContainsAt(s, b, |a + mid|);
    assert a[0..|a|] == a;
    ContainsAt(a, a, 0);
    assert a[0..0] == "";
    ContainsAt(a, "", 0);
  }

  /** The annotation kept when a transition already merged shows up again. */
  function Combine(existing: string, added: string): string {
    if added != "" && existing != "" then
      if !Contains(existing, added) then existing + " | " + added else existing
    else if added != "" then added
    else existing
  }

  /**
   * Both texts survive a combination; a text already contained in the existing one
   * adds nothing; an empty existing annotation is replaced, and otherwise the two
   * are joined by " | ".
   */
  lemma CombineKeepsBoth(existing: string, added: string)
    ensures var r := Combine(existing, added);
      Contains(r, existing) && Contains(r, added) &&
      (Contains(existing, added) ==> r == existing) &&
      (existing == "" ==> r == added) &&
      (existing != "" && !Contains(existing, added) ==> r == existing + " | " + added)
  {
    ContainsParts(existing, " | ", added);
    ContainsParts(added, "", "");
  }

  /** Combining with the same text again changes nothing. */
  lemma CombineAbsorbs(existing: string, added: string)
    ensures Combine(Combine(existing, added), added) == Combine(existing, added)
  {
    CombineKeepsBoth(existing, added);
    CombineKeepsBoth(Combine(existing, added), added);
  }

  /** `merged` after the keys `done` of one file's map `t` have been taken in. */
  function MergeKeys(merged: map<Key, string>, t: map<Key, string>, done: set<Key>): (r: map<Key, string>)
    requires done <= t.Keys
    ensures r.Keys == merged.Keys + done
  {
    map k | k in merged.Keys + done ::
      if k in done then (if k in merged then Combine(merged[k], t[k]) else t[k]) else merged[k]
  }

  /** One file's transitions merged into the result so far. */
  function MergeInto(merged: map<Key, string>, t: map<Key, string>): (r: map<Key, string>)
    ensures r.Keys == merged.Keys + t.Keys
  {
    MergeKeys(merged, t, t.Keys)
  }

  /** merge_transitions: every file's map taken in, in order. */
  function MergeAll(files: seq<map<Key, string>>): (r: map<Key, string>)
    ensures forall k :: k in r <==> exists i :: 0 <= i < |files| && k in files[i]
  {
    if files == [] then map[]
    else
      var init := files[..|files| - 1];
      var r := MergeInto(MergeAll(init), files[|files| - 1]);
      assert forall i :: 0 <= i < |init| ==> init[i] == files[i];
      r
  }

  /** Merging a map into itself changes nothing: re-merging identical data is a no-op. */
  lemma MergeIntoSelf(m: map<Key, string>)
    ensures MergeInto(m, m) == m
  {
    forall k | k in m ensures MergeInto(m, m)[k] == m[k] {
      ContainsParts(m[k], "", "");
      CombineKeepsBoth(m[k], m[k]);
    }
  }

  /** Merging the same file a second time changes nothing. */
  lemma MergeIntoTwice(m: map<Key, string>, t: map<Key, string>)
    ensures MergeInto(MergeInto(m, t), t) == MergeInto(m, t)
  {
    var once := MergeInto(m, t);
    forall k | k in once ensures MergeInto(once, t)[k] == once[k] {
      if k in t {
        if k in m {
          CombineAbsorbs(m[k], t[k]);
        } else {
          ContainsParts(t[k], "", "");
        }
      }
    }
  }

  /** No annotation text is lost: each input annotation occurs in the merged one. */
  lemma MergeIntoKeepsText(m: map<Key, string>, t: map<Key, string>, k: Key)
    ensures k in m ==> Contains(MergeInto(m, t)[k], m[k])
    ensures k in t ==> Contains(MergeInto(m, t)[k], t[k])
  {
    if k in m && k !in t {
      ContainsParts(m[k], "", "");
    }
    if k in t && k !in m {
      ContainsParts(t[k], "", "");
    }
    if k in m && k in t {
      CombineKeepsBoth(m[k], t[k]);
    }
  }

  /** merge_transitions, filling `merged` in place key by key. */
  method MergeTransitions(files: seq<map<Key, string>>) returns (merged: map<Key, string>)
    ensures merged == MergeAll(files)
  {
    merged := map[];
    var i := 0;
    while i < |files|
      invariant 0 <= i <= |files|
      invariant merged == MergeAll(files[..i])
    {
      assert files[..i + 1][..i] == files[..i];
      merged := MergeFile(merged, files[i]);
      i := i + 1;
    }
    assert files[..i] == files;
  }

  /** The inner loop of merge_transitions over one file's map. */
  method MergeFile(base: map<Key, string>, t: map<Key, string>) returns (merged: map<Key, string>)
    ensures merged == MergeInto(base, t)
  {
    merged := base;
    var todo := t.Keys;
    ghost var done: set<Key> := {};
    while todo != {}
      invariant done !! todo && done + todo == t.Keys
      invariant merged == MergeKeys(base, t, done)
      decreases |todo|
    {
      var key :| key in todo;
      MoveKey(done, todo, key, t.Keys);
      MergeKeysStep(base, t, done, key);
      merged := MergeKey(merged, key, t[key]);
      done := done + {key};
      todo := todo - {key};
    }
  }

  /** The body of the inner loop: one transition of a file taken into `merged`. */
  method MergeKey(merged: map<Key, string>, key: Key, annotation: string) returns (merged': map<Key, string>)
    ensures merged' == merged[key := if key in merged then Combine(merged[key], annotation) else annotation]
  {
    merged' := merged;
    if key in merged {
      var existing := merged[key];
      if annotation != "" && existing != "" {
        if !Contains(existing, annotation) {
          merged' := merged[key := existing + " | " + annotation];
        }
      } else if annotation != "" {
        merged' := merged[key := annotation];
      }
    } else {
      merged' := merged[key := annotation];
    }
  }

  lemma MoveKey<T>(done: set<T>, todo: set<T>, key: T, all: set<T>)
    requires done !! todo && done + todo == all && key in todo
    ensures (done + {key}) !! (todo - {key}) && (done + {key}) + (todo - {key}) == all
    ensures (done + {key}) <= all
  {
  }

  /** Taking in one more key of `t`. */
  lemma MergeKeysStep(base: map<Key, string>, t: map<Key, string>, done: set<Key>, key: Key)
    requires done <= t.Keys && key in t && key !in done
    ensures var m := MergeKeys(base, t, done);
      m[key := if key in m then Combine(m[key], t[key]) else t[key]] == MergeKeys(base, t, done + {key})
  {
  }

  // ---------------------------------------------------------------------------
  // write_merged_file

  /** The source states of some transitions. */
  function StatesOf(keys: set<Key>): set<string> {
    set k | k in keys :: k.0
  }

  /** The moves of some transitions that leave `state`. */
  function MovesOf(keys: set<Key>, state: string): set<string> {
    set k | k in keys && k.0 == state :: k.1
  }

  /** The source states of the merged transitions. */
  function SourceStates(m: map<Key, string>): set<string> {
    StatesOf(m.Keys)
  }

  /** The moves merged for one source state. */
  function MovesFrom(m: map<Key, string>, state: string): set<string> {
    MovesOf(m.Keys, state)
  }

  /** The sort key (s != 'start', s): "start" before every other state, the others in ascending order. */
  predicate StateBefore(a: string, b: string) {
    (a == "start" && b != "start") || (a != "start" && b != "start" && LexLess(a, b))
  }

  /** The order in which write_merged_file visits the source states. */
  function StateOrder(states: set<string>): (r: seq<string>)
    ensures forall x :: x in r <==> x in states
    ensures forall i, j :: 0 <= i < j < |r| ==> StateBefore(r[i], r[j])
  {
    var rest := Sorted(states - {"start"});
    OthersInOrder(states - {"start"}, rest);
    if "start" in states then ["start"] + rest else rest
  }

  /** The states other than "start", sorted, are in state order, also behind "start". */
  lemma OthersInOrder(others: set<string>, rest: seq<string>)
    requires "start" !in others
    requires forall x :: x in rest <==> x in others
    requires StrictlyIncreasing(rest)
    ensures forall i, j :: 0 <= i < j < |rest| ==> StateBefore(rest[i], rest[j])
    ensures forall i, j :: 0 <= i < j < |["start"] + rest| ==> StateBefore((["start"] + rest)[i], (["start"] + rest)[j])
  {
    forall i | 0 <= i < |rest| ensures rest[i] != "start" {
      assert rest[i] in rest;
    }
  }

  /** The transitions of one state, its moves in the order given. */
  function Block(state: string, moves: seq<string>): (r: seq<Key>)
    ensures |r| == |moves| && forall i :: 0 <= i < |r| ==> r[i] == (state, moves[i])
  {
    seq(|moves|, i requires 0 <= i < |moves| => (state, moves[i]))
  }

  /** The transitions of the given states, state by state, each state's moves sorted. */
  function Entries(m: map<Key, string>, states: seq<string>): seq<Key> {
    if states == [] then []
    else
      var last := states[|states| - 1];
      Entries(m, states[..|states| - 1]) + Block(last, Sorted(MovesFrom(m, last)))
  }

  /** The order in which write_merged_file writes the transitions. */
  function WriteOrder(m: map<Key, string>): seq<Key> {
    Entries(m, StateOrder(SourceStates(m)))
  }

  /** The transitions listed for some states are the merged ones leaving those states. */
  lemma {:induction false} EntriesMembers(m: map<Key, string>, states: seq<string>)
    ensures forall k :: k in Entries(m, states) <==> k in m && k.0 in states
    decreases |states|
  {
    if states != [] {
      var init := states[..|states| - 1];
      var last := states[|states| - 1];
      EntriesMembers(m, init);
      var block := Block(last, Sorted(MovesFrom(m, last)));
      forall k ensures k in block <==> k in m && k.0 == last {
        if k in block {
          var i :| 0 <= i < |block| && block[i] == k;
          assert Sorted(MovesFrom(m, last))[i] in MovesFrom(m, last);
        }
        if k in m && k.0 == last {
          assert k.1 in MovesFrom(m, last);
          var i :| 0 <= i < |Sorted(MovesFrom(m, last))| && Sorted(MovesFrom(m, last))[i] == k.1;
          assert block[i] == k;
        }
      }
      assert forall x :: x in states <==> x in init || x == last;
    }
  }

  /** Every merged transition is written, and nothing else. */
  lemma WriteOrderCovers(m: map<Key, string>)
    ensures forall k :: k in WriteOrder(m) <==> k in m
  {
    EntriesMembers(m, StateOrder(SourceStates(m)));
    forall k | k in m ensures k.0 in SourceStates(m) {
    }
  }

  /** State order first, then move order within a state. */
  predicate EntryBefore(a: Key, b: Key) {
    StateBefore(a.0, b.0) || (a.0 == b.0 && LexLess(a.1, b.1))
  }

  /** Each transition of the list comes before the ones after it. */
  predicate InWriteOrder(e: seq<Key>) {
    forall i, j :: 0 <= i < j < |e| ==> EntryBefore(e[i], e[j])
  }

  /** The listed transitions are in write order when the states are. */
  lemma {:induction false} EntriesOrdered(m: map<Key, string>, states: seq<string>)
    requires forall i, j :: 0 <= i < j < |states| ==> StateBefore(states[i], states[j])
    ensures InWriteOrder(Entries(m, states))
    decreases |states|
  {
    if states != [] {
      var init := states[..|states| - 1];
      var last := states[|states| - 1];
      var head := Entries(m, init);
      var moves := Sorted(MovesFrom(m, last));
      var block := Block(last, moves);
      EntriesOrdered(m, init);
      assert InWriteOrder(head);
      EntriesMembers(m, init);
      var e := head + block;
      forall i, j | 0 <= i < j < |e| ensures EntryBefore(e[i], e[j]) {
        if j < |head| {
          assert e[i] == head[i] && e[j] == head[j];
          assert EntryBefore(head[i], head[j]);
        } else if i >= |head| {
          assert e[i] == block[i - |head|] && e[j] == block[j - |head|];
          assert StrictlyIncreasing(moves);
          assert LexLess(moves[i - |head|], moves[j - |head|]);
          assert EntryBefore(block[i - |head|], block[j - |head|]);
        } else {
          assert e[i] == head[i] && e[j] == block[j - |head|];
          assert head[i] in head;
          var s :| 0 <= s < |init| && init[s] == head[i].0;
          assert StateBefore(states[s], states[|states| - 1]);
          assert EntryBefore(head[i], block[j - |head|]);
        }
      }
    }
  }

  lemma EntryBeforeIrreflexive(a: Key)
    ensures !EntryBefore(a, a)
  {
    LexLessIrreflexive(a.0);
    LexLessIrreflexive(a.1);
  }

  /** The written order: each transition once, "start" first, states ascending, moves ascending. */
  lemma WriteOrderSorted(m: map<Key, string>)
    ensures InWriteOrder(WriteOrder(m))
    ensures var w := WriteOrder(m); forall i, j :: 0 <= i < j < |w| ==> w[i] != w[j]
  {
    EntriesOrdered(m, StateOrder(SourceStates(m)));
    var w := WriteOrder(m);
    assert InWriteOrder(w);
    forall i, j | 0 <= i < j < |w| ensures w[i] != w[j] {
      EntryBeforeIrreflexive(w[i]);
    }
  }

  /** The lines written for one transition: its annotation as a comment, if any, then the transition. */
  function EntryLines(key: Key, annotation: string): seq<string> {
    (if annotation != "" then ["# " + annotation] else []) + [key.0 + " -> " + key.1]
  }

  /** Every listed transition is a merged one. */
  predicate AllMerged(m: map<Key, string>, keys: seq<Key>) {
    forall i :: 0 <= i < |keys| ==> keys[i] in m
  }

  /** The lines written for the listed transitions, in order. */
  function BodyLines(m: map<Key, string>, keys: seq<Key>): seq<string>
    requires AllMerged(m, keys)
  {
    if keys == [] then []
    else
      var last := keys[|keys| - 1];
      BodyLines(m, keys[..|keys| - 1]) + EntryLines(last, m[last])
  }

  /** The merged file: version, title, then every transition in write order. */
  function MergedFile(title: string, m: map<Key, string>): seq<string> {
    WriteOrderCovers(m);
    ["v4.0", "= " + title] + BodyLines(m, WriteOrder(m))
  }

  lemma BodyLinesSnoc(m: map<Key, string>, keys: seq<Key>, key: Key)
    requires AllMerged(m, keys)
    requires key in m
    ensures BodyLines(m, keys + [key]) == BodyLines(m, keys) + EntryLines(key, m[key])
  {
    assert (keys + [key])[..|keys|] == keys;
  }

  /** write_merged_file on the merged title and transitions. */
  method WriteMergedFile(title: string, m: map<Key, string>) returns (lines: seq<string>)
    ensures lines == MergedFile(title, m)
  {
    var byState := GroupByState(m);
    var body := WriteStates(m, byState, StateOrder(byState.Keys));
    lines := ["v4.0", "= " + title] + body;
  }

  /** The outer loop of write_merged_file: the states in order, each with its sorted moves. */
  method WriteStates(m: map<Key, string>, byState: map<string, set<string>>, states: seq<string>)
    returns (body: seq<string>)
    requires forall s :: s in states ==> s in byState && byState[s] == MovesFrom(m, s)
    ensures AllMerged(m, Entries(m, states))
    ensures body == BodyLines(m, Entries(m, states))
  {
    body := [];
    var i := 0;
    while i < |states|
      invariant 0 <= i <= |states|
      invariant body == StatesLines(m, states[..i])
    {
      var state := states[i];
      assert state in states;
      MovesAreMerged(m, state);
      var before := body;
      body := WriteState(m, state, Sorted(byState[state]), body);
      StatesLinesSnoc(m, states, i, before, body);
      i := i + 1;
    }
    assert states[..i] == states;
    StatesLinesAreBody(m, states);
  }

  /** The lines written for the given states, state by state, each state's moves sorted. */
  function StatesLines(m: map<Key, string>, states: seq<string>): seq<string> {
    if states == [] then []
    else
      var last := states[|states| - 1];
      MovesAreMerged(m, last);
      StatesLines(m, states[..|states| - 1]) + StateLines(m, last, Sorted(MovesFrom(m, last)))
  }

  lemma StatesLinesSnoc(m: map<Key, string>, states: seq<string>, i: nat, before: seq<string>, after: seq<string>)
    requires i < |states|
    requires before == StatesLines(m, states[..i])
    requires MovesMerged(m, states[i], Sorted(MovesFrom(m, states[i])))
    requires after == before + StateLines(m, states[i], Sorted(MovesFrom(m, states[i])))
    ensures after == StatesLines(m, states[..i + 1])
  {
    assert states[..i + 1][..i] == states[..i];
  }

  /** The lines written state by state are the lines of the listed transitions. */
  lemma {:induction false} StatesLinesAreBody(m: map<Key, string>, states: seq<string>)
    ensures AllMerged(m, Entries(m, states))
    ensures StatesLines(m, states) == BodyLines(m, Entries(m, states))
    decreases |states|
  {
    if states != [] {
      var init := states[..|states| - 1];
      var last := states[|states| - 1];
      var moves := Sorted(MovesFrom(m, last));
      StatesLinesAreBody(m, init);
      MovesAreMerged(m, last);
      BlockLines(m, Entries(m, init), last, moves);
    }
  }

  /** The lines of a block of one state's transitions after some listed ones. */
  lemma {:induction false} BlockLines(m: map<Key, string>, prefix: seq<Key>, state: string, moves: seq<string>)
    requires AllMerged(m, prefix)
    requires MovesMerged(m, state, moves)
    ensures AllMerged(m, prefix + Block(state, moves))
    ensures BodyLines(m, prefix + Block(state, moves)) == BodyLines(m, prefix) + StateLines(m, state, moves)
    decreases |moves|
  {
    if moves == [] {
      assert prefix + Block(state, moves) == prefix;
    } else {
      var init := moves[..|moves| - 1];
      var key := (state, moves[|moves| - 1]);
      BlockLines(m, prefix, state, init);
      assert prefix + Block(state, moves) == (prefix + Block(state, init)) + [key];
      BodyLinesSnoc(m, prefix + Block(state, init), key);
      AppendAssoc(BodyLines(m, prefix), StateLines(m, state, init), EntryLines(key, m[key]));
    }
  }

  /** Every listed move from the state is a merged transition. */
  predicate MovesMerged(m: map<Key, string>, state: string, moves: seq<string>) {
    forall j :: 0 <= j < |moves| ==> (state, moves[j]) in m
  }

  lemma MovesAreMerged(m: map<Key, string>, state: string)
    ensures MovesMerged(m, state, Sorted(MovesFrom(m, state)))
  {
    var moves := Sorted(MovesFrom(m, state));
    forall j | 0 <= j < |moves| ensures (state, moves[j]) in m {
      assert moves[j] in MovesFrom(m, state);
    }
  }

  /** The by_state grouping: the moves of each source state. */
  function Group(keys: set<Key>): map<string, set<string>> {
    map s | s in StatesOf(keys) :: MovesOf(keys, s)
  }

  /** The grouping loop of write_merged_file, filling by_state in place. */
  method GroupByState(m: map<Key, string>) returns (byState: map<string, set<string>>)
    ensures byState.Keys == SourceStates(m)
    ensures forall s :: s in byState ==> byState[s] == MovesFrom(m, s)
  {
    byState := map[];
    var todo := m.Keys;
    ghost var done: set<Key> := {};
    while todo != {}
      invariant done !! todo && done + todo == m.Keys
      invariant byState == Group(done)
      decreases |todo|
    {
      var key :| key in todo;
      MoveKey(done, todo, key, m.Keys);
      GroupStep(done, key);
      var moves := if key.0 in byState then byState[key.0] else {};
      byState := byState[key.0 := moves + {key.1}];
      done := done + {key};
      todo := todo - {key};
    }
  }

  lemma GroupStep(done: set<Key>, key: Key)
    ensures var g := Group(done);
      g[key.0 := (if key.0 in g then g[key.0] else {}) + {key.1}] == Group(done + {key})
  {
    var g := Group(done);
    var g' := Group(done + {key});
    var h := g[key.0 := (if key.0 in g then g[key.0] else {}) + {key.1}];
    assert h.Keys == g'.Keys;
    forall s | s in h ensures h[s] == g'[s] {
      if s == key.0 {
        assert h[s] == g'[s];
      }
    }
  }

  /** The lines written for one state's transitions, its moves in the order given. */
  function StateLines(m: map<Key, string>, state: string, moves: seq<string>): seq<string>
    requires MovesMerged(m, state, moves)
  {
    if moves == [] then []
    else
      var key := (state, moves[|moves| - 1]);
      StateLines(m, state, moves[..|moves| - 1]) + EntryLines(key, m[key])
  }

  /** The inner loop of write_merged_file: one state's transitions appended to the output. */
  method WriteState(m: map<Key, string>, state: string, moves: seq<string>, body: seq<string>)
    returns (body': seq<string>)
    requires MovesMerged(m, state, moves)
    ensures body' == body + StateLines(m, state, moves)
  {
    body' := body;
    var j := 0;
    assert body + StateLines(m, state, moves[..0]) == body;
    while j < |moves|
      invariant 0 <= j <= |moves|
      invariant body' == body + StateLines(m, state, moves[..j])
    {
      var move := moves[j];
      var annotation := m[(state, move)];
      ghost var before := body';
      if annotation != "" {
        body' := body' + ["# " + annotation];
      }
      body' := body' + [state + " -> " + move];
      EntryAppended(before, (state, move), annotation, body');
      StateLinesSnoc(m, state, moves, j);
      AppendAssoc(body, StateLines(m, state, moves[..j]), EntryLines((state, move), annotation));
      j := j + 1;
    }
    assert moves[..j] == moves;
  }

  lemma StateLinesSnoc(m: map<Key, string>, state: string, moves: seq<string>, j: nat)
    requires j < |moves|
    requires forall i :: 0 <= i < |moves| ==> (state, moves[i]) in m
    ensures StateLines(m, state, moves[..j + 1]) ==
      StateLines(m, state, moves[..j]) + EntryLines((state, moves[j]), m[(state, moves[j])])
  {
    assert moves[..j + 1][..j] == moves[..j];
  }

  /** The optional comment line and the transition line appended one after the other. */
  lemma EntryAppended(before: seq<string>, key: Key, annotation: string, after: seq<string>)
    requires after == (if annotation != "" then before + ["# " + annotation] else before) + [key.0 + " -> " + key.1]
    ensures after == before + EntryLines(key, annotation)
  {
  }

  // ---------------------------------------------------------------------------
  // Reading a merged file back

  /** An annotation that reads back as itself from a "# " comment line. */
  predicate Readable(a: string) {
    IsStripped(a) && (':' in a ==> Contains(a, "->"))
  }

  /**
   * A key as parse_opening_file makes one: both sides stripped, and the state side
   * without "->" and not starting with '#'.  Either side may be empty.
   */
  predicate ReadKey(k: Key) {
    IsStripped(k.0) && !Contains(k.0, "->") && !StartsWith(k.0, "#") && IsStripped(k.1)
  }

  /** Transitions that write_merged_file writes in a form parse_opening_file reads back unchanged. */
  predicate Writable(m: map<Key, string>) {
    forall k :: k in m ==> ReadKey(k) && Readable(m[k])
  }

  lemma CommentLineReads(a: string)
    requires Readable(a) && a != ""
    ensures ClassifyLine("# " + a) == Comment(a)
  {
    var line := "# " + a;
    CommentLineStripped(a);
    CommentLineNotPosition(a);
    CommentTextStripped(a);
    assert StartsWith(line, "#");
    CommentClassified(line);
  }

  /** A stripped line starting with "#" that does not look like a position is a comment. */
  lemma CommentClassified(line: string)
    requires Strip(line) == line && StartsWith(line, "#")
    requires !(Contains(line, ":") && !Contains(line, "->"))
    ensures ClassifyLine(line) == Comment(Strip(line[1..]))
  {
  }

  lemma CommentLineStripped(a: string)
    requires Readable(a) && a != ""
    ensures Strip("# " + a) == "# " + a
  {
    var line := "# " + a;
    assert line[0] == '#' && line[|line| - 1] == a[|a| - 1];
    StripIsIdentity(line);
  }

  lemma CommentLineNotPosition(a: string)
    requires Readable(a)
    ensures !(Contains("# " + a, ":") && !Contains("# " + a, "->"))
  {
    var line := "# " + a;
    ContainsChar(line, ':');
    if ':' in a {
      ContainsAfter("# ", a, "->");
    } else {
      assert ':' !in line;
    }
  }

  lemma CommentTextStripped(a: string)
    requires Readable(a)
    ensures Strip(("# " + a)[1..]) == a
  {
    assert ("# " + a)[1..] == " " + a;
    StripLeadingSpace(a);
  }

  /** The lines of one entry set its key to its annotation and leave nothing pending. */
  lemma EntryReads(st: ReadState, key: Key, a: string)
    requires st.pending == []
    requires ReadKey(key) && Readable(a)
    ensures Run(ReadStep(), st, EntryLines(key, a)) == ReadState(st.transitions[key := a], [])
  {
    var arrow := key.0 + " -> " + key.1;
    ArrowLineReads(st.(pending := if a != "" then [a] else []), key);
    if a != "" {
      var comment := "# " + a;
      CommentLineReads(a);
      ReadStepIs(st, comment);
      assert EntryLines(key, a) == [comment, arrow];
      RunTwo(ReadStep(), st, comment, arrow);
    } else {
      assert EntryLines(key, a) == [arrow];
      RunOne(ReadStep(), st, arrow);
    }
  }

  /** A transition line written for key sets key to what is pending and clears it. */
  lemma ArrowLineReads(st: ReadState, key: Key)
    requires ReadKey(key) && |st.pending| <= 1
    ensures ReadStep()(st, key.0 + " -> " + key.1) ==
      ReadState(st.transitions[key := if st.pending == [] then "" else st.pending[0]], [])
  {
    var arrow := key.0 + " -> " + key.1;
    ArrowLineClassified(key);
    ReadStepIs(st, arrow);
    if st.pending != [] {
      assert Join(" ", st.pending) == st.pending[0];
    }
  }

  lemma ArrowLineClassified(key: Key)
    requires ReadKey(key)
    ensures ClassifyLine(key.0 + " -> " + key.1) == Arrow(key)
  {
    ArrowLineReadsAs(key.0, key.1);
  }

  lemma RunOne(step: (ReadState, string) -> ReadState, st: ReadState, x: string)
    ensures Run(step, st, [x]) == step(st, x)
  {
    assert [x][..0] == [];
  }

  lemma RunTwo(step: (ReadState, string) -> ReadState, st: ReadState, x: string, y: string)
    ensures Run(step, st, [x, y]) == step(step(st, x), y)
  {
    assert [x, y][..1] == [x];
    RunOne(step, st, x);
  }

  /** The transitions among `keys`. */
  function Restrict(m: map<Key, string>, keys: seq<Key>): map<Key, string> {
    map k | k in m && k in keys :: m[k]
  }

  /** `step` reads the lines of every entry of `m` as that entry, from a state with nothing pending. */
  ghost predicate ReadsEntries(step: (ReadState, string) -> ReadState, m: map<Key, string>) {
    forall st: ReadState, k: Key {:trigger Run(step, st, EntryLines(k, m[k]))} :: k in m && st.pending == [] ==>
      Run(step, st, EntryLines(k, m[k])) == ReadState(st.transitions[k := m[k]], [])
  }

  lemma ReadStepReadsEntries(m: map<Key, string>)
    requires Writable(m)
    ensures ReadsEntries(ReadStep(), m)
  {
    forall st: ReadState, k: Key | k in m && st.pending == []
      ensures Run(ReadStep(), st, EntryLines(k, m[k])) == ReadState(st.transitions[k := m[k]], [])
    {
      EntryReads(st, k, m[k]);
    }
  }

  /** Reading the lines of some entries back gives exactly those entries. */
  lemma {:induction false} BodyLinesRead(step: (ReadState, string) -> ReadState, m: map<Key, string>, keys: seq<Key>)
    requires ReadsEntries(step, m)
    requires AllMerged(m, keys)
    ensures Run(step, FRESH, BodyLines(m, keys)) == ReadState(Restrict(m, keys), [])
    decreases |keys|
  {
    if keys == [] {
      assert Restrict(m, keys) == map[];
    } else {
      var init := keys[..|keys| - 1];
      var last := keys[|keys| - 1];
      BodyLinesRead(step, m, init);
      assert BodyLines(m, keys) == BodyLines(m, init) + EntryLines(last, m[last]);
      RunAppend(step, FRESH, BodyLines(m, init), EntryLines(last, m[last]));
      assert Run(step, ReadState(Restrict(m, init), []), EntryLines(last, m[last])) ==
        ReadState(Restrict(m, init)[last := m[last]], []);
      RestrictSnoc(m, keys);
    }
  }

  lemma RestrictSnoc(m: map<Key, string>, keys: seq<Key>)
    requires keys != [] && keys[|keys| - 1] in m
    ensures var last := keys[|keys| - 1];
      Restrict(m, keys) == Restrict(m, keys[..|keys| - 1])[last := m[last]]
  {
    var init := keys[..|keys| - 1];
    assert keys == init + [keys[|keys| - 1]];
  }

  /** The version and title lines of a merged file, followed by any body. */
  lemma HeaderReads(title: string, body: seq<string>)
    requires IsStripped(title)
    ensures ParseOpeningFile(["v4.0", "= " + title] + body) == ParsedFile(Some(title), Run(ReadStep(), FRESH, body).transitions, None)
  {
    var lines := ["v4.0", "= " + title] + body;
    StripIsIdentity("v4.0");
    TitleLineReads(title);
    assert lines[0] == "v4.0" && lines[1] == "= " + title;
    assert lines[2..] == body;
  }

  /**
   * The round trip of a merge: the written file carries the title and reads back
   * as exactly the merged transitions, annotations included.
   */
  lemma MergedFileReads(title: string, m: map<Key, string>)
    requires IsStripped(title) && Writable(m)
    ensures ParseOpeningFile(MergedFile(title, m)) == ParsedFile(Some(title), m, None)
  {
    MergedBodyReads(m);
    var body := BodyLines(m, WriteOrder(m));
    assert MergedFile(title, m) == ["v4.0", "= " + title] + body;
    HeaderReads(title, body);
  }

  /** The transition lines of a merged file read back as exactly the merged transitions. */
  lemma MergedBodyReads(m: map<Key, string>)
    requires Writable(m)
    ensures AllMerged(m, WriteOrder(m))
    ensures Run(ReadStep(), FRESH, BodyLines(m, WriteOrder(m))).transitions == m
  {
    WriteOrderCovers(m);
    CoveringBodyReads(m, WriteOrder(m));
  }

  lemma CoveringBodyReads(m: map<Key, string>, keys: seq<Key>)
    requires Writable(m)
    requires forall k :: k in keys <==> k in m
    ensures AllMerged(m, keys)
    ensures Run(ReadStep(), FRESH, BodyLines(m, keys)).transitions == m
  {
    assert AllMerged(m, keys) by {
      forall i | 0 <= i < |keys| ensures keys[i] in m {
        assert keys[i] in keys;
      }
    }
    ReadStepReadsEntries(m);
    BodyLinesRead(ReadStep(), m, keys);
    assert Restrict(m, keys) == m;
  }

  // ---------------------------------------------------------------------------
  // What parse_opening_file reads can be written back

  /** The transitions read so far are writable and every pending comment is a readable text. */
  predicate CleanState(st: ReadState) {
    Writable(st.transitions) && forall j :: 0 <= j < |st.pending| ==> st.pending[j] != "" && Readable(st.pending[j])
  }

  /** Whatever parse_opening_file reads from a file, merge.py can write and read back unchanged. */
  lemma ParsedWritable(lines: seq<string>)
    ensures Writable(ParseOpeningFile(lines).transitions)
  {
    if |lines| >= 1 && StartsWith(Strip(lines[0]), "v4.") {
      RunKeepsClean(FRESH, if |lines| >= 2 then lines[2..] else []);
    }
  }

  lemma {:induction false} RunKeepsClean(st: ReadState, body: seq<string>)
    requires CleanState(st)
    ensures CleanState(Run(ReadStep(), st, body))
    decreases |body|
  {
    if body != [] {
      RunKeepsClean(st, body[..|body| - 1]);
      StepKeepsClean(Run(ReadStep(), st, body[..|body| - 1]), body[|body| - 1]);
    }
  }

  lemma StepKeepsClean(st: ReadState, raw: string)
    requires CleanState(st)
    ensures CleanState(Step(st, raw))
  {
    match ClassifyLine(raw)
    case Comment(text) =>
      CommentTextReadable(raw);
    case Arrow(key) =>
      ArrowKeyRead(raw);
      JoinReadable(st.pending);
    case _ =>
  }

  /**
   * A comment text that parse_opening_file keeps is readable: a comment holding ':'
   * but no "->" would have been dropped as a position line.
   */
  lemma CommentTextReadable(raw: string)
    requires ClassifyLine(raw).Comment?
    ensures Readable(ClassifyLine(raw).text)
  {
    var line := Strip(raw);
    var text := Strip(line[1..]);
    if ':' in text {
      CharInStrip(line[1..], ':');
      var i :| 0 <= i < |line[1..]| && line[1..][i] == ':';
      assert line[i + 1] == ':';
      ContainsChar(line, ':');
      var j := FindFrom(line, "->", 0);
      assert line[..1] == "#";
      assert line[j..j + 2][0] == line[j];
      assert line[1..][j - 1..j + 1] == line[j..j + 2];
      ContainsAt(line[1..], "->", j - 1);
      StripKeepsArrows(line[1..]);
    }
  }

  /** A key parse_opening_file takes from a transition line is one a written line reproduces. */
  lemma ArrowKeyRead(raw: string)
    requires ClassifyLine(raw).Arrow?
    ensures ReadKey(ClassifyLine(raw).key)
  {
    var line := Strip(raw);
    var parts := SplitOnce(line, "->");
    StripKeepsArrows(parts[0]);
    if parts[0] != "" {
      assert line[0] == parts[0][0];
      StripKeepsFirst(parts[0]);
      assert line[..1] != "#";
      assert Strip(parts[0])[..1] == line[..1];
    }
  }

  /** Readable texts joined by a separator without ':' make a readable text. */
  lemma ReadableJoined(x: string, sep: string, y: string)
    requires Readable(x) && Readable(y) && x != "" && y != "" && ':' !in sep
    ensures Readable(x + sep + y)
  {
    var s := x + sep + y;
    assert s[0] == x[0] && s[|s| - 1] == y[|y| - 1];
    if ':' in s {
      var i :| 0 <= i < |s| && s[i] == ':';
      if i < |x| {
        assert x[i] == ':';
        var j := FindFrom(x, "->", 0);
        assert s[j..j + 2] == x[j..j + 2];
        ContainsAt(s, "->", j);
      } else {
        assert i >= |x| + |sep| && y[i - |x| - |sep|] == ':';
        ContainsAfter(x + sep, y, "->");
      }
    }
  }

  /** Joining readable comment texts with " " gives a readable annotation. */
  lemma {:induction false} JoinReadable(parts: seq<string>)
    requires forall j :: 0 <= j < |parts| ==> parts[j] != "" && Readable(parts[j])
    ensures Readable(Join(" ", parts)) && (parts != [] ==> Join(" ", parts) != "")
    decreases |parts|
  {
    if |parts| > 1 {
      JoinReadable(parts[1..]);
      ReadableJoined(parts[0], " ", Join(" ", parts[1..]));
    }
  }

  /** Combining readable annotations gives a readable annotation. */
  lemma CombineReadable(existing: string, added: string)
    requires Readable(existing) && Readable(added)
    ensures Readable(Combine(existing, added))
  {
    assert OccursAt(existing, "", 0);
    if existing != "" && !Contains(existing, added) {
      ReadableJoined(existing, " | ", added);
    }
  }

  /** Merging one writable map into another keeps the result writable. */
  lemma MergeKeysWritable(merged: map<Key, string>, t: map<Key, string>, done: set<Key>)
    requires done <= t.Keys && Writable(merged) && Writable(t)
    ensures Writable(MergeKeys(merged, t, done))
  {
    var r := MergeKeys(merged, t, done);
    forall k | k in r
      ensures ReadKey(k) && Readable(r[k])
    {
      if k in done && k in merged {
        CombineReadable(merged[k], t[k]);
      }
    }
  }

  lemma {:induction false} MergeAllWritable(files: seq<map<Key, string>>)
    requires forall i :: 0 <= i < |files| ==> Writable(files[i])
    ensures Writable(MergeAll(files))
    decreases |files|
  {
    if files != [] {
      var init := files[..|files| - 1];
      MergeAllWritable(init);
      MergeKeysWritable(MergeAll(init), files[|files| - 1], files[|files| - 1].Keys);
    }
  }

  lemma {:induction false} FoundWritable(parsed: seq<ParsedFile>)
    requires forall i :: 0 <= i < |parsed| ==> Writable(parsed[i].transitions)
    ensures forall k :: 0 <= k < |FoundTransitions(parsed)| ==> Writable(FoundTransitions(parsed)[k])
    decreases |parsed|
  {
    if parsed != [] {
      var init := parsed[..|parsed| - 1];
      FoundWritable(init);
    }
  }

  /** Every transition merge.py collects from its input files can be written and read back. */
  lemma MergedWritable(files: seq<seq<string>>)
    ensures Writable(MergeAll(FoundTransitions(ParseAll(files))))
  {
    var parsed := ParseAll(files);
    forall i | 0 <= i < |parsed|
      ensures Writable(parsed[i].transitions)
    {
      ParsedWritable(files[i]);
    }
    FoundWritable(parsed);
    MergeAllWritable(FoundTransitions(parsed));
  }

  // ---------------------------------------------------------------------------
  // main

  /** Why merge.py stops with exit status 1. */
  datatype MergeError = TooFewFiles | NoTransitions

  /** Each input file parsed. */
  function ParseAll(files: seq<seq<string>>): (r: seq<ParsedFile>)
    ensures |r| == |files| && forall i :: 0 <= i < |files| ==> r[i] == ParseOpeningFile(files[i])
  {
    seq(|files|, i requires 0 <= i < |files| => ParseOpeningFile(files[i]))
  }

  /** The titles main collects: the non-empty ones, in file order. */
  function Titles(parsed: seq<ParsedFile>): (r: seq<string>)
    ensures forall k :: 0 <= k < |r| ==> r[k] != ""
    ensures forall t :: t in r <==> exists i :: 0 <= i < |parsed| && parsed[i].title == Some(t) && t != ""
  {
    if parsed == [] then []
    else
      var init := parsed[..|parsed| - 1];
      var last := parsed[|parsed| - 1];
      assert forall i :: 0 <= i < |init| ==> init[i] == parsed[i];
      Titles(init) + (if last.title.Some? && last.title.value != "" then [last.title.value] else [])
  }

  /** The transition maps main collects: the non-empty ones, in file order. */
  function FoundTransitions(parsed: seq<ParsedFile>): (r: seq<map<Key, string>>)
    ensures forall k :: 0 <= k < |r| ==> r[k] != map[]
    ensures r == [] <==> forall i :: 0 <= i < |parsed| ==> parsed[i].transitions == map[]
  {
    if parsed == [] then []
    else
      var init := parsed[..|parsed| - 1];
      var last := parsed[|parsed| - 1];
      assert forall i :: 0 <= i < |init| ==> init[i] == parsed[i];
      FoundTransitions(init) + (if last.transitions != map[] then [last.transitions] else [])
  }

  /** A transition is among the collected maps exactly when some file has it. */
  lemma {:induction false} FoundTransitionsKeys(parsed: seq<ParsedFile>, key: Key)
    ensures (exists k :: 0 <= k < |FoundTransitions(parsed)| && key in FoundTransitions(parsed)[k]) <==>
      exists i :: 0 <= i < |parsed| && key in parsed[i].transitions
    decreases |parsed|
  {
    if parsed != [] {
      var init := parsed[..|parsed| - 1];
      var last := parsed[|parsed| - 1];
      assert forall i :: 0 <= i < |init| ==> init[i] == parsed[i];
      FoundTransitionsKeys(init, key);
      var head := FoundTransitions(init);
      var r := FoundTransitions(parsed);
      assert forall k :: 0 <= k < |head| ==> r[k] == head[k];
      if key in last.transitions {
        assert key in r[|r| - 1];
      }
      if exists k :: 0 <= k < |r| && key in r[k] {
        var k :| 0 <= k < |r| && key in r[k];
        if k >= |head| {
          assert key in last.transitions;
        }
      }
    }
  }

  /** The merged title: the collected titles joined by " + ", or "Merged Opening" if there are none. */
  function MergedTitle(titles: seq<string>): string {
    if titles == [] then "Merged Opening" else Join(" + ", titles)
  }

  /** Every collected title appears in the merged title, and that title is written back unchanged. */
  lemma MergedTitleNamesEach(titles: seq<string>)
    requires forall k :: 0 <= k < |titles| ==> titles[k] != "" && IsStripped(titles[k])
    ensures forall k :: 0 <= k < |titles| ==> Contains(MergedTitle(titles), titles[k])
    ensures titles == [] ==> MergedTitle(titles) == "Merged Opening"
    ensures IsStripped(MergedTitle(titles))
  {
    forall k | 0 <= k < |titles| ensures Contains(MergedTitle(titles), titles[k]) {
      JoinHasParts(" + ", titles, k);
    }
    if titles != [] {
      JoinStripped(" + ", titles);
    } else {
      StripIsIdentity("Merged Opening");
    }
  }

  /** main on the contents of the input files: the merged file, or why there is none. */
  function MergeFiles(files: seq<seq<string>>): (r: Result<seq<string>, MergeError>)
    ensures r == Err(TooFewFiles) <==> |files| < 2
    ensures r == Err(NoTransitions) <==> |files| >= 2 && forall i :: 0 <= i < |files| ==> ParseOpeningFile(files[i]).transitions == map[]
  {
    if |files| < 2 then Err(TooFewFiles)
    else
      var parsed := ParseAll(files);
      var found := FoundTransitions(parsed);
      if found == [] then Err(NoTransitions)
      else Ok(MergedFile(MergedTitle(Titles(parsed)), MergeAll(found)))
  }

  /** Read back, the merged file has the merged title and the merged transitions. */
  lemma MergeFilesReads(files: seq<seq<string>>)
    requires MergeFiles(files).Ok?
    ensures var parsed := ParseAll(files);
      ParseOpeningFile(MergeFiles(files).value) ==
        ParsedFile(Some(MergedTitle(Titles(parsed))), MergeAll(FoundTransitions(parsed)), None)
  {
    var parsed := ParseAll(files);
    MergeFilesOutput(files);
    ParsedTitlesStripped(files);
    MergedTitleStripped(parsed);
    MergedWritable(files);
    MergedFileReads(MergedTitle(Titles(parsed)), MergeAll(FoundTransitions(parsed)));
  }

  lemma MergeFilesOutput(files: seq<seq<string>>)
    requires MergeFiles(files).Ok?
    ensures var parsed := ParseAll(files);
      MergeFiles(files).value == MergedFile(MergedTitle(Titles(parsed)), MergeAll(FoundTransitions(parsed)))
  {
  }

  lemma ParsedTitlesStripped(files: seq<seq<string>>)
    ensures var parsed := ParseAll(files);
      forall i :: 0 <= i < |parsed| && parsed[i].title.Some? ==> IsStripped(parsed[i].title.value)
  {
    var parsed := ParseAll(files);
    forall i | 0 <= i < |parsed| && parsed[i].title.Some? ensures IsStripped(parsed[i].title.value) {
      assert parsed[i] == ParseOpeningFile(files[i]);
    }
  }

  lemma MergedTitleStripped(parsed: seq<ParsedFile>)
    requires forall i :: 0 <= i < |parsed| && parsed[i].title.Some? ==> IsStripped(parsed[i].title.value)
    ensures IsStripped(MergedTitle(Titles(parsed)))
  {
    var titles := Titles(parsed);
    forall k | 0 <= k < |titles| ensures IsStripped(titles[k]) {
      assert titles[k] in titles;
    }
    MergedTitleNamesEach(titles);
  }

  /** The merged transitions are exactly those of the input files. */
  lemma MergedKeysOfFiles(files: seq<seq<string>>, key: Key)
    ensures key in MergeAll(FoundTransitions(ParseAll(files))) <==>
      exists i :: 0 <= i < |files| && key in ParseOpeningFile(files[i]).transitions
  {
    var parsed := ParseAll(files);
    FoundTransitionsKeys(parsed, key);
    if exists i :: 0 <= i < |files| && key in ParseOpeningFile(files[i]).transitions {
      var i :| 0 <= i < |files| && key in ParseOpeningFile(files[i]).transitions;
      assert key in parsed[i].transitions;
    }
  }

  /** main: read every file, collect titles and transitions, merge them and write the result. */
  method MergeMain(files: seq<seq<string>>) returns (r: Result<seq<string>, MergeError>)
    ensures r == MergeFiles(files)
  {
    if |files| < 2 {
      return Err(TooFewFiles);
    }
    var titles: seq<string> := [];
    var all: seq<map<Key, string>> := [];
    var i := 0;
    while i < |files|
      invariant 0 <= i <= |files|
      invariant titles == Titles(ParseAll(files[..i]))
      invariant all == FoundTransitions(ParseAll(files[..i]))
    {
      var parsed := LoadOpeningFile(files[i]);
      CollectNext(files, i, parsed);
      if parsed.title.Some? && parsed.title.value != "" {
        titles := titles + [parsed.title.value];
      }
      if parsed.transitions != map[] {
        all := all + [parsed.transitions];
      }
      i := i + 1;
    }
    assert files[..i] == files;
    if all == [] {
      return Err(NoTransitions);
    }
    var merged := MergeTransitions(all);
    var title := if titles != [] then Join(" + ", titles) else "Merged Opening";
    var lines := WriteMergedFile(title, merged);
    return Ok(lines);
  }

  /** What the loop of main adds for the next file. */
  lemma CollectNext(files: seq<seq<string>>, i: nat, p: ParsedFile)
    requires i < |files| && p == ParseOpeningFile(files[i])
    ensures Titles(ParseAll(files[..i + 1])) ==
      Titles(ParseAll(files[..i])) + (if p.title.Some? && p.title.value != "" then [p.title.value] else [])
    ensures FoundTransitions(ParseAll(files[..i + 1])) ==
      FoundTransitions(ParseAll(files[..i])) + (if p.transitions != map[] then [p.transitions] else [])
  {
    ParseAllSnoc(files, i);
    var ps := ParseAll(files[..i + 1]);
    assert ps[..|ps| - 1] == ParseAll(files[..i]) && ps[|ps| - 1] == p;
  }

  lemma ParseAllSnoc(files: seq<seq<string>>, i: nat)
    requires i < |files|
    ensures var ps := ParseAll(files[..i + 1]);
      ps[..i] == ParseAll(files[..i]) && ps[i] == ParseOpeningFile(files[i]) && ps == ps[..i] + [ps[i]]
  {
  }
}
