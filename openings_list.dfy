/**
 * bin/rebuild_openings_list.py: the title of each v4.0 opening file, the scan of
 * the openings directory (skipping untitled files, refusing a repeated title), the
 * <option> list of the dropdown, and splicing that list into an HTML page.
 *
 * The directory is given as a map from each .txt file name to its lines; the
 * HTML page is given as its text.
 */
module OpeningsList {
  import opened Wrappers
  import opened Text
  import Merge

  // ---------------------------------------------------------------------------
  // parse_title_from_file

  /**
   * The title of a file: nothing unless it has two lines, the first starting with
   * "v4." and the second with "="; then the text after "=", trimmed, unless empty.
   */
  function ParseTitle(lines: seq<string>): (r: Option<string>)
    ensures r.Some? ==> r.value != "" && IsStripped(r.value)
  {
    if |lines| < 2 then None
    else if !StartsWith(Strip(lines[0]), "v4.") then None
    else if StartsWith(Strip(lines[1]), "=") then
      var title := Strip(Strip(lines[1])[1..]);
      if title != "" then Some(title) else None
    else None
  }

  /** A file written with header "v4.0", "= " + title is listed under that title, whatever follows. */
  lemma TitleOfHeader(title: string, body: seq<string>)
    requires title != "" && IsStripped(title)
    ensures ParseTitle(["v4.0", "= " + title] + body) == Some(title)
  {
    var lines := ["v4.0", "= " + title] + body;
    assert lines[0] == "v4.0" && lines[1] == "= " + title;
    StripIsIdentity("v4.0");
    TitleLineReads(title);
  }

  /** Every file bin/merge.py writes with a non-empty title is listed under it. */
  lemma ListsMergedFile(title: string, m: map<Merge.Key, string>)
    requires title != "" && IsStripped(title)
    ensures ParseTitle(Merge.MergedFile(title, m)) == Some(title)
  {
    Merge.WriteOrderCovers(m);
    TitleOfHeader(title, Merge.BodyLines(m, Merge.WriteOrder(m)));
  }

  // ---------------------------------------------------------------------------
  // generate_html_options

  /** One entry of the dropdown: the path it loads and the title it shows. */
  datatype Opening = Opening(path: string, title: string)

  /** n spaces. */
  function Spaces(n: nat): (r: string)
    ensures |r| == n && forall i :: 0 <= i < n ==> r[i] == ' '
  {
    seq(n, i => ' ')
  }

  const OPTION_INDENT: string := Spaces(32)
  /** The first entry, selecting nothing, and the only entry when there are no openings. */
  const PLACEHOLDER: string := OptionLine(Opening("", "-- Select Opening --"))
  const NO_OPENINGS: string := OptionLine(Opening("", "-- No Openings Available --"))

  function OptionLine(o: Opening): string {
    OPTION_INDENT + "<option value=\"" + o.path + "\">" + o.title + "</option>"
  }

  /** The `lines` list: the placeholder, then one option per opening in order. */
  function OptionLines(openings: seq<Opening>): (r: seq<string>)
    ensures |r| == |openings| + 1 && r[0] == PLACEHOLDER
    ensures forall k :: 0 <= k < |openings| ==> r[k + 1] == OptionLine(openings[k])
  {
    [PLACEHOLDER] + seq(|openings|, k requires 0 <= k < |openings| => OptionLine(openings[k]))
  }

  function HtmlOptions(openings: seq<Opening>): string {
    if openings == [] then NO_OPENINGS else Join("\n", OptionLines(openings))
  }

  /** generate_html_options: appending one option per opening, then joining with newlines. */
  method GenerateHtmlOptions(openings: seq<Opening>) returns (r: string)
    ensures r == HtmlOptions(openings)
  {
    if openings == [] {
      return NO_OPENINGS;
    }
    var lines := [PLACEHOLDER];
    var i := 0;
    while i < |openings|
      invariant 0 <= i <= |openings|
      invariant lines == OptionLines(openings[..i])
    {
      lines := lines + [OptionLine(openings[i])];
      i := i + 1;
    }
    assert openings[..i] == openings;
    r := Join("\n", lines);
  }

  /** No path or title of the list holds a line break. */
  predicate SingleLine(openings: seq<Opening>) {
    forall k :: 0 <= k < |openings| ==> '\n' !in openings[k].path && '\n' !in openings[k].title
  }

  lemma OptionLineSingle(o: Opening)
    requires '\n' !in o.path && '\n' !in o.title
    ensures '\n' !in OptionLine(o)
  {
  }

  /** The two fixed option lines are single lines. */
  lemma FixedLinesSingle()
    ensures '\n' !in PLACEHOLDER && '\n' !in NO_OPENINGS
  {
    PlaceholderSingle();
    NoOpeningsSingle();
  }

  lemma PlaceholderSingle()
    ensures '\n' !in PLACEHOLDER
  {
    var title := "-- Select Opening --";
    assert forall k :: 0 <= k < |title| ==> title[k] != '\n';
    OptionLineSingle(Opening("", title));
  }

  lemma NoOpeningsSingle()
    ensures '\n' !in NO_OPENINGS
  {
    var title := "-- No Openings Available --";
    assert forall k :: 0 <= k < |title| ==> title[k] != '\n';
    OptionLineSingle(Opening("", title));
  }

  /**
   * The options read back line by line: an empty list is the single
   * "-- No Openings Available --" line, and n openings are n + 1 lines, the
   * "-- Select Opening --" placeholder first, then one option per opening in order.
   */
  lemma HtmlOptionsLines(openings: seq<Opening>)
    requires SingleLine(openings)
    ensures openings == [] ==> Split(HtmlOptions(openings), "\n") == [NO_OPENINGS]
    ensures openings != [] ==> Split(HtmlOptions(openings), "\n") == OptionLines(openings)
  {
    FixedLinesSingle();
    if openings == [] {
      assert Join("\n", [NO_OPENINGS]) == NO_OPENINGS;
      SplitJoinChar([NO_OPENINGS], '\n');
    } else {
      var lines := OptionLines(openings);
      forall k | 0 <= k < |lines| ensures '\n' !in lines[k] {
        if k > 0 {
          OptionLineSingle(openings[k - 1]);
        }
      }
      SplitJoinChar(lines, '\n');
    }
  }

  // ---------------------------------------------------------------------------
  // scan_openings_directory
  //
  // The directory is a map from each .txt file name to its lines.  The loop only
  // looks at each file's title, so its model is stated over `titles`, the title
  // ParseTitle finds in each file (FileTitles).

  /** A repeated title: the title, the file that had it first and the file that repeats it. */
  datatype DuplicateTitle = DuplicateTitle(title: string, first: string, second: string)

  /** The scan loop's state: the list so far and title_to_file. */
  datatype ScanState = ScanState(openings: seq<Opening>, titleToFile: map<string, string>)

  const NO_SCAN: ScanState := ScanState([], map[])

  /** The title of each file of the directory. */
  function FileTitles(dir: map<string, seq<string>>): (titles: map<string, Option<string>>)
    ensures titles.Keys == dir.Keys
  {
    map name | name in dir :: ParseTitle(dir[name])
  }

  /** Names that have a title entry. */
  predicate Known(titles: map<string, Option<string>>, names: seq<string>) {
    forall k :: 0 <= k < |names| ==> names[k] in titles
  }

  /** One pass of the scan loop, given the file's title: skip an untitled file, stop on a repeated title, else record it. */
  function ScanStep(st: ScanState, name: string, title: Option<string>): Result<ScanState, DuplicateTitle> {
    match title
    case None => Ok(st)
    case Some(t) =>
      if t in st.titleToFile then Err(DuplicateTitle(t, st.titleToFile[t], name))
      else Ok(ScanState(st.openings + [Opening("openings/" + name, t)], st.titleToFile[t := name]))
  }

  /** The scan over the files `names`, in that order; the first repeated title ends it. */
  function ScanNames(titles: map<string, Option<string>>, names: seq<string>): Result<ScanState, DuplicateTitle>
    requires Known(titles, names)
  {
    if names == [] then Ok(NO_SCAN)
    else
      match ScanNames(titles, names[..|names| - 1])
      case Err(e) => Err(e)
      case Ok(st) => ScanStep(st, names[|names| - 1], titles[names[|names| - 1]])
  }

  /** scan_openings_directory over the .txt files of the directory, taken in sorted order. */
  function ScanOpenings(dir: map<string, seq<string>>): Result<seq<Opening>, DuplicateTitle> {
    match ScanNames(FileTitles(dir), Sorted(dir.Keys))
    case Err(e) => Err(e)
    case Ok(st) => Ok(st.openings)
  }

  /** scan_openings_directory: list the .txt files in sorted order, then scan them. */
  method ScanDirectory(dir: map<string, seq<string>>) returns (r: Result<seq<Opening>, DuplicateTitle>)
    ensures r == ScanOpenings(dir)
  {
    var txtFiles := Sorted(dir.Keys);
    if txtFiles == [] {
      return Ok([]);
    }
    var st := ScanInOrder(dir, txtFiles);
    match st {
      case Err(e) => return Err(e);
      case Ok(s) => return Ok(s.openings);
    }
  }

  /** The loop of scan_openings_directory, filling `openings` and `title_to_file` in place. */
  method ScanInOrder(dir: map<string, seq<string>>, txtFiles: seq<string>) returns (r: Result<ScanState, DuplicateTitle>)
    requires forall k :: 0 <= k < |txtFiles| ==> txtFiles[k] in dir
    ensures Known(FileTitles(dir), txtFiles) && r == ScanNames(FileTitles(dir), txtFiles)
  {
    ghost var titles := FileTitles(dir);
    var openings: seq<Opening> := [];
    var titleToFile: map<string, string> := map[];
    var i := 0;
    while i < |txtFiles|
      invariant 0 <= i <= |txtFiles|
      invariant ScanNames(titles, txtFiles[..i]) == Ok(ScanState(openings, titleToFile))
    {
      var name := txtFiles[i];
      var title := ParseTitle(dir[name]);
      assert title == titles[name];
      ScanNext(titles, txtFiles, i, ScanState(openings, titleToFile));
      if title.Some? {
        if title.value in titleToFile {
          ErrorEndsScan(titles, txtFiles, i + 1);
          assert txtFiles[..|txtFiles|] == txtFiles;
          return Err(DuplicateTitle(title.value, titleToFile[title.value], name));
        }
        titleToFile := titleToFile[title.value := name];
        openings := openings + [Opening("openings/" + name, title.value)];
      }
      i := i + 1;
    }
    assert txtFiles[..i] == txtFiles;
    return Ok(ScanState(openings, titleToFile));
  }

  /** The scan one file further on. */
  lemma ScanNext(titles: map<string, Option<string>>, names: seq<string>, i: nat, st: ScanState)
    requires Known(titles, names) && i < |names|
    requires ScanNames(titles, names[..i]) == Ok(st)
    ensures ScanNames(titles, names[..i + 1]) == ScanStep(st, names[i], titles[names[i]])
  {
    assert names[..i + 1][..i] == names[..i];
  }

  /** Once a title repeats, the rest of the files change nothing. */
  lemma {:induction false} ErrorEndsScan(titles: map<string, Option<string>>, names: seq<string>, k: nat)
    requires Known(titles, names) && k <= |names|
    requires ScanNames(titles, names[..k]).Err?
    ensures ScanNames(titles, names) == ScanNames(titles, names[..k])
    decreases |names| - k
  {
    if k < |names| {
      assert names[..k + 1][..k] == names[..k];
      ErrorEndsScan(titles, names, k + 1);
    } else {
      assert names[..k] == names;
    }
  }

  // What the scan finds

  /** Every titled file of `names`, in order, listed under "openings/" + its name. */
  function Listed(titles: map<string, Option<string>>, names: seq<string>): seq<Opening>
    requires Known(titles, names)
  {
    if names == [] then []
    else
      var last := names[|names| - 1];
      Listed(titles, names[..|names| - 1]) +
        (match titles[last] case None => [] case Some(t) => [Opening("openings/" + last, t)])
  }

  /** The titles the files of `names` carry. */
  function TitlesIn(titles: map<string, Option<string>>, names: seq<string>): set<string>
    requires Known(titles, names)
  {
    if names == [] then {}
    else
      var last := names[|names| - 1];
      TitlesIn(titles, names[..|names| - 1]) + (match titles[last] case None => {} case Some(t) => {t})
  }

  /** No two files of `names` carry the same title. */
  ghost predicate DistinctTitles(titles: map<string, Option<string>>, names: seq<string>)
    requires Known(titles, names)
  {
    forall i, j :: 0 <= i < j < |names| && titles[names[i]].Some? ==> titles[names[i]] != titles[names[j]]
  }

  /** No file of `names` repeats the title of an earlier one. */
  predicate NoRepeat(titles: map<string, Option<string>>, names: seq<string>)
    requires Known(titles, names)
  {
    names == [] ||
      (NoRepeat(titles, names[..|names| - 1]) &&
       match titles[names[|names| - 1]]
       case None => true
       case Some(t) => t !in TitlesIn(titles, names[..|names| - 1]))
  }

  lemma {:induction false} InTitlesIn(titles: map<string, Option<string>>, names: seq<string>, t: string)
    requires Known(titles, names)
    ensures t in TitlesIn(titles, names) <==> exists i :: 0 <= i < |names| && titles[names[i]] == Some(t)
    decreases |names|
  {
    if names != [] {
      var init := names[..|names| - 1];
      InTitlesIn(titles, init, t);
      assert forall i :: 0 <= i < |init| ==> init[i] == names[i];
    }
  }

  /** NoRepeat says that no two files of `names` share a title. */
  lemma {:induction false} NoRepeatDistinct(titles: map<string, Option<string>>, names: seq<string>)
    requires Known(titles, names)
    ensures NoRepeat(titles, names) <==> DistinctTitles(titles, names)
    decreases |names|
  {
    if names != [] {
      var init := names[..|names| - 1];
      var n := |names| - 1;
      NoRepeatDistinct(titles, init);
      assert forall i :: 0 <= i < |init| ==> init[i] == names[i];
      assert DistinctTitles(titles, init) <== DistinctTitles(titles, names);
      match titles[names[n]]
      case None =>
        assert DistinctTitles(titles, names) <== DistinctTitles(titles, init);
      case Some(t) =>
        InTitlesIn(titles, init, t);
        if t in TitlesIn(titles, init) {
          var i :| 0 <= i < |init| && titles[init[i]] == Some(t);
          assert titles[names[i]] == titles[names[n]];
        } else {
          assert DistinctTitles(titles, names) <== DistinctTitles(titles, init);
        }
    }
  }

  /**
   * A successful scan lists every titled file in the order given, and title_to_file
   * maps each title found to a file that carries it.
   */
  lemma {:induction false} ScanContents(titles: map<string, Option<string>>, names: seq<string>)
    requires Known(titles, names) && ScanNames(titles, names).Ok?
    ensures ScanNames(titles, names).value.openings == Listed(titles, names)
    ensures ScanNames(titles, names).value.titleToFile.Keys == TitlesIn(titles, names)
    ensures forall t :: t in ScanNames(titles, names).value.titleToFile ==>
      ScanNames(titles, names).value.titleToFile[t] in names &&
      titles[ScanNames(titles, names).value.titleToFile[t]] == Some(t)
    decreases |names|
  {
    if names != [] {
      var init := names[..|names| - 1];
      ScanContents(titles, init);
      assert forall i :: 0 <= i < |init| ==> init[i] in names;
    }
  }

  /** The scan fails exactly when a file repeats an earlier title. */
  lemma {:induction false} ScanOkIffNoRepeat(titles: map<string, Option<string>>, names: seq<string>)
    requires Known(titles, names)
    ensures ScanNames(titles, names).Ok? <==> NoRepeat(titles, names)
    decreases |names|
  {
    if names != [] {
      var init := names[..|names| - 1];
      ScanOkIffNoRepeat(titles, init);
      if ScanNames(titles, init).Ok? {
        ScanContents(titles, init);
      }
    }
  }

  /** The scan succeeds exactly when no two files share a title, and then lists every titled file in order. */
  lemma ScanMeaning(titles: map<string, Option<string>>, names: seq<string>)
    requires Known(titles, names)
    ensures ScanNames(titles, names).Ok? <==> DistinctTitles(titles, names)
    ensures ScanNames(titles, names).Ok? ==> ScanNames(titles, names).value.openings == Listed(titles, names)
  {
    ScanOkIffNoRepeat(titles, names);
    NoRepeatDistinct(titles, names);
    if ScanNames(titles, names).Ok? {
      ScanContents(titles, names);
    }
  }

  /** On a repeated title the scan names it and both files that carry it, the first one earlier in the order. */
  lemma {:induction false} ScanErrorMeaning(titles: map<string, Option<string>>, names: seq<string>)
    requires Known(titles, names)
    requires ScanNames(titles, names).Err?
    ensures var e := ScanNames(titles, names).error;
      exists i, j :: 0 <= i < j < |names| && names[i] == e.first && names[j] == e.second &&
        titles[e.first] == Some(e.title) && titles[e.second] == Some(e.title)
    decreases |names|
  {
    var init := names[..|names| - 1];
    var last := names[|names| - 1];
    assert forall i :: 0 <= i < |init| ==> init[i] == names[i];
    if ScanNames(titles, init).Err? {
      ScanErrorMeaning(titles, init);
    } else {
      var st := ScanNames(titles, init).value;
      ScanContents(titles, init);
      var first := st.titleToFile[titles[last].value];
      var i :| 0 <= i < |init| && init[i] == first;
      assert names[i] == first && names[|names| - 1] == last;
    }
  }

  /** Each listed entry comes from one of the files of `names` and carries its title. */
  lemma {:induction false} ListedFrom(titles: map<string, Option<string>>, names: seq<string>)
    requires Known(titles, names)
    ensures forall k :: 0 <= k < |Listed(titles, names)| ==>
      exists i :: 0 <= i < |names| && Listed(titles, names)[k].path == "openings/" + names[i] &&
        titles[names[i]] == Some(Listed(titles, names)[k].title)
    decreases |names|
  {
    if names != [] {
      var init := names[..|names| - 1];
      var n := |names| - 1;
      ListedFrom(titles, init);
      ListedLast(titles, names);
      var l0 := Listed(titles, init);
      var l := Listed(titles, names);
      forall k | 0 <= k < |l|
        ensures exists i :: 0 <= i < |names| && l[k].path == "openings/" + names[i] && titles[names[i]] == Some(l[k].title)
      {
        if k < |l0| {
          var i :| 0 <= i < |init| && l0[k].path == "openings/" + init[i] && titles[init[i]] == Some(l0[k].title);
          assert l[k] == l0[k] && init[i] == names[i];
          assert 0 <= i < |names| && l[k].path == "openings/" + names[i] && titles[names[i]] == Some(l[k].title);
        } else {
          assert l[k].path == "openings/" + names[n] && titles[names[n]] == Some(l[k].title);
        }
      }
      assert forall k :: 0 <= k < |Listed(titles, names)| ==>
        exists i :: 0 <= i < |names| && Listed(titles, names)[k].path == "openings/" + names[i] &&
          titles[names[i]] == Some(Listed(titles, names)[k].title);
    } else {
      assert Listed(titles, names) == [];
    }
  }

  /** The last file's entry, if it has a title, ends the list. */
  lemma ListedLast(titles: map<string, Option<string>>, names: seq<string>)
    requires Known(titles, names) && names != []
    ensures var n := |names| - 1; var l0 := Listed(titles, names[..n]);
      Listed(titles, names) == l0 + (if titles[names[n]].Some? then [Opening("openings/" + names[n], titles[names[n]].value)] else [])
  {
  }

  /** Files scanned in increasing name order are listed in increasing path order. */
  lemma {:induction false} ListedInOrder(titles: map<string, Option<string>>, names: seq<string>)
    requires Known(titles, names) && StrictlyIncreasing(names)
    ensures var l := Listed(titles, names);
      forall i, j :: 0 <= i < j < |l| ==> LexLess(l[i].path, l[j].path)
    decreases |names|
  {
    if names != [] {
      var init := names[..|names| - 1];
      var n := |names| - 1;
      assert forall i :: 0 <= i < |init| ==> init[i] == names[i];
      ListedInOrder(titles, init);
      ListedFrom(titles, init);
      ListedLast(titles, names);
      var l0 := Listed(titles, init);
      var l := Listed(titles, names);
      forall i, j | 0 <= i < j < |l|
        ensures LexLess(l[i].path, l[j].path)
      {
        if j < |l0| {
          assert l[i] == l0[i] && l[j] == l0[j];
        } else {
          var m :| 0 <= m < |init| && l0[i].path == "openings/" + init[m] && titles[init[m]] == Some(l0[i].title);
          assert l[i] == l0[i] && l[j].path == "openings/" + names[n];
          LexLessPrefixed("openings/", names[m], names[n]);
        }
      }
    }
  }

  /** Files with distinct titles are listed with distinct titles. */
  lemma {:induction false} ListedTitlesDistinct(titles: map<string, Option<string>>, names: seq<string>)
    requires Known(titles, names) && DistinctTitles(titles, names)
    ensures var l := Listed(titles, names);
      forall i, j :: 0 <= i < j < |l| ==> l[i].title != l[j].title
    decreases |names|
  {
    if names != [] {
      var init := names[..|names| - 1];
      var n := |names| - 1;
      assert forall i :: 0 <= i < |init| ==> init[i] == names[i];
      assert DistinctTitles(titles, init);
      ListedTitlesDistinct(titles, init);
      ListedFrom(titles, init);
      ListedLast(titles, names);
      var l0 := Listed(titles, init);
      var l := Listed(titles, names);
      forall i, j | 0 <= i < j < |l|
        ensures l[i].title != l[j].title
      {
        if j < |l0| {
          assert l[i] == l0[i] && l[j] == l0[j];
        } else {
          var m :| 0 <= m < |init| && l0[i].path == "openings/" + init[m] && titles[init[m]] == Some(l0[i].title);
          assert l[i] == l0[i] && titles[names[n]] == Some(l[j].title);
          assert titles[names[m]] != titles[names[n]];
        }
      }
    }
  }

  /**
   * A successful scan of `names`, taken in increasing order, lists exactly their
   * titled files, in increasing path order and with no title twice; a failed scan
   * names two different files with the same title.
   */
  lemma ScanListMeaning(titles: map<string, Option<string>>, names: seq<string>)
    requires Known(titles, names) && StrictlyIncreasing(names)
    ensures ScanNames(titles, names).Ok? ==> var l := ScanNames(titles, names).value.openings;
      (forall i, j :: 0 <= i < j < |l| ==> LexLess(l[i].path, l[j].path) && l[i].title != l[j].title) &&
      (forall k :: 0 <= k < |l| ==>
        exists i :: 0 <= i < |names| && l[k].path == "openings/" + names[i] && titles[names[i]] == Some(l[k].title)) &&
      (forall i :: 0 <= i < |names| && titles[names[i]].Some? ==>
        Opening("openings/" + names[i], titles[names[i]].value) in l)
    ensures ScanNames(titles, names).Err? ==> var e := ScanNames(titles, names).error;
      e.first in names && e.second in names && e.first != e.second &&
      titles[e.first] == Some(e.title) && titles[e.second] == Some(e.title)
  {
    ScanMeaning(titles, names);
    if ScanNames(titles, names).Ok? {
      ListedInOrder(titles, names);
      ListedTitlesDistinct(titles, names);
      ListedFrom(titles, names);
      ListedAll(titles, names);
    } else {
      ScanErrorMeaning(titles, names);
      var e := ScanNames(titles, names).error;
      var i, j :| 0 <= i < j < |names| && names[i] == e.first && names[j] == e.second &&
        titles[e.first] == Some(e.title) && titles[e.second] == Some(e.title);
      assert LexLess(names[i], names[j]);
      LexLessIrreflexive(names[i]);
    }
  }

  /** A successful scan_openings_directory lists its entries in increasing path order, with no title twice. */
  lemma ScanDirectoryOrdered(dir: map<string, seq<string>>)
    requires ScanOpenings(dir).Ok?
    ensures var l := ScanOpenings(dir).value;
      forall i, j :: 0 <= i < j < |l| ==> LexLess(l[i].path, l[j].path) && l[i].title != l[j].title
  {
    ScanListMeaning(FileTitles(dir), Sorted(dir.Keys));
  }

  /** Each entry of a successful scan_openings_directory is a .txt file of the directory, listed under its title. */
  lemma ScanDirectorySound(dir: map<string, seq<string>>)
    requires ScanOpenings(dir).Ok?
    ensures var l := ScanOpenings(dir).value;
      forall k :: 0 <= k < |l| ==>
        exists name :: (name in dir && l[k].path == "openings/" + name && ParseTitle(dir[name]) == Some(l[k].title))
  {
    var names := Sorted(dir.Keys);
    ScanListed(FileTitles(dir), names);
    ListedFromDir(dir, names);
  }

  lemma ListedFromDir(dir: map<string, seq<string>>, names: seq<string>)
    requires forall k :: 0 <= k < |names| ==> names[k] in dir
    ensures Known(FileTitles(dir), names)
    ensures var l := Listed(FileTitles(dir), names);
      forall k :: 0 <= k < |l| ==>
        exists name :: (name in dir && l[k].path == "openings/" + name && ParseTitle(dir[name]) == Some(l[k].title))
  {
    var titles := FileTitles(dir);
    ListedFrom(titles, names);
    var l := Listed(titles, names);
    forall k | 0 <= k < |l|
      ensures exists name :: (name in dir && l[k].path == "openings/" + name && ParseTitle(dir[name]) == Some(l[k].title))
    {
      var i :| 0 <= i < |names| && l[k].path == "openings/" + names[i] && titles[names[i]] == Some(l[k].title);
      assert names[i] in dir;
    }
  }

  lemma ScanListed(titles: map<string, Option<string>>, names: seq<string>)
    requires Known(titles, names) && ScanNames(titles, names).Ok?
    ensures ScanNames(titles, names).value.openings == Listed(titles, names)
  {
    ScanContents(titles, names);
  }

  /** A successful scan_openings_directory lists every titled .txt file of the directory. */
  lemma ScanDirectoryComplete(dir: map<string, seq<string>>)
    requires ScanOpenings(dir).Ok?
    ensures forall name :: name in dir && ParseTitle(dir[name]).Some? ==>
      Opening("openings/" + name, ParseTitle(dir[name]).value) in ScanOpenings(dir).value
  {
    var titles := FileTitles(dir);
    var names := Sorted(dir.Keys);
    ScanContents(titles, names);
    ListedAll(titles, names);
    var l := ScanNames(titles, names).value.openings;
    forall name | name in dir && ParseTitle(dir[name]).Some?
      ensures Opening("openings/" + name, ParseTitle(dir[name]).value) in l
    {
      assert name in names;
      var i :| 0 <= i < |names| && names[i] == name;
      assert titles[names[i]] == ParseTitle(dir[name]);
    }
  }

  /** On a repeated title scan_openings_directory names two different files that carry it. */
  lemma ScanDirectoryDuplicate(dir: map<string, seq<string>>)
    requires ScanOpenings(dir).Err?
    ensures var e := ScanOpenings(dir).error;
      e.first in dir && e.second in dir && e.first != e.second &&
      ParseTitle(dir[e.first]) == Some(e.title) && ParseTitle(dir[e.second]) == Some(e.title)
  {
    ScanListMeaning(FileTitles(dir), Sorted(dir.Keys));
  }

  /** Every titled file of `names` is listed. */
  lemma {:induction false} ListedAll(titles: map<string, Option<string>>, names: seq<string>)
    requires Known(titles, names)
    ensures forall i :: 0 <= i < |names| && titles[names[i]].Some? ==>
      Opening("openings/" + names[i], titles[names[i]].value) in Listed(titles, names)
    decreases |names|
  {
    if names != [] {
      var init := names[..|names| - 1];
      ListedAll(titles, init);
      assert forall i :: 0 <= i < |init| ==> init[i] == names[i];
    }
  }

  // ---------------------------------------------------------------------------
  // update_html_file

  const SELECT_START: string := "<select id=\"preloadedSelect\""
  const SELECT_END: string := "</select>"
  const CLOSE_INDENT: string := Spaces(28)

  /** What replaces the old options. */
  function Middle(options: string): string {
    "\n" + options + "\n" + CLOSE_INDENT
  }

  /**
   * update_html_file on the page text: whether it was updated, and the new text.
   * Without the start marker, a '>' after it, or a "</select>" after that '>', the
   * text is left as it is.
   */
  function UpdateHtml(content: string, options: string): (bool, string) {
    var s := FindFrom(content, SELECT_START, 0);
    if s == -1 then (false, content)
    else
      var c := FindFrom(content, ">", s);
      if c == -1 then (false, content)
      else
        var e := FindFrom(content, SELECT_END, c);
        if e == -1 then (false, content)
        else (true, content[..c + 1] + Middle(options) + content[e..])
  }

  /** Some start marker is followed, further on, by a '>' and then by "</select>". */
  ghost predicate HasDropdown(content: string) {
    exists s, c, e :: 0 <= s <= c <= e && OccursAt(content, SELECT_START, s) && OccursAt(content, ">", c) && OccursAt(content, SELECT_END, e)
  }

  /** The page is rewritten exactly when it holds a dropdown; otherwise it is left unchanged. */
  lemma UpdateReportsDropdown(content: string, options: string)
    ensures UpdateHtml(content, options).0 <==> HasDropdown(content)
    ensures !UpdateHtml(content, options).0 ==> UpdateHtml(content, options).1 == content
  {
    if HasDropdown(content) {
      var s', c', e' :| 0 <= s' <= c' <= e' && OccursAt(content, SELECT_START, s') && OccursAt(content, ">", c') && OccursAt(content, SELECT_END, e');
      var s := FindFrom(content, SELECT_START, 0);
      assert s != -1 && s <= s';
      var c := FindFrom(content, ">", s);
      assert c != -1 && c <= c';
      var e := FindFrom(content, SELECT_END, c);
      assert e != -1;
    }
  }

  /** A one-character match is that character. */
  lemma CharAt(t: string, ch: char, i: int)
    requires OccursAt(t, [ch], i)
    ensures t[i] == ch
  {
    assert t[i] == t[i..i + 1][0];
  }

  lemma MarkerLengths()
    ensures |SELECT_START| == 28 && |SELECT_END| == 9
  {
  }

  /** No character of the marker is a '>', a line break or a space. */
  lemma MarkerChars()
    ensures '>' !in SELECT_START
    ensures '\n' !in SELECT_END && ' ' !in SELECT_END && SELECT_END[0] == '<'
  {
  }

  /** The first '>' at or after the start marker lies beyond the whole marker. */
  lemma MarkerBeforeClose(content: string, s: int, c: int)
    requires 0 <= s && OccursAt(content, SELECT_START, s)
    requires c == FindFrom(content, ">", s) && c >= 0
    ensures s + |SELECT_START| <= c && content[c] == '>'
  {
    CharAt(content, '>', c);
    MarkerChars();
    forall i | s <= i < s + |SELECT_START|
      ensures content[i] != '>'
    {
      assert content[i] == content[s..s + |SELECT_START|][i - s];
    }
  }

  /**
   * A rewrite keeps the text up to and including the '>' closing the start tag and
   * the text from "</select>" on; only what lies between is replaced.
   */
  lemma UpdateKeepsSurroundings(content: string, options: string)
    requires UpdateHtml(content, options).0
    ensures var s := FindFrom(content, SELECT_START, 0);
      var c := FindFrom(content, ">", s);
      var e := FindFrom(content, SELECT_END, c);
      0 <= s && s + |SELECT_START| <= c < e && content[c] == '>' && OccursAt(content, SELECT_START, s) && OccursAt(content, SELECT_END, e) &&
      UpdateHtml(content, options).1 == content[..c + 1] + Middle(options) + content[e..]
  {
    var s := FindFrom(content, SELECT_START, 0);
    var c := FindFrom(content, ">", s);
    var e := FindFrom(content, SELECT_END, c);
    MarkerLengths();
    UpdateHtmlIs(content, options, s, c, e);
    MarkerBeforeClose(content, s, c);
    assert content[e] == '<' by {
      EndMarkerStart(content, e);
    }
  }

  lemma EndMarkerStart(content: string, e: int)
    requires OccursAt(content, SELECT_END, e)
    ensures content[e] == '<'
  {
    MarkerChars();
    assert content[e..e + |SELECT_END|][0] == content[e];
  }

  lemma UpdateHtmlIs(content: string, options: string, s: int, c: int, e: int)
    requires s == FindFrom(content, SELECT_START, 0) && s >= 0
    requires c == FindFrom(content, ">", s) && c >= 0
    requires e == FindFrom(content, SELECT_END, c) && e >= 0
    ensures UpdateHtml(content, options) == (true, content[..c + 1] + Middle(options) + content[e..])
  {
  }

  /** find(p, from) is r when p occurs at r and nowhere between from and r. */
  lemma FindIs(t: string, p: string, from: nat, r: nat)
    requires from <= r && OccursAt(t, p, r)
    requires forall i :: from <= i < r ==> !OccursAt(t, p, i)
    ensures FindFrom(t, p, from) == r
  {
  }

  /** Where two texts agree up to position n, a search that succeeds before n finds the same place in both. */
  lemma SameInPrefix(a: string, b: string, n: nat, p: string, from: nat)
    requires n <= |a| && n <= |b| && a[..n] == b[..n]
    requires FindFrom(a, p, from) >= 0 && FindFrom(a, p, from) + |p| <= n
    ensures FindFrom(b, p, from) == FindFrom(a, p, from)
  {
    var r := FindFrom(a, p, from);
    OccursSame(a, b, n, p, r);
    forall i | from <= i < r
      ensures !OccursAt(b, p, i)
    {
      OccursSame(a, b, n, p, i);
    }
    FindIs(b, p, from, r);
  }

  lemma OccursSame(a: string, b: string, n: nat, p: string, i: int)
    requires n <= |a| && n <= |b| && a[..n] == b[..n]
    requires 0 <= i && i + |p| <= n
    ensures OccursAt(a, p, i) <==> OccursAt(b, p, i)
  {
    assert a[i..i + |p|] == a[..n][i..i + |p|];
    assert b[i..i + |p|] == b[..n][i..i + |p|];
  }

  /**
   * Rebuilding twice gives the page rebuilding once gave, as long as the options
   * do not themselves hold "</select>".
   */
  lemma UpdateIdempotent(content: string, options: string)
    requires !Contains(options, SELECT_END)
    ensures var once := UpdateHtml(content, options);
      UpdateHtml(once.1, options) == (once.0, once.1)
  {
    var once := UpdateHtml(content, options);
    if once.0 {
      var s, c, e := Searches(content, options);
      var head := content[..c + 1];
      var tail := content[e..];
      HeadKeepsMarkers(content, s, c);
      assert StartsWith(tail, SELECT_END) by {
        assert tail[..|SELECT_END|] == content[e..e + |SELECT_END|];
      }
      RewriteIsFixed(head, options, tail, s);
    }
  }

  /** The three searches of a successful rewrite. */
  lemma Searches(content: string, options: string) returns (s: int, c: int, e: int)
    requires UpdateHtml(content, options).0
    ensures 0 <= s == FindFrom(content, SELECT_START, 0)
    ensures 0 <= c == FindFrom(content, ">", s)
    ensures 0 <= e == FindFrom(content, SELECT_END, c)
    ensures UpdateHtml(content, options).1 == content[..c + 1] + Middle(options) + content[e..]
    ensures OccursAt(content, SELECT_END, e)
  {
    s := FindFrom(content, SELECT_START, 0);
    c := FindFrom(content, ">", s);
    e := FindFrom(content, SELECT_END, c);
  }

  /** Cut after the '>', the page still has its first start marker and that '>' at the same places. */
  lemma HeadKeepsMarkers(content: string, s: int, c: int)
    requires 0 <= s == FindFrom(content, SELECT_START, 0)
    requires 0 <= c == FindFrom(content, ">", s)
    ensures s + |SELECT_START| < c + 1 <= |content|
    ensures FindFrom(content[..c + 1], SELECT_START, 0) == s
    ensures FindFrom(content[..c + 1], ">", s) == c
  {
    MarkerBeforeClose(content, s, c);
    var head := content[..c + 1];
    assert content[..c + 1] == head[..c + 1];
    SameInPrefix(content, head, c + 1, SELECT_START, 0);
    SameInPrefix(content, head, c + 1, ">", s);
  }

  /** update_html_file's result once the three searches are known. */
  lemma UpdateAt(t: string, options: string, s: int, c: int, e: int)
    requires 0 <= s == FindFrom(t, SELECT_START, 0)
    requires 0 <= c == FindFrom(t, ">", s)
    requires 0 <= e == FindFrom(t, SELECT_END, c)
    ensures UpdateHtml(t, options) == (true, t[..c + 1] + Middle(options) + t[e..])
  {
  }

  /** The rewritten page: the same start marker and '>', then the first "</select>" just after the new options. */
  lemma RewriteIsFixed(head: string, options: string, tail: string, s: nat)
    requires !Contains(options, SELECT_END) && StartsWith(tail, SELECT_END)
    requires |head| >= 1 && s + |SELECT_START| < |head|
    requires FindFrom(head, SELECT_START, 0) == s
    requires FindFrom(head, ">", s) == |head| - 1
    ensures UpdateHtml(head + Middle(options) + tail, options) == (true, head + Middle(options) + tail)
  {
    var mid := Middle(options);
    var t := head + mid + tail;
    var c := |head| - 1;
    assert t[..|head|] == head;
    SameInPrefix(head, t, |head|, SELECT_START, 0);
    SameInPrefix(head, t, |head|, ">", s);
    CharAt(head, '>', c);
    MiddleHasNoEnd(head, options, tail);
    UpdateAt(t, options, s, c, |head| + |mid|);
    assert t[..c + 1] == head;
    assert t[|head| + |mid|..] == tail;
  }

  /** The options hold no "</select>" anywhere. */
  lemma NoEndAnywhere(options: string, j: int)
    requires !Contains(options, SELECT_END) && 0 <= j
    ensures !OccursAt(options, SELECT_END, j)
  {
  }

  /** p does not occur at i when some character of the window differs from p. */
  lemma MismatchAt(t: string, p: string, i: int, k: int)
    requires 0 <= i <= k < i + |p| && k < |t|
    requires t[k] != p[k - i]
    ensures !OccursAt(t, p, i)
  {
    if i + |p| <= |t| {
      assert t[i..i + |p|][k - i] == t[k];
    }
  }

  /** No "</select>" starts between the '>' and the end of the new options. */
  lemma NoEndBefore(head: string, options: string, tail: string, i: int)
    requires |head| >= 1 && head[|head| - 1] == '>'
    requires !Contains(options, SELECT_END)
    requires StartsWith(tail, SELECT_END)
    requires |head| - 1 <= i < |head| + |Middle(options)|
    ensures !OccursAt(head + Middle(options) + tail, SELECT_END, i)
  {
    var mid := Middle(options);
    var t := head + mid + tail;
    var n := |SELECT_END|;
    var second := |head| + 1 + |options|;
    MarkerChars();
    assert |t| >= |head| + |mid| + n;
    if i == |head| - 1 {
      assert t[i] == head[i];
      MismatchAt(t, SELECT_END, i, i);
    } else if i == |head| {
      assert t[i] == mid[0];
      MismatchAt(t, SELECT_END, i, i);
    } else if i + n <= second {
      var j := i - |head| - 1;
      assert t[i..i + n] == options[j..j + n];
      NoEndAnywhere(options, j);
    } else if i <= second {
      assert t[second] == mid[1 + |options|];
      assert SELECT_END[second - i] in SELECT_END;
      MismatchAt(t, SELECT_END, i, second);
    } else {
      assert t[i] == mid[i - |head|];
      assert mid[i - |head|] == CLOSE_INDENT[i - second - 1];
      MismatchAt(t, SELECT_END, i, i);
    }
  }

  /** After the '>' the first "</select>" is the one the kept suffix starts with. */
  lemma MiddleHasNoEnd(head: string, options: string, tail: string)
    requires |head| >= 1 && head[|head| - 1] == '>'
    requires !Contains(options, SELECT_END)
    requires StartsWith(tail, SELECT_END)
    ensures FindFrom(head + Middle(options) + tail, SELECT_END, |head| - 1) == |head| + |Middle(options)|
  {
    var t := head + Middle(options) + tail;
    var stop := |head| + |Middle(options)|;
    assert t[stop..stop + |SELECT_END|] == tail[..|SELECT_END|];
    forall i | |head| - 1 <= i < stop
      ensures !OccursAt(t, SELECT_END, i)
    {
      NoEndBefore(head, options, tail, i);
    }
    FindIs(t, SELECT_END, |head| - 1, stop);
  }
}
