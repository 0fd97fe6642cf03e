/**
 * The Python string primitives the tools rely on: str.strip, str.startswith,
 * str.endswith, str.find, the `in` test on strings, str.split (with and without a
 * maximum split count), str.join, str.isdigit and the code-point order that
 * sorted() uses on strings.  Strings are sequences of characters.
 */
module Text {

  /** Python's str.isspace() on one character. */
  predicate IsSpace(c: char) {
    || c == ' ' || c == '\t' || c == '\n' || c == '\r' || c == '\U{000B}' || c == '\U{000C}'
    || ('\U{001C}' <= c <= '\U{001F}') || c == '\U{0085}' || c == '\U{00A0}' || c == '\U{1680}'
    || ('\U{2000}' <= c <= '\U{200A}') || c == '\U{2028}' || c == '\U{2029}' || c == '\U{202F}'
    || c == '\U{205F}' || c == '\U{3000}'
  }

  /** The ASCII decimal digits (str.isdigit() restricted to '0'..'9'). */
  predicate IsDigit(c: char) {
    '0' <= c <= '9'
  }

  function DigitValue(c: char): (d: nat)
    requires IsDigit(c)
    ensures d <= 9
  {
    (c as int) - ('0' as int)
  }

  /** The character for a single decimal digit, as str(d) gives it for d <= 9. */
  function DigitChar(d: nat): (c: char)
    requires d <= 9
    ensures IsDigit(c) && DigitValue(c) == d
  {
    (('0' as int) + d) as char
  }

  /** A string with no white space at either end. */
  predicate IsStripped(s: string) {
    s == [] || (!IsSpace(s[0]) && !IsSpace(s[|s| - 1]))
  }

  /** s without its leading white space. */
  function TrimStart(s: string): (r: string)
    ensures |r| <= |s|
    ensures r == [] || !IsSpace(r[0])
    decreases |s|
  {
    if s != [] && IsSpace(s[0]) then TrimStart(s[1..]) else s
  }

  /** s without its trailing white space. */
  function TrimEnd(s: string): (r: string)
    ensures |r| <= |s|
    ensures r != [] ==> r[0] == s[0]
    ensures r == [] || !IsSpace(r[|r| - 1])
    decreases |s|
  {
    if s != [] && IsSpace(s[|s| - 1]) then TrimEnd(s[..|s| - 1]) else s
  }

  /** Python's str.strip(): s without the white space at either end. */
  function Strip(s: string): (r: string)
    ensures IsStripped(r)
    ensures |r| <= |s|
  {
    TrimEnd(TrimStart(s))
  }

  /** A string that does not start with white space keeps its first character through a strip. */
  lemma StripKeepsFirst(s: string)
    requires s != [] && !IsSpace(s[0])
    ensures Strip(s) != [] && Strip(s)[0] == s[0]
  {
    assert TrimStart(s) == s;
    TrimEndKeepsFirst(s);
  }

  lemma {:induction false} TrimEndKeepsFirst(s: string)
    requires s != [] && !IsSpace(s[0])
    ensures TrimEnd(s) != []
    decreases |s|
  {
    if IsSpace(s[|s| - 1]) {
      TrimEndKeepsFirst(s[..|s| - 1]);
    }
  }

  /** Stripping leaves a string alone exactly when it has no white space at its ends. */
  lemma StripIsIdentity(s: string)
    ensures Strip(s) == s <==> IsStripped(s)
  {
    if IsStripped(s) {
      assert TrimStart(s) == s;
      assert TrimEnd(s) == s;
    }
  }

  /** Stripping twice is stripping once. */
  lemma StripIdempotent(s: string)
    ensures Strip(Strip(s)) == Strip(s)
  {
    StripIsIdentity(Strip(s));
  }

  lemma {:induction false} TrimStartAfterSpaces(w: string, s: string)
    requires forall i :: 0 <= i < |w| ==> IsSpace(w[i])
    ensures TrimStart(w + s) == TrimStart(s)
    decreases |w|
  {
    if w == [] {
      assert w + s == s;
    } else {
      assert (w + s)[0] == w[0];
      assert (w + s)[1..] == w[1..] + s;
      TrimStartAfterSpaces(w[1..], s);
    }
  }

  /** Leading white space never survives a strip. */
  lemma StripAfterSpaces(w: string, s: string)
    requires forall i :: 0 <= i < |w| ==> IsSpace(w[i])
    ensures Strip(w + s) == Strip(s)
  {
    TrimStartAfterSpaces(w, s);
  }

  /** One trailing space is stripped away. */
  lemma StripTrailingSpace(a: string)
    requires IsStripped(a) && a != ""
    ensures Strip(a + " ") == a
  {
    var t := a + " ";
    assert t[0] == a[0];
    assert TrimStart(t) == t;
    assert t[..|t| - 1] == a;
    assert TrimEnd(t) == TrimEnd(a);
    assert TrimEnd(a) == a;
  }

  /** One leading space is stripped away. */
  lemma StripLeadingSpace(b: string)
    requires IsStripped(b)
    ensures Strip(" " + b) == b
  {
    StripAfterSpaces(" ", b);
    StripIsIdentity(b);
  }

  /** One space on either side is stripped away. */
  lemma StripSpaced(t: string)
    requires IsStripped(t) && t != ""
    ensures Strip(" " + t + " ") == t
  {
    assert " " + t + " " == " " + (t + " ");
    StripAfterSpaces(" ", t + " ");
    StripTrailingSpace(t);
  }

  /** Concatenation is associative (stated once so that heavy contexts need not rediscover it). */
  lemma AppendAssoc<T>(a: seq<T>, b: seq<T>, c: seq<T>)
    ensures a + b + c == a + (b + c)
  {
  }

  lemma AppendAssoc3<T>(a: seq<T>, b: seq<T>, c: seq<T>, d: seq<T>)
    ensures a + b + c + d == a + (b + c + d)
  {
    AppendAssoc(a, b, c);
    AppendAssoc(a, b + c, d);
  }

  predicate StartsWith(s: string, prefix: string) {
    |prefix| <= |s| && s[..|prefix|] == prefix
  }

  predicate EndsWith(s: string, suffix: string) {
    |suffix| <= |s| && s[|s| - |suffix|..] == suffix
  }

  predicate OccursAt(s: string, p: string, i: int) {
    0 <= i && i + |p| <= |s| && s[i..i + |p|] == p
  }

  /** Python's s.find(p, from): the lowest index at or after from where p occurs, or -1. */
  function FindFrom(s: string, p: string, from: nat): (r: int)
    ensures r == -1 || (from <= r && OccursAt(s, p, r))
    ensures forall i :: from <= i && (r == -1 || i < r) ==> !OccursAt(s, p, i)
    decreases |s| - from
  {
    if from + |p| > |s| then -1
    else if s[from..from + |p|] == p then from
    else FindFrom(s, p, from + 1)
  }

  /** Python's `p in s`. */
  predicate Contains(s: string, p: string) {
    FindFrom(s, p, 0) >= 0
  }

  lemma ContainsAt(s: string, p: string, i: int)
    requires OccursAt(s, p, i)
    ensures Contains(s, p)
  {
  }

  /** What occurs in s still occurs once something is put in front of it. */
  lemma ContainsAfter(w: string, s: string, p: string)
    requires Contains(s, p)
    ensures Contains(w + s, p)
  {
    var i := FindFrom(s, p, 0);
    assert (w + s)[|w| + i..|w| + i + |p|] == s[i..i + |p|];
    ContainsAt(w + s, p, |w| + i);
  }

  lemma ContainsChar(s: string, c: char)
    ensures Contains(s, [c]) <==> c in s
  {
    if c in s {
      var i :| 0 <= i < |s| && s[i] == c;
      assert OccursAt(s, [c], i);
    }
    if Contains(s, [c]) {
      var i := FindFrom(s, [c], 0);
      assert s[i..i + 1] == [c];
      assert s[i] == c;
    }
  }

  /** A string without '-' holds no "->". */
  lemma NoDashNoArrow(s: string)
    requires '-' !in s
    ensures !Contains(s, "->")
  {
    forall i | 0 <= i && i + 2 <= |s|
      ensures !OccursAt(s, "->", i)
    {
      assert s[i..i + 2][0] == s[i];
    }
  }

  /** For a one-character pattern, find returns the first index holding that character. */
  lemma FindChar(a: string, c: char, b: string)
    requires c !in a
    ensures FindFrom(a + [c] + b, [c], 0) == |a|
  {
    var s := a + [c] + b;
    assert s[|a|..|a| + 1] == [c];
    assert OccursAt(s, [c], |a|);
    forall i | 0 <= i < |a|
      ensures !OccursAt(s, [c], i)
    {
      assert s[i] == a[i];
      assert s[i..i + 1][0] == s[i];
    }
  }

  lemma NotContainsChar(s: string, c: char)
    requires c !in s
    ensures FindFrom(s, [c], 0) == -1
  {
    ContainsChar(s, c);
  }

  /** Python's sep.join(parts). */
  function Join(sep: string, parts: seq<string>): string {
    if |parts| == 0 then ""
    else if |parts| == 1 then parts[0]
    else parts[0] + sep + Join(sep, parts[1..])
  }

  /** Every part occurs in the joined string. */
  lemma {:induction false} JoinHasParts(sep: string, parts: seq<string>, k: nat)
    requires k < |parts|
    ensures Contains(Join(sep, parts), parts[k])
    decreases k
  {
    var s := Join(sep, parts);
    if k == 0 {
      assert s[0..|parts[0]|] == parts[0];
      ContainsAt(s, parts[0], 0);
    } else {
      JoinHasParts(sep, parts[1..], k - 1);
      ContainsAfter(parts[0] + sep, Join(sep, parts[1..]), parts[k]);
    }
  }

  /** A character found in neither the parts nor the separator is not in their join. */
  lemma {:induction false} JoinAvoids(sep: string, parts: seq<string>, c: char)
    requires c !in sep && forall k :: 0 <= k < |parts| ==> c !in parts[k]
    ensures c !in Join(sep, parts)
    decreases |parts|
  {
    if |parts| > 1 {
      JoinAvoids(sep, parts[1..], c);
    }
  }

  /** Joining non-empty stripped parts gives a non-empty stripped string. */
  lemma {:induction false} JoinStripped(sep: string, parts: seq<string>)
    requires |parts| >= 1
    requires forall k :: 0 <= k < |parts| ==> parts[k] != "" && IsStripped(parts[k])
    ensures Join(sep, parts) != "" && IsStripped(Join(sep, parts))
    decreases |parts|
  {
    if |parts| > 1 {
      var rest := Join(sep, parts[1..]);
      JoinStripped(sep, parts[1..]);
      var s := parts[0] + sep + rest;
      assert s[0] == parts[0][0];
      assert s[|s| - 1] == rest[|rest| - 1];
    }
  }

  /** Python's s.split(sep) for a non-empty separator; joining the pieces gives s back. */
  function Split(s: string, sep: string): (parts: seq<string>)
    requires sep != ""
    ensures |parts| >= 1
    ensures Join(sep, parts) == s
    ensures forall k :: 0 <= k < |parts| ==> !Contains(parts[k], sep)
    decreases |s|
  {
    var i := FindFrom(s, sep, 0);
    if i < 0 then [s]
    else
      var head := s[..i];
      var rest := Split(s[i + |sep|..], sep);
      assert s == head + sep + s[i + |sep|..];
      assert !Contains(head, sep) by {
        OccursInPrefix(s, sep, i, FindFrom(head, sep, 0));
      }
      [head] + rest
  }

  /** An occurrence in a prefix of s is an occurrence in s that ends within the prefix. */
  lemma OccursInPrefix(s: string, p: string, n: nat, j: int)
    requires n <= |s|
    ensures OccursAt(s[..n], p, j) ==> OccursAt(s, p, j) && j + |p| <= n
  {
    if 0 <= j && j + |p| <= n {
      assert s[..n][j..j + |p|] == s[j..j + |p|];
    }
  }

  /** Python's s.split(sep, 1): at most two pieces, cut at the first occurrence. */
  function SplitOnce(s: string, sep: string): (parts: seq<string>)
    requires sep != ""
    ensures |parts| == 1 <==> !Contains(s, sep)
    ensures |parts| == 1 ==> parts[0] == s
    ensures |parts| == 2 ==> parts[0] + sep + parts[1] == s && !Contains(parts[0], sep)
    ensures |parts| == 1 || |parts| == 2
  {
    var i := FindFrom(s, sep, 0);
    if i < 0 then [s]
    else
      assert s == s[..i] + sep + s[i + |sep|..];
      assert !Contains(s[..i], sep) by {
        OccursInPrefix(s, sep, i, FindFrom(s[..i], sep, 0));
      }
      [s[..i], s[i + |sep|..]]
  }

  /**
   * Splitting at a one-character separator undoes joining with it, provided no piece
   * holds that character.
   */
  lemma {:induction false} SplitJoinChar(parts: seq<string>, c: char)
    requires |parts| >= 1
    requires forall k :: 0 <= k < |parts| ==> c !in parts[k]
    ensures Split(Join([c], parts), [c]) == parts
  {
    if |parts| == 1 {
      NotContainsChar(parts[0], c);
    } else {
      var s := Join([c], parts);
      assert s == parts[0] + [c] + Join([c], parts[1..]);
      FindChar(parts[0], c, Join([c], parts[1..]));
      assert s[..|parts[0]|] == parts[0];
      assert s[|parts[0]| + 1..] == Join([c], parts[1..]);
      SplitJoinChar(parts[1..], c);
    }
  }

  lemma JoinAppend(sep: string, parts: seq<string>, last: string)
    requires |parts| >= 1
    ensures Join(sep, parts + [last]) == Join(sep, parts) + sep + last
  {
    if |parts| == 1 {
      assert parts + [last] == [parts[0], last];
    } else {
      assert (parts + [last])[1..] == parts[1..] + [last];
      JoinAppend(sep, parts[1..], last);
    }
  }

  /** Python's `a < b` on strings: code-point lexicographic order. */
  predicate LexLess(a: string, b: string) {
    if a == [] then b != []
    else if b == [] then false
    else if a[0] != b[0] then a[0] < b[0]
    else LexLess(a[1..], b[1..])
  }

  lemma LexLessIrreflexive(a: string)
    ensures !LexLess(a, a)
  {
  }

  lemma {:induction false} LexLessTransitive(a: string, b: string, c: string)
    requires LexLess(a, b) && LexLess(b, c)
    ensures LexLess(a, c)
  {
    if a != [] && b != [] && c != [] && a[0] == b[0] && b[0] == c[0] {
      LexLessTransitive(a[1..], b[1..], c[1..]);
    }
  }

  lemma {:induction false} LexLessTotal(a: string, b: string)
    ensures a == b || LexLess(a, b) || LexLess(b, a)
  {
    if a != [] && b != [] && a[0] == b[0] {
      LexLessTotal(a[1..], b[1..]);
      if a[1..] == b[1..] {
        assert a == [a[0]] + a[1..] && b == [b[0]] + b[1..];
      }
    }
  }

  lemma {:induction false} LexLessAsymmetric(a: string, b: string)
    requires LexLess(a, b)
    ensures !LexLess(b, a)
  {
    if a != [] && b != [] && a[0] == b[0] {
      LexLessAsymmetric(a[1..], b[1..]);
    }
  }

  /** A common prefix keeps code-point order. */
  lemma {:induction false} LexLessPrefixed(p: string, a: string, b: string)
    requires LexLess(a, b)
    ensures LexLess(p + a, p + b)
    decreases |p|
  {
    if p != [] {
      assert (p + a)[0] == (p + b)[0] == p[0];
      assert (p + a)[1..] == p[1..] + a && (p + b)[1..] == p[1..] + b;
      LexLessPrefixed(p[1..], a, b);
    } else {
      assert p + a == a && p + b == b;
    }
  }

  /** m is the least element of s in code-point order. */
  predicate IsLeast(m: string, s: set<string>) {
    m in s && forall x :: x in s && x != m ==> LexLess(m, x)
  }

  lemma {:induction false} LeastExists(s: set<string>)
    requires s != {}
    ensures exists m :: IsLeast(m, s)
    decreases |s|
  {
    var x :| x in s;
    if s != {x} {
      LeastExists(s - {x});
      var m :| IsLeast(m, s - {x});
      LexLessTotal(m, x);
      if LexLess(m, x) {
        assert IsLeast(m, s);
      } else {
        assert LexLess(x, m);
        forall y | y in s && y != x
          ensures LexLess(x, y)
        {
          if y != m {
            LexLessTransitive(x, m, y);
          }
        }
        assert IsLeast(x, s);
      }
    } else {
      assert IsLeast(x, s);
    }
  }

  lemma LeastUnique(s: set<string>)
    ensures forall m, n :: IsLeast(m, s) && IsLeast(n, s) ==> m == n
  {
    forall m, n | IsLeast(m, s) && IsLeast(n, s)
      ensures m == n
    {
      if m != n {
        LexLessAsymmetric(m, n);
      }
    }
  }

  predicate StrictlyIncreasing(r: seq<string>) {
    forall i, j :: 0 <= i < j < |r| ==> LexLess(r[i], r[j])
  }

  /** Python's sorted() applied to a set of strings: its elements in ascending order. */
  function Sorted(s: set<string>): (r: seq<string>)
    ensures |r| == |s|
    ensures forall x :: x in r <==> x in s
    ensures StrictlyIncreasing(r)
    decreases |s|
  {
    if s == {} then []
    else
      LeastExists(s);
      LeastUnique(s);
      var m :| IsLeast(m, s);
      var rest := Sorted(s - {m});
      LeastThenRest(m, s, rest);
      [m] + rest
  }

  /** The least element followed by the others in ascending order is s in ascending order. */
  lemma LeastThenRest(m: string, s: set<string>, rest: seq<string>)
    requires IsLeast(m, s)
    requires |rest| == |s - {m}| && (forall x :: x in rest <==> x in s - {m}) && StrictlyIncreasing(rest)
    ensures |[m] + rest| == |s| && (forall x :: x in [m] + rest <==> x in s) && StrictlyIncreasing([m] + rest)
  {
    var r := [m] + rest;
    forall i, j | 0 <= i < j < |r| ensures LexLess(r[i], r[j]) {
      assert r[j] == rest[j - 1] && r[j] in s - {m};
      if i > 0 {
        assert r[i] == rest[i - 1];
      }
    }
  }

  /** A title line "= " + title starts with "=" and reads back as the title. */
  lemma TitleLineReads(title: string)
    requires IsStripped(title)
    ensures StartsWith(Strip("= " + title), "=")
    ensures Strip(Strip("= " + title)[1..]) == title
  {
    if title == "" {
      EmptyTitleLineReads();
      assert "= " + title == "= ";
    } else {
      var line := "= " + title;
      assert line[0] == '=' && line[|line| - 1] == title[|title| - 1];
      StripIsIdentity(line);
      assert line[1..] == " " + title;
      StripLeadingSpace(title);
    }
  }

  lemma EmptyTitleLineReads()
    ensures Strip("= ") == "=" && StartsWith("=", "=") && Strip("="[1..]) == ""
  {
    StripTrailingSpace("=");
    assert "="[1..] == "";
    StripIsIdentity("");
  }

  // ---------------------------------------------------------------------------
  // Lines of the form  a -> b

  /** A token that can stand on either side of " -> " and be read back unchanged. */
  predicate PlainToken(s: string) {
    s != "" && IsStripped(s) && !Contains(s, "->") && !StartsWith(s, "#")
  }

  /** The first "->" in a + " -> " + b is the one written between them. */
  lemma ArrowFirstAt(a: string, b: string)
    requires !Contains(a, "->")
    ensures FindFrom(a + " -> " + b, "->", 0) == |a| + 1
  {
    var line := a + " -> " + b;
    assert line[|a| + 1..|a| + 3] == "->";
    assert OccursAt(line, "->", |a| + 1);
    forall i | 0 <= i < |a| + 1
      ensures !OccursAt(line, "->", i)
    {
      if i + 2 <= |a| {
        assert !OccursAt(a, "->", i);
        assert line[i..i + 2] == a[i..i + 2];
      } else if i + 1 == |a| {
        assert line[i + 1] == ' ';
        assert line[i..i + 2][1] == line[i + 1];
      } else {
        assert line[i] == ' ';
        assert line[i..i + 2][0] == line[i];
      }
    }
  }

  /** A leading character other than '-' cannot start an arrow. */
  lemma NoArrowAfter(c: char, b: string)
    requires c != '-' && !Contains(b, "->")
    ensures FindFrom([c] + b, "->", 0) == -1
  {
    var t := [c] + b;
    forall i | 0 <= i
      ensures !OccursAt(t, "->", i)
    {
      if i == 0 {
        assert t[0] == c;
        if 2 <= |t| {
          assert t[0..2][0] == t[0];
        }
      } else {
        assert !OccursAt(b, "->", i - 1);
        if i + 2 <= |t| {
          assert t[i..i + 2] == b[i - 1..i + 1];
        }
      }
    }
  }

  /** No arrow straddles a junction unless the first part ends in '-' and the second starts with '>'. */
  lemma NoArrowConcat(a: string, b: string)
    requires !Contains(a, "->") && !Contains(b, "->")
    requires a == "" || b == "" || a[|a| - 1] != '-' || b[0] != '>'
    ensures !Contains(a + b, "->")
  {
    var t := a + b;
    forall i | 0 <= i
      ensures !OccursAt(t, "->", i)
    {
      if i + 2 <= |t| {
        if i + 2 <= |a| {
          assert !OccursAt(a, "->", i);
          assert t[i..i + 2] == a[i..i + 2];
        } else if i >= |a| {
          assert !OccursAt(b, "->", i - |a|);
          assert t[i..i + 2] == b[i - |a|..i - |a| + 2];
        } else {
          assert t[i] == a[|a| - 1] && t[i + 1] == b[0];
          assert t[i..i + 2][0] == t[i] && t[i..i + 2][1] == t[i + 1];
        }
      }
    }
  }

  /** How a line a + " -> " + b of two plain tokens strips and splits. */
  lemma ArrowLineSplits(a: string, b: string)
    requires PlainToken(a) && PlainToken(b)
    ensures Strip(a + " -> " + b) == a + " -> " + b
    ensures !StartsWith(a + " -> " + b, "#") && Contains(a + " -> " + b, "->")
    ensures Split(a + " -> " + b, "->") == [a + " ", " " + b]
    ensures SplitOnce(a + " -> " + b, "->") == [a + " ", " " + b]
    ensures Strip(a + " ") == a && Strip(" " + b) == b
  {
    var line := a + " -> " + b;
    assert line[0] == a[0] && line[|line| - 1] == b[|b| - 1];
    StripIsIdentity(line);
    assert line[..1] == a[..1];
    ArrowLineParts(a, b);
    StripTrailingSpace(a);
    StripLeadingSpace(b);
  }

  /** a + " -> " + b splits at its one arrow, with the spaces around it kept. */
  lemma ArrowLineParts(a: string, b: string)
    requires !Contains(a, "->") && !Contains(b, "->")
    ensures Contains(a + " -> " + b, "->")
    ensures Split(a + " -> " + b, "->") == [a + " ", " " + b]
    ensures SplitOnce(a + " -> " + b, "->") == [a + " ", " " + b]
  {
    var line := a + " -> " + b;
    ArrowFirstAt(a, b);
    NoArrowAfter(' ', b);
    assert line[..|a| + 1] == a + " ";
    assert line[|a| + 3..] == " " + b;
    SplitWithout(" " + b, "->");
    SplitAtFirst(line, "->", |a| + 1);
  }

  // ---------------------------------------------------------------------------
  // Lines of the form  a -> b  with the tokens str.strip() leaves

  /** What stands before the arrow once a + " -> " + b is stripped. */
  function ArrowHead(a: string): string {
    if a == "" then "" else a + " "
  }

  /** What stands after the arrow once a + " -> " + b is stripped. */
  function ArrowTail(b: string): string {
    if b == "" then "" else " " + b
  }

  /** Stripping a + " -> " + b loses only the spaces next to an empty token. */
  lemma ArrowLineStripped(a: string, b: string)
    requires IsStripped(a) && IsStripped(b)
    ensures Strip(a + " -> " + b) == ArrowHead(a) + "->" + ArrowTail(b)
  {
    ArrowLineTrimStart(a, b);
    ArrowLineTrimEnd(ArrowHead(a), b);
  }

  lemma ArrowLineTrimStart(a: string, b: string)
    requires IsStripped(a)
    ensures TrimStart(a + " -> " + b) == ArrowHead(a) + "-> " + b
  {
    var line := a + " -> " + b;
    var rest := "-> " + b;
    if a == "" {
      assert line == " " + rest;
      TrimStartAfterSpaces(" ", rest);
      assert TrimStart(rest) == rest;
    } else {
      assert line[0] == a[0];
      assert line == ArrowHead(a) + rest;
    }
  }

  lemma ArrowLineTrimEnd(h: string, b: string)
    requires IsStripped(b)
    ensures TrimEnd(h + "-> " + b) == h + "->" + ArrowTail(b)
  {
    var t := h + "->";
    assert t[|t| - 1] == '>';
    assert "->" + " " == "-> ";
    AppendAssoc(h, "->", " ");
    if b == "" {
      assert h + "-> " + b == t + " ";
      TrimEndOneSpace(t);
    } else {
      AppendAssoc(t, " ", b);
      var u := t + ArrowTail(b);
      assert h + "-> " + b == u;
      assert u[|u| - 1] == b[|b| - 1];
      TrimEndKept(u);
    }
  }

  lemma TrimEndKept(s: string)
    requires s != [] && !IsSpace(s[|s| - 1])
    ensures TrimEnd(s) == s
  {
  }

  lemma TrimEndOneSpace(s: string)
    requires s != [] && !IsSpace(s[|s| - 1])
    ensures TrimEnd(s + " ") == s
  {
    var t := s + " ";
    assert IsSpace(t[|t| - 1]);
    assert t[..|t| - 1] == s;
    TrimEndKept(s);
  }

  /** The first "->" of ArrowHead(a) + "->" + r is the one after the head. */
  lemma ArrowAfterHead(a: string, r: string)
    requires !Contains(a, "->")
    ensures FindFrom(ArrowHead(a) + "->" + r, "->", 0) == |ArrowHead(a)|
  {
    var line := ArrowHead(a) + "->" + r;
    var h := |ArrowHead(a)|;
    assert line[h..h + 2] == "->";
    assert OccursAt(line, "->", h);
    forall i | 0 <= i < h
      ensures !OccursAt(line, "->", i)
    {
      if i + 2 <= |a| {
        assert !OccursAt(a, "->", i);
        assert line[i..i + 2] == a[i..i + 2];
      } else if i + 1 == |a| {
        assert line[i + 1] == ' ';
        assert line[i..i + 2][1] == line[i + 1];
      } else {
        assert line[i] == ' ';
        assert line[i..i + 2][0] == line[i];
      }
    }
  }

  /**
   * The line a + " -> " + b, for a stripped a without "->" and a stripped b (either
   * may be empty, and b may hold arrows), strips to a line that splits at its first
   * arrow into pieces that strip back to a and b.
   */
  lemma ArrowLineReadsAs(a: string, b: string)
    requires IsStripped(a) && !Contains(a, "->") && IsStripped(b)
    ensures var line := Strip(a + " -> " + b);
      line != "" && Contains(line, "->") && |SplitOnce(line, "->")| == 2 &&
      Strip(SplitOnce(line, "->")[0]) == a && Strip(SplitOnce(line, "->")[1]) == b
    ensures !StartsWith(a, "#") ==> !StartsWith(Strip(a + " -> " + b), "#")
  {
    var h, t := ArrowHead(a), ArrowTail(b);
    var line := h + "->" + t;
    ArrowLineStripped(a, b);
    ArrowAfterHead(a, t);
    assert line[..|h|] == h;
    assert line[|h| + 2..] == t;
    SplitAtFirst(line, "->", |h|);
    if a != "" {
      StripTrailingSpace(a);
      assert line[..1] == a[..1];
    } else {
      assert line[..1] == "-";
    }
    if b != "" {
      StripLeadingSpace(b);
    }
  }

  /** Where the stripped string sits in s: after leading and before trailing white space. */
  lemma StripSlice(s: string)
    ensures var n := |s| - |TrimStart(s)|;
      n + |Strip(s)| <= |s| && Strip(s) == s[n..n + |Strip(s)|] &&
      (forall k :: 0 <= k < n ==> IsSpace(s[k])) &&
      (forall k :: n + |Strip(s)| <= k < |s| ==> IsSpace(s[k]))
  {
    var t := TrimStart(s);
    var n := |s| - |t|;
    TrimStartDrops(s);
    TrimEndDrops(t);
    var m := |TrimEnd(t)|;
    assert t == s[n..];
    assert Strip(s) == t[..m];
    assert t[..m] == s[n..n + m];
    forall k | n + m <= k < |s|
      ensures IsSpace(s[k])
    {
      assert s[k] == t[k - n];
    }
  }

  lemma {:induction false} TrimStartDrops(s: string)
    ensures TrimStart(s) == s[|s| - |TrimStart(s)|..]
    ensures forall k :: 0 <= k < |s| - |TrimStart(s)| ==> IsSpace(s[k])
    decreases |s|
  {
    if s != [] && IsSpace(s[0]) {
      TrimStartDrops(s[1..]);
      assert forall k :: 1 <= k < |s| ==> s[k] == s[1..][k - 1];
    }
  }

  lemma {:induction false} TrimEndDrops(s: string)
    ensures TrimEnd(s) == s[..|TrimEnd(s)|]
    ensures forall k :: |TrimEnd(s)| <= k < |s| ==> IsSpace(s[k])
    decreases |s|
  {
    if s != [] && IsSpace(s[|s| - 1]) {
      TrimEndDrops(s[..|s| - 1]);
      assert forall k :: 0 <= k < |s| - 1 ==> s[k] == s[..|s| - 1][k];
    }
  }

  /** Stripping adds no character. */
  lemma CharInStrip(s: string, c: char)
    requires c in Strip(s)
    ensures c in s
  {
    StripSlice(s);
    var n := |s| - |TrimStart(s)|;
    var i :| 0 <= i < |Strip(s)| && Strip(s)[i] == c;
    assert s[n + i] == c;
  }

  /** An arrow survives a strip, and stripping makes none. */
  lemma StripKeepsArrows(s: string)
    ensures Contains(Strip(s), "->") <==> Contains(s, "->")
  {
    if Contains(Strip(s), "->") {
      StripMakesNoArrow(s);
    }
    if Contains(s, "->") {
      StripKeepsArrow(s);
    }
  }

  lemma StripMakesNoArrow(s: string)
    requires Contains(Strip(s), "->")
    ensures Contains(s, "->")
  {
    StripSlice(s);
    var r := Strip(s);
    var n := |s| - |TrimStart(s)|;
    var i := FindFrom(r, "->", 0);
    assert r[i] == s[n + i] && r[i + 1] == s[n + i + 1];
    assert s[n + i..n + i + 2] == r[i..i + 2];
    ContainsAt(s, "->", n + i);
  }

  lemma StripKeepsArrow(s: string)
    requires Contains(s, "->")
    ensures Contains(Strip(s), "->")
  {
    StripSlice(s);
    var r := Strip(s);
    var n := |s| - |TrimStart(s)|;
    var i := FindFrom(s, "->", 0);
    var w := s[i..i + 2];
    assert w == "->";
    assert w[0] == s[i] && w[1] == s[i + 1];
    assert s[i] == '-' && s[i + 1] == '>';
    assert !IsSpace(s[i]) && !IsSpace(s[i + 1]);
    assert n <= i;
    assert i + 2 <= n + |r|;
    assert r[i - n] == s[i] && r[i - n + 1] == s[i + 1];
    assert r[i - n..i - n + 2] == "->";
    ContainsAt(r, "->", i - n);
  }

  lemma SplitWithout(s: string, sep: string)
    requires sep != "" && FindFrom(s, sep, 0) < 0
    ensures Split(s, sep) == [s]
  {
  }

  lemma SplitAtFirst(s: string, sep: string, i: nat)
    requires sep != "" && FindFrom(s, sep, 0) == i
    ensures Split(s, sep) == [s[..i]] + Split(s[i + |sep|..], sep)
    ensures SplitOnce(s, sep) == [s[..i], s[i + |sep|..]]
  {
  }
}
