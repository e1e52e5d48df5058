/** The text parsing in `generate_career_paths` (main.py): the model's reply
    is cut at "//" into career paths, each path into lines, and each line is
    filed under the first label it contains. The chat-completion call that
    produces the text is not modelled; its text is the input here. */
module CareerText {
  import opened Common

  /** The keys of a parsed career path, in the order the labels are tried. */
  datatype Field = Title | Description | RequiredSkills | Education | Progression

  function Name(f: Field): string {
    match f
    case Title => "Job Title"
    case Description => "Description"
    case RequiredSkills => "Required Skills"
    case Education => "Education"
    case Progression => "Career Progression"
  }

  /** The label that introduces a field's line. */
  function Label(f: Field): (r: string)
    ensures |r| > 0 && r[|r| - 1] == ':'
  {
    Name(f) + ":"
  }

  /** The characters a label is made of: a name free of ':', newlines and
      '/', starting with a capital letter. */
  lemma NameShape(f: Field)
    ensures ':' !in Name(f) && '\n' !in Name(f) && '/' !in Name(f)
    ensures |Name(f)| >= 5 && 'A' <= Name(f)[0] <= 'Z'
  {
    var n := Name(f);
    assert forall k :: 0 <= k < |n| ==> n[k] == ' ' || 'A' <= n[k] by {
      match f
      case Title => assert n == "Job Title";
      case Description => assert n == "Description";
      case RequiredSkills => assert n == "Required Skills";
      case Education => assert n == "Education";
      case Progression => assert n == "Career Progression";
    }
    NoMarks(n);
  }

  /** Letters and spaces include none of ':', newline and '/'. */
  lemma NoMarks(n: string)
    requires forall k :: 0 <= k < |n| ==> n[k] == ' ' || 'A' <= n[k]
    ensures ':' !in n && '\n' !in n && '/' !in n
  {
  }

  /** The fifth character from the end of a name tells the fields apart. */
  function KeyChar(f: Field): char {
    match f
    case Title => 'T'
    case Description => 'p'
    case RequiredSkills => 'k'
    case Education => 'a'
    case Progression => 's'
  }

  lemma NameKeyChar(f: Field)
    ensures |Name(f)| >= 5 && Name(f)[|Name(f)| - 5] == KeyChar(f)
  {
    match f
    case Title => assert Name(f) == "Job Title";
    case Description => assert Name(f) == "Description";
    case RequiredSkills => assert Name(f) == "Required Skills";
    case Education => assert Name(f) == "Education";
    case Progression => assert Name(f) == "Career Progression";
  }

  lemma KeyCharDistinct(f: Field, g: Field)
    requires f != g
    ensures KeyChar(f) != KeyChar(g)
  {
  }

  lemma InFieldOrder(f: Field)
    ensures f in FieldOrder
  {
    match f
    case Title => assert FieldOrder[0] == f;
    case Description => assert FieldOrder[1] == f;
    case RequiredSkills => assert FieldOrder[2] == f;
    case Education => assert FieldOrder[3] == f;
    case Progression => assert FieldOrder[4] == f;
  }

  /** Position of a field's label in the order the labels are tried. */
  function Rank(f: Field): nat {
    match f
    case Title => 0
    case Description => 1
    case RequiredSkills => 2
    case Education => 3
    case Progression => 4
  }

  const FieldOrder: seq<Field> := [Title, Description, RequiredSkills, Education, Progression]

  /** One `path_dict`: the fields found so far and their text. */
  type CareerPath = map<Field, string>

  /** The field a line is filed under: the first label, in `FieldOrder`,
      that occurs in it, or none. */
  function LineField(line: string): (r: Option<Field>)
    ensures r.Some? ==> Contains(line, Label(r.value))
    ensures r.Some? ==> forall g :: Rank(g) < Rank(r.value) ==> !Contains(line, Label(g))
    ensures r.None? ==> forall g :: !Contains(line, Label(g))
  {
    if Contains(line, Label(Title)) then Some(Title)
    else if Contains(line, Label(Description)) then Some(Description)
    else if Contains(line, Label(RequiredSkills)) then Some(RequiredSkills)
    else if Contains(line, Label(Education)) then Some(Education)
    else if Contains(line, Label(Progression)) then Some(Progression)
    else None
  }

  /** The field a line sets, if any: blank lines are skipped before any
      label is looked for. */
  function Filed(line: string): Option<Field> {
    if Trim(Py, line) == [] then None else LineField(line)
  }

  /** The text a line stores under field `f`: the line with every
      occurrence of the label removed, then stripped. */
  function FieldText(line: string, f: Field): string {
    Trim(Py, Replace(line, Label(f), ""))
  }

  /** What one line contributes: the field it names and that field's new
      text, or nothing. */
  function Entry(line: string): (r: Option<(Field, string)>)
    ensures r.None? <==> Filed(line).None?
    ensures r.Some? ==> Filed(line) == Some(r.value.0) && r.value.1 == FieldText(line, r.value.0)
  {
    match Filed(line)
    case None => None
    case Some(f) => Some((f, FieldText(line, f)))
  }

  function Entries(lines: seq<string>): (r: seq<Option<(Field, string)>>)
    ensures |r| == |lines| && forall k :: 0 <= k < |lines| ==> r[k] == Entry(lines[k])
  {
    seq(|lines|, k requires 0 <= k < |lines| => Entry(lines[k]))
  }

  /** The loop body applied to each line's entry in turn. */
  function Fold(path: CareerPath, entries: seq<Option<(Field, string)>>): CareerPath
    decreases |entries|
  {
    if entries == [] then path
    else
      var next := match entries[0] case None => path case Some(e) => path[e.0 := e.1];
      Fold(next, entries[1..])
  }

  /** The loop over one path's lines, starting from `path`. */
  function ParseLines(path: CareerPath, lines: seq<string>): CareerPath {
    Fold(path, Entries(lines))
  }

  /** A field is present after the loop exactly when it was before or some
      entry sets it. */
  lemma {:induction false} FoldKeys(path: CareerPath, entries: seq<Option<(Field, string)>>, f: Field)
    ensures f in Fold(path, entries) <==> f in path || exists k :: 0 <= k < |entries| && entries[k].Some? && entries[k].value.0 == f
    decreases |entries|
  {
    if entries != [] {
      var next := match entries[0] case None => path case Some(e) => path[e.0 := e.1];
      FoldKeys(next, entries[1..], f);
      assert forall k :: 0 <= k < |entries[1..]| ==> entries[1..][k] == entries[k + 1];
      if exists k :: 0 <= k < |entries| && entries[k].Some? && entries[k].value.0 == f {
        var k :| 0 <= k < |entries| && entries[k].Some? && entries[k].value.0 == f;
        if k > 0 {
          assert entries[1..][k - 1] == entries[k];
        }
      }
    }
  }

  /** A field no entry sets keeps the text it had. */
  lemma {:induction false} FoldUntouched(path: CareerPath, entries: seq<Option<(Field, string)>>, f: Field)
    requires f in path
    requires forall k :: 0 <= k < |entries| && entries[k].Some? ==> entries[k].value.0 != f
    ensures f in Fold(path, entries) && Fold(path, entries)[f] == path[f]
    decreases |entries|
  {
    if entries != [] {
      var next := match entries[0] case None => path case Some(e) => path[e.0 := e.1];
      assert forall k :: 0 <= k < |entries[1..]| ==> entries[1..][k] == entries[k + 1];
      FoldUntouched(next, entries[1..], f);
    }
  }

  /** The last entry that sets a field decides its text. */
  lemma {:induction false} FoldLastWins(path: CareerPath, entries: seq<Option<(Field, string)>>, f: Field, k: nat)
    requires k < |entries| && entries[k].Some? && entries[k].value.0 == f
    requires forall j :: k < j < |entries| && entries[j].Some? ==> entries[j].value.0 != f
    ensures f in Fold(path, entries) && Fold(path, entries)[f] == entries[k].value.1
    decreases |entries|
  {
    var next := match entries[0] case None => path case Some(e) => path[e.0 := e.1];
    assert forall j :: 0 <= j < |entries[1..]| ==> entries[1..][j] == entries[j + 1];
    if k == 0 {
      FoldUntouched(next, entries[1..], f);
    } else {
      FoldLastWins(next, entries[1..], f, k - 1);
    }
  }

  /** For lines: a field is present after parsing exactly when it was
      before or some line names it. */
  lemma ParseLinesKeys(path: CareerPath, lines: seq<string>, f: Field)
    ensures f in ParseLines(path, lines) <==> f in path || exists k :: 0 <= k < |lines| && Filed(lines[k]) == Some(f)
  {
    var entries := Entries(lines);
    FoldKeys(path, entries, f);
    if exists k :: 0 <= k < |lines| && Filed(lines[k]) == Some(f) {
      var k :| 0 <= k < |lines| && Filed(lines[k]) == Some(f);
      assert entries[k].Some? && entries[k].value.0 == f;
    }
  }

  /** For lines: the last line naming a field decides its text. */
  lemma ParseLinesLastWins(path: CareerPath, lines: seq<string>, f: Field, k: nat)
    requires k < |lines| && Filed(lines[k]) == Some(f)
    requires forall j :: k < j < |lines| ==> Filed(lines[j]) != Some(f)
    ensures f in ParseLines(path, lines) && ParseLines(path, lines)[f] == FieldText(lines[k], f)
  {
    var entries := Entries(lines);
    forall j | k < j < |entries| && entries[j].Some? ensures entries[j].value.0 != f {
      assert Filed(lines[j]) != Some(f);
    }
    FoldLastWins(path, entries, f, k);
  }

  /** One `//`-separated segment: stripped, cut into lines, parsed from an
      empty `path_dict`. */
  function ParseSegment(segment: string): CareerPath {
    ParseLines(map[], Split(Trim(Py, segment), "\n"))
  }

  /** What one segment adds: its parse, unless the segment is blank or
      its lines set no field. */
  function Kept(segment: string): (r: seq<CareerPath>)
    ensures r == [] || (r == [ParseSegment(segment)] && Trim(Py, segment) != [] && r[0] != map[])
    ensures Trim(Py, segment) != [] && ParseSegment(segment) != map[] ==> r != []
  {
    if Trim(Py, segment) != [] && ParseSegment(segment) != map[] then [ParseSegment(segment)] else []
  }

  /** `parts[0] + parts[1] + ...`. */
  function Concat<T>(parts: seq<seq<T>>): seq<T> {
    if parts == [] then [] else parts[0] + Concat(parts[1..])
  }

  /** Every element of the concatenation comes from some part, and every
      element of every part is in it. */
  lemma {:induction false} ConcatMembers<T>(parts: seq<seq<T>>, x: T)
    ensures x in Concat(parts) <==> exists j :: 0 <= j < |parts| && x in parts[j]
  {
    if parts != [] {
      ConcatMembers(parts[1..], x);
      assert forall j :: 0 <= j < |parts[1..]| ==> parts[1..][j] == parts[j + 1];
      if x in parts[0] {
      } else if exists j :: 0 <= j < |parts| && x in parts[j] {
        var j :| 0 <= j < |parts| && x in parts[j];
        assert x in parts[1..][j - 1];
      }
    }
  }

  /** The loop over the segments. */
  function ParsePaths(segments: seq<string>): (r: seq<CareerPath>) {
    Concat(MapParts(Kept, segments))
  }

  /** `f` applied to each element. */
  function MapParts<A, B>(f: A -> seq<B>, xs: seq<A>): (r: seq<seq<B>>)
    ensures |r| == |xs| && forall j :: 0 <= j < |xs| ==> r[j] == f(xs[j])
  {
    seq(|xs|, j requires 0 <= j < |xs| => f(xs[j]))
  }

  lemma MapPartsCons<A, B>(f: A -> seq<B>, xs: seq<A>)
    requires xs != []
    ensures Concat(MapParts(f, xs)) == f(xs[0]) + Concat(MapParts(f, xs[1..]))
  {
    assert MapParts(f, xs)[1..] == MapParts(f, xs[1..]);
  }

  /** The kept paths are exactly the parses of the non-blank segments that
      set some field. */
  lemma ParsePathsMembers(segments: seq<string>, c: CareerPath)
    ensures c in ParsePaths(segments) <==>
      exists j :: 0 <= j < |segments| && Trim(Py, segments[j]) != [] && c == ParseSegment(segments[j]) && c != map[]
  {
    MapPartsMembers(Kept, segments, c);
    forall j | 0 <= j < |segments|
      ensures c in Kept(segments[j]) <==> Trim(Py, segments[j]) != [] && c == ParseSegment(segments[j]) && c != map[]
    {
      KeptMember(segments[j], c);
    }
  }

  lemma MapPartsMembers<A, B>(f: A -> seq<B>, xs: seq<A>, c: B)
    ensures c in Concat(MapParts(f, xs)) <==> exists j :: 0 <= j < |xs| && c in f(xs[j])
  {
    ConcatMembers(MapParts(f, xs), c);
  }

  lemma KeptMember(segment: string, c: CareerPath)
    ensures c in Kept(segment) <==> Trim(Py, segment) != [] && c == ParseSegment(segment) && c != map[]
  {
  }

  lemma ConcatKept(segments: seq<string>)
    requires segments != []
    ensures ParsePaths(segments) == Kept(segments[0]) + ParsePaths(segments[1..])
  {
    MapPartsCons(Kept, segments);
  }

  datatype CareerPaths = CareerPaths(paths: seq<CareerPath>, total: nat)

  /** `c` is the non-empty parse of some non-blank segment. */
  predicate ParsedFrom(segments: seq<string>, c: CareerPath)
  {
    exists j :: 0 <= j < |segments| && Trim(Py, segments[j]) != [] && c == ParseSegment(segments[j]) && c != map[]
  }

  /** `ParsePathsMembers` for every record at once. */
  lemma ParsePathsMembersAll(segments: seq<string>)
    ensures forall c :: c in ParsePaths(segments) <==> ParsedFrom(segments, c)
  {
    forall c {
      ParsePathsMembers(segments, c);
    }
  }

  /** The value `generate_career_paths` returns for the model's text: the
      records are exactly the non-empty parses of the non-blank segments
      between `//` separators, and the total counts them. */
  function GenerateCareerPaths(content: string): (r: CareerPaths)
    ensures r.total == |r.paths|
    ensures forall c :: c in r.paths <==> ParsedFrom(Split(content, "//"), c)
  {
    var segments := Split(content, "//");
    ParsePathsMembersAll(segments);
    var paths := ParsePaths(segments);
    CareerPaths(paths, |paths|)
  }

  /** A line is filed under a field exactly when it contains that field's
      label and none of the labels tried before it. */
  lemma LineFieldIsFirst(line: string, f: Field)
    ensures LineField(line) == Some(f) <==>
      Contains(line, Label(f)) && forall g :: Rank(g) < Rank(f) ==> !Contains(line, Label(g))
  {
    if Contains(line, Label(f)) && forall g :: Rank(g) < Rank(f) ==> !Contains(line, Label(g)) {
      var r := LineField(line);
      assert r.Some?;
      assert !(Rank(r.value) < Rank(f));
      assert !(Rank(f) < Rank(r.value));
    }
  }

  // ---------------------------------------------------------------------------
  // The format the prompt asks for, and reading it back
  // ---------------------------------------------------------------------------

  /** A field's text that survives the format: non-empty, no surrounding
      whitespace, and none of the characters the format is built from. */
  predicate CleanText(v: string) {
    && v != []
    && !IsSpace(Py, v[0]) && !IsSpace(Py, v[|v| - 1])
    && ':' !in v && '\n' !in v && '/' !in v
  }

  predicate CleanTexts(path: CareerPath) {
    forall f :: f in path ==> CleanText(path[f])
  }

  predicate CleanPath(path: CareerPath) {
    path != map[] && CleanTexts(path)
  }

  /** "Label: text", as in the prompt's example. */
  function FieldLine(f: Field, v: string): string {
    Label(f) + " " + v
  }

  /** A line the format produces: non-empty, stripped, with one ':' right
      after the name and no separator character. */
  predicate FormatLine(l: string) {
    && l != [] && '/' !in l && '\n' !in l
    && !IsSpace(Py, l[0]) && !IsSpace(Py, l[|l| - 1])
  }

  lemma LineShape(f: Field, v: string)
    requires CleanText(v)
    ensures FormatLine(FieldLine(f, v))
    ensures var l := FieldLine(f, v); var p := |Name(f)|;
      p < |l| && l[p] == ':' && forall k :: 0 <= k < |l| && k != p ==> l[k] != ':'
  {
    NameShape(f);
    var l := FieldLine(f, v);
    var n := Name(f);
    assert l == n + [':', ' '] + v;
    assert l[|l| - 1] == v[|v| - 1];
    assert l[0] == n[0];
    forall k | 0 <= k < |l| && k != |n| ensures l[k] != ':' {
      if k < |n| {
        assert l[k] == n[k] && n[k] in n;
      } else if k > |n| + 1 {
        assert l[k] == v[k - |n| - 2] && v[k - |n| - 2] in v;
      }
    }
  }

  /** The lines of `path` for the listed fields, in order. */
  function RenderLines(path: CareerPath, fields: seq<Field>): (r: seq<string>)
    requires CleanTexts(path)
    ensures |r| <= |fields|
    ensures forall k :: 0 <= k < |r| ==> FormatLine(r[k])
    ensures r == [] ==> forall f :: f in fields ==> f !in path
  {
    if fields == [] then []
    else
      var rest := RenderLines(path, fields[1..]);
      if fields[0] in path then
        LineShape(fields[0], path[fields[0]]);
        [FieldLine(fields[0], path[fields[0]])] + rest
      else
        assert forall f :: f in fields ==> f == fields[0] || f in fields[1..];
        rest
  }

  function RenderPath(path: CareerPath): string
    requires CleanTexts(path)
  {
    Join(RenderLines(path, FieldOrder), "\n")
  }

  /** Career paths written in the prompt's format, separated by "//". */
  function Render(paths: seq<CareerPath>): string
    requires forall k :: 0 <= k < |paths| ==> CleanPath(paths[k])
  {
    Join(seq(|paths|, k requires 0 <= k < |paths| && CleanPath(paths[k]) => RenderPath(paths[k])), "//")
  }

  /** Every career path written in the format, with clean texts, is read
      back exactly, and the total is the number of paths. */
  lemma RenderRoundTrip(paths: seq<CareerPath>)
    requires forall k :: 0 <= k < |paths| ==> CleanPath(paths[k])
    ensures GenerateCareerPaths(Render(paths)).paths == paths
    ensures GenerateCareerPaths(Render(paths)).total == |paths|
  {
    var segments := seq(|paths|, k requires 0 <= k < |paths| && CleanPath(paths[k]) => RenderPath(paths[k]));
    if paths == [] {
      assert Render(paths) == "";
      assert Split("", "//") == [""];
      assert Kept("") == [];
      ConcatKept([""]);
      assert ParsePaths([]) == [];
    } else {
      forall k | 0 <= k < |segments| ensures '/' !in segments[k] {
        RenderedPathShape(paths[k]);
      }
      SplitJoin(segments, "//");
      ParseRenderedPaths(paths, segments);
    }
  }

  lemma {:induction false} ParseRenderedPaths(paths: seq<CareerPath>, segments: seq<string>)
    requires |segments| == |paths|
    requires forall k :: 0 <= k < |paths| ==> CleanPath(paths[k]) && segments[k] == RenderPath(paths[k])
    ensures ParsePaths(segments) == paths
  {
    if paths != [] {
      KeptRendered(paths[0]);
      ConcatKept(segments);
      ParseRenderedPaths(paths[1..], segments[1..]);
    }
  }

  /** A rendered path is kept, as itself. */
  lemma KeptRendered(path: CareerPath)
    requires CleanPath(path)
    ensures Kept(RenderPath(path)) == [path]
  {
    RenderedPathShape(path);
    SegmentRoundTrip(path);
    KeptStripped(RenderPath(path));
  }

  /** A stripped segment that parses to a non-empty path is kept as it. */
  lemma KeptStripped(segment: string)
    requires segment != [] && !IsSpace(Py, segment[0]) && !IsSpace(Py, segment[|segment| - 1])
    ensures ParseSegment(segment) != map[] ==> Kept(segment) == [ParseSegment(segment)]
  {
    TrimClean(Py, segment);
  }

  /** A rendered path is a non-empty format line block, free of '/'. */
  lemma RenderedPathShape(path: CareerPath)
    requires CleanPath(path)
    ensures var s := RenderPath(path);
      s != [] && '/' !in s && !IsSpace(Py, s[0]) && !IsSpace(Py, s[|s| - 1])
  {
    var f :| f in path;
    InFieldOrder(f);
    JoinShape(RenderLines(path, FieldOrder), "\n");
  }

  /** Joining format lines with "\n" gives a string that starts with the
      first line's first character, ends with the last line's last one, and
      holds no '/'. */
  lemma {:induction false} JoinShape(parts: seq<string>, sep: string)
    requires parts != [] && sep == "\n"
    requires forall k :: 0 <= k < |parts| ==> FormatLine(parts[k])
    ensures var s := Join(parts, sep);
      s != [] && '/' !in s && !IsSpace(Py, s[0]) && !IsSpace(Py, s[|s| - 1])
  {
    if |parts| > 1 {
      JoinShape(parts[1..], sep);
      var rest := Join(parts[1..], sep);
      var s := parts[0] + sep + rest;
      assert Join(parts, sep) == s;
      assert s[0] == parts[0][0];
      assert s[|s| - 1] == rest[|rest| - 1];
    }
  }

  /** One rendered path parses back to itself. */
  lemma SegmentRoundTrip(path: CareerPath)
    requires CleanPath(path)
    ensures ParseSegment(RenderPath(path)) == path
  {
    var lines := RenderLines(path, FieldOrder);
    RenderedPathShape(path);
    TrimClean(Py, RenderPath(path));
    assert forall k :: 0 <= k < |lines| ==> '\n' !in lines[k];
    SplitJoin(lines, "\n");
    ParseRenderedLines(map[], path, FieldOrder);
    RestrictAll(path);
  }

  /** Every field is in `FieldOrder`, so restricting to it keeps the path. */
  lemma RestrictAll(path: CareerPath)
    ensures map[] + Restrict(path, FieldOrder) == path
  {
    var r := Restrict(path, FieldOrder);
    forall f | f in path ensures f in r {
      InFieldOrder(f);
    }
    assert r.Keys == path.Keys;
    assert map[] + r == r;
  }

  /** Parsing the rendered lines of the listed fields adds exactly those
      fields, with their texts. */
  lemma {:induction false} ParseRenderedLines(acc: CareerPath, path: CareerPath, fields: seq<Field>)
    requires CleanTexts(path)
    ensures ParseLines(acc, RenderLines(path, fields)) == acc + Restrict(path, fields)
    decreases |fields|
  {
    if fields != [] {
      var f := fields[0];
      var rest := RenderLines(path, fields[1..]);
      if f in path {
        var lines := RenderLines(path, fields);
        assert lines == [FieldLine(f, path[f])] + rest;
        RenderedEntryStep(acc, f, path[f], rest);
        ParseRenderedLines(acc[f := path[f]], path, fields[1..]);
        RestrictCons(acc, path, fields);
      } else {
        ParseRenderedLines(acc, path, fields[1..]);
        RestrictCons(acc, path, fields);
      }
    }
  }

  /** Parsing a rendered line first, then the rest, sets its field first. */
  lemma RenderedEntryStep(acc: CareerPath, f: Field, v: string, rest: seq<string>)
    requires CleanText(v)
    ensures ParseLines(acc, [FieldLine(f, v)] + rest) == ParseLines(acc[f := v], rest)
  {
    LineRoundTrip(f, v);
    EntriesCons(FieldLine(f, v), rest);
    FoldStep(acc, Entries([FieldLine(f, v)] + rest), f, v);
  }

  lemma EntriesCons(line: string, rest: seq<string>)
    ensures Entries([line] + rest) == [Entry(line)] + Entries(rest)
  {
    var lines := [line] + rest;
    assert forall k :: 0 <= k < |rest| ==> lines[k + 1] == rest[k];
  }

  lemma FoldStep(acc: CareerPath, entries: seq<Option<(Field, string)>>, f: Field, v: string)
    requires entries != [] && entries[0] == Some((f, v))
    ensures Fold(acc, entries) == Fold(acc[f := v], entries[1..])
  {
  }

  /** The entries of `path` whose fields are listed. */
  function Restrict(path: CareerPath, fields: seq<Field>): (r: CareerPath)
    ensures forall f :: f in r <==> f in path && f in fields
    ensures forall f :: f in r ==> r[f] == path[f]
  {
    map f | f in path && f in fields :: path[f]
  }

  lemma RestrictCons(acc: CareerPath, path: CareerPath, fields: seq<Field>)
    requires fields != []
    ensures fields[0] in path ==> acc + Restrict(path, fields) == acc[fields[0] := path[fields[0]]] + Restrict(path, fields[1..])
    ensures fields[0] !in path ==> acc + Restrict(path, fields) == acc + Restrict(path, fields[1..])
  {
    assert forall g :: g in fields <==> g == fields[0] || g in fields[1..];
  }

  /** A rendered line is filed under its own field and gives back its text. */
  lemma LineRoundTrip(f: Field, v: string)
    requires CleanText(v)
    ensures Filed(FieldLine(f, v)) == Some(f)
    ensures FieldText(FieldLine(f, v), f) == v
    ensures Entry(FieldLine(f, v)) == Some((f, v))
  {
    LineFiledOwn(f, v);
    LineTextBack(f, v);
  }

  /** A rendered line is filed under its own field. */
  lemma LineFiledOwn(f: Field, v: string)
    requires CleanText(v)
    ensures Filed(FieldLine(f, v)) == Some(f)
  {
    var l := FieldLine(f, v);
    LineShape(f, v);
    TrimClean(Py, l);
    assert Contains(l, Label(f)) by { assert StartsWith(l, Label(f)); }
    forall g | Rank(g) < Rank(f) ensures !Contains(l, Label(g)) {
      OnlyOwnLabel(f, v, g);
    }
    LineFieldIsFirst(l, f);
  }

  /** Removing its own label from a rendered line and stripping gives the
      text back. */
  lemma LineTextBack(f: Field, v: string)
    requires CleanText(v)
    ensures FieldText(FieldLine(f, v), f) == v
  {
    NameShape(f);
    assert ':' in Label(f) by { assert Label(f)[|Label(f)| - 1] == ':'; }
    assert FieldLine(f, v) == Label(f) + (" " + v);
    ReplaceLeadingOnly(Label(f), " " + v, ':');
    TrimPadded(v);
  }

  /** A rendered line contains no label but its own. */
  lemma OnlyOwnLabel(f: Field, v: string, g: Field)
    requires CleanText(v) && g != f
    ensures !Contains(FieldLine(f, v), Label(g))
  {
    var l := FieldLine(f, v);
    var p := |Name(f)|;
    var b := Label(g);
    LineShape(f, v);
    ColonOccurrence(l, b, p);
    if |b| <= p + 1 {
      NameKeyChar(f);
      NameKeyChar(g);
      KeyCharDistinct(f, g);
      assert l[p - 5] == Name(f)[p - 5];
      assert l[p + 1 - |b|..p + 1][|b| - 6] == l[p - 5];
      assert b[|b| - 6] == Name(g)[|Name(g)| - 5];
    }
  }

  /** Stripping " " + v gives v back when v is already stripped. */
  lemma TrimPadded(v: string)
    requires v != [] && !IsSpace(Py, v[0]) && !IsSpace(Py, v[|v| - 1])
    ensures Trim(Py, " " + v) == v
  {
    assert (" " + v)[1..] == v;
    assert TrimStart(Py, " " + v) == TrimStart(Py, v) == v;
  }

  /** In a string whose only ':' is at position `p`, a pattern ending in
      ':' can only occur ending at `p`. */
  lemma {:induction false} ColonOccurrence(s: string, t: string, p: nat)
    requires p < |s| && s[p] == ':' && forall k :: 0 <= k < |s| && k != p ==> s[k] != ':'
    requires |t| > 0 && t[|t| - 1] == ':'
    ensures Contains(s, t) ==> |t| <= p + 1 && s[p + 1 - |t|..p + 1] == t
    decreases |s|
  {
    if !Contains(s, t) {
    } else if StartsWith(s, t) {
      assert s[|t| - 1] == ':';
    } else if p == 0 {
      assert forall k :: 0 <= k < |s[1..]| ==> s[1..][k] != ':';
      NotContainsMissingChar(s[1..], t, ':');
    } else {
      ColonOccurrence(s[1..], t, p - 1);
      assert s[p + 1 - |t|..p + 1] == s[1..][p - |t|..p];
    }
  }
}
